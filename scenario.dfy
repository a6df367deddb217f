/**
 * A board, a card on it and a task on the card, from an empty database:
 * each is created under id 1, the task reports one day left, and deleting the
 * board takes the card and the task with it.
 */
module Scenario {
  import opened Values
  import opened Responses
  import opened Validation
  import opened Schema
  import opened Persistence
  import BoardController
  import CardController
  import TaskController
  import Models

  const BoardPayload: Payload := map["name" := Str("Sprint 1"), "numCards" := Int(0)]

  const CardPayload: Payload := map["title" := Str("To Do"), "board_id" := Int(1)]

  /** A task ending the day after `today`; `employee` is sent, since its column is not nullable. */
  function TaskPayload(today: int): Payload
  {
    map[
      "taskName" := Str("Write spec"), "description" := Str("First draft"),
      "startDate" := Date(today), "endDate" := Date(today + 1),
      "allocator" := Str("Ana"), "employee" := Str("Luis"), "priority" := Str("High"),
      "progress" := Int(0), "card_id" := Int(1)
    ]
  }

  lemma NotBlank(s: string)
    requires |s| > 0 && !TrimmedAway(s[0])
    ensures !IsBlank(s)
  {
  }

  /** The database after each step. */
  const AfterBoard: Db := Db(map[1 := BoardPayload], map[], map[], 2, 1, 1)

  const AfterCard: Db := AfterBoard.(cards := map[1 := CardPayload], nextCardId := 2)

  function AfterTask(today: int): Db
  {
    AfterCard.(tasks := map[1 := TaskPayload(today)], nextTaskId := 2)
  }

  lemma BoardStep()
    ensures BoardController.StoreOutcome(Empty, BoardPayload)
      == Outcome(AfterBoard, Ok(StatusCreated, Record(1, BoardPayload)))
  {
    NotBlank("Sprint 1");
    assert BoardController.StoreAccepts(BoardPayload);
  }

  lemma CardStep()
    ensures CardController.StoreOutcome(AfterBoard, 1, CardPayload)
      == Outcome(AfterCard, Ok(StatusCreated, Record(1, CardPayload)))
  {
    NotBlank("To Do");
    assert CardController.StoreAccepts(CardPayload, AfterBoard.boards.Keys);
    assert CardController.DescriptionFits(CardPayload);
    assert CardPayload.Keys * Models.CardFillable == CardPayload.Keys;
    assert Models.Fill(CardPayload, Models.CardFillable) == CardPayload;
  }

  lemma TaskStep(today: int)
    ensures TaskController.StoreOutcome(AfterCard, TaskPayload(today))
      == Outcome(AfterTask(today), Ok(StatusCreated, Record(1, TaskPayload(today))))
  {
    var p := TaskPayload(today);
    NotBlank("Write spec");
    NotBlank("First draft");
    NotBlank("Ana");
    NotBlank("High");
    assert TaskController.StoreAccepts(p, AfterCard.cards.Keys);
    assert TaskController.StoreFits(p);
    assert p.Keys * Models.TaskFillable == p.Keys;
    assert Models.Fill(p, Models.TaskFillable) == p;
  }

  lemma DaysLeftStep(today: int)
    ensures var d := TaskController.DaysLeft(AfterTask(today), 1, today);
      d.Ok? && d.body.remainingDays == 1 && d.body.detail == TaskController.TimeLeft
  {
  }

  lemma DeleteStep(today: int)
    ensures var gone := BoardController.DestroyOutcome(AfterTask(today), 1);
      && gone.response == Ok(StatusNoContent, NoContent)
      && CardController.Show(gone.db, 1) == NotFound
      && TaskController.Show(gone.db, 1) == NotFound
  {
    var db := AfterTask(today);
    assert 1 in CardsOf(db, 1);
    assert 1 in TasksOf(db, CardsOf(db, 1));
  }

  /**
   * Create board 1, card 1 on it and task 1 on the card ending tomorrow; the
   * task then has one day left, and deleting board 1 leaves neither card 1
   * nor task 1 to be shown.
   */
  lemma CreateBoardCardTaskThenDeleteBoard(today: int)
    ensures var b := BoardController.StoreOutcome(Empty, BoardPayload);
      && b.response == Ok(StatusCreated, Record(1, BoardPayload))
      && var c := CardController.StoreOutcome(b.db, 1, CardPayload);
      && c.response.Ok? && c.response.body.id == 1 && c.response.body.row["board_id"] == Int(1)
      && var t := TaskController.StoreOutcome(c.db, TaskPayload(today));
      && t.response.Ok? && t.response.body.id == 1
      && var d := TaskController.DaysLeft(t.db, 1, today);
      && d.Ok? && d.body.remainingDays == 1 && d.body.detail == TaskController.TimeLeft
      && var gone := BoardController.DestroyOutcome(t.db, 1);
      && gone.response == Ok(StatusNoContent, NoContent)
      && CardController.Show(gone.db, 1) == NotFound
      && TaskController.Show(gone.db, 1) == NotFound
  {
    BoardStep();
    CardStep();
    TaskStep(today);
    DaysLeftStep(today);
    DeleteStep(today);
  }
}

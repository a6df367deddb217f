/** `CardController`: list, show, create, update and delete cards. */
module CardController {
  import opened Values
  import opened Responses
  import opened Validation
  import opened Schema
  import opened Persistence
  import Models

  /** The rules `store` validates with, given the ids of the boards table. */
  function StoreRules(boardIds: set<int>): RuleSet
  {
    map[
      "title" := [Required, IsString, Max(255)],
      "board_id" := [Required, Exists(boardIds)]
    ]
  }

  /** The rules `update` validates with, given the ids of the boards table. */
  function UpdateRules(boardIds: set<int>): RuleSet
  {
    map[
      "title" := [Sometimes, Required, IsString, Max(255)],
      "board_id" := [Sometimes, Required, Exists(boardIds)]
    ]
  }

  /** What `store` accepts: a filled title of at most 255 characters and the id of an existing board. */
  predicate StoreAccepts(p: Payload, boardIds: set<int>)
  {
    FilledStringMax(p, "title", 255) && IdField(p, "board_id", boardIds)
  }

  /** What `update` accepts: the same two fields, each checked only when it is sent. */
  predicate UpdateAccepts(p: Payload, boardIds: set<int>)
  {
    ("title" in p ==> FilledStringMax(p, "title", 255)) && ("board_id" in p ==> IdField(p, "board_id", boardIds))
  }

  /** The description column is nullable text: an absent or null description is stored as null. */
  predicate DescriptionFits(p: Payload)
  {
    Get(p, "description").Null? || Get(p, "description").Str?
  }

  lemma StoreRulesMeaning(p: Payload, boardIds: set<int>)
    ensures "title" in Errors(p, StoreRules(boardIds)) <==> !FilledStringMax(p, "title", 255)
    ensures "board_id" in Errors(p, StoreRules(boardIds)) <==> !IdField(p, "board_id", boardIds)
    ensures Errors(p, StoreRules(boardIds)) == {} <==> StoreAccepts(p, boardIds)
  {
    RequiredStringMaxMeaning(p, "title", 255);
    RequiredExistsMeaning(p, "board_id", boardIds);
  }

  lemma UpdateRulesMeaning(p: Payload, boardIds: set<int>)
    ensures "title" in Errors(p, UpdateRules(boardIds)) <==> !("title" in p ==> FilledStringMax(p, "title", 255))
    ensures "board_id" in Errors(p, UpdateRules(boardIds)) <==> !("board_id" in p ==> IdField(p, "board_id", boardIds))
    ensures Errors(p, UpdateRules(boardIds)) == {} <==> UpdateAccepts(p, boardIds)
  {
    SometimesStringMaxMeaning(p, "title", 255);
    SometimesExistsMeaning(p, "board_id", boardIds);
  }

  /** `index`: every card of every board; the board named in the route plays no part. */
  function Index(db: Db, routeBoardId: int): (r: Response)
    ensures r.Ok? && r.status == StatusOk && r.body.Listing? && r.body.rows == db.cards
    ensures forall c :: c in db.cards && c !in CardsOf(db, routeBoardId) ==> c in r.body.rows
  {
    Ok(StatusOk, Listing(db.cards))
  }

  /** `show`: the card, or 404 from `findOrFail`. */
  function Show(db: Db, id: int): (r: Response)
    ensures r.NotFound? <==> id !in db.cards
    ensures id in db.cards ==> r.Ok?
    ensures r.Ok? ==> r.status == StatusOk && r.body == Record(id, db.cards[id])
  {
    if id in db.cards then Ok(StatusOk, Record(id, db.cards[id])) else NotFound
  }

  /**
   * `store`: validate, then insert the filled payload under the next id. The
   * board comes from the payload's `board_id`; the route's board id is unused.
   */
  function StoreOutcome(db: Db, routeBoardId: int, p: Payload): (out: Outcome)
    ensures out.response.Invalid? || out.response.Crash? || out.response.Ok?
    ensures out.response.Invalid? <==> !StoreAccepts(p, db.boards.Keys)
    ensures out.response.Invalid? ==>
      ("title" in out.response.fields <==> !FilledStringMax(p, "title", 255)) &&
      ("board_id" in out.response.fields <==> !IdField(p, "board_id", db.boards.Keys))
    ensures out.response.Invalid? ==> out.response.fields <= {"title", "board_id"}
    ensures out.response.Crash? <==> StoreAccepts(p, db.boards.Keys) && !DescriptionFits(p)
    ensures !out.response.Ok? ==> out.db == db
    ensures out.response.Ok? ==>
      && out.response.status == StatusCreated
      && out.response.body.Record?
      && out.response.body.id == db.nextCardId
      && out.db == db.(cards := db.cards[db.nextCardId := out.response.body.row], nextCardId := db.nextCardId + 1)
      && out.response.body.row == Models.Fill(p, Models.CardFillable)
      && out.response.body.row["board_id"] == p["board_id"]
      && References(out.response.body.row, "board_id", db.boards.Keys)
    ensures Consistent(db) && out.response.Ok? ==> db.nextCardId !in db.cards
    ensures Consistent(db) ==> Consistent(out.db)
  {
    StoreRulesMeaning(p, db.boards.Keys);
    var errs := Errors(p, StoreRules(db.boards.Keys));
    if errs != {} then Outcome(db, Invalid(errs))
    else
      var row := Models.Fill(p, Models.CardFillable);
      assert Get(row, "description") == Get(p, "description");
      CardColumnsMeaning(row);
      if !CardWritable(row, db.boards.Keys) then Outcome(db, Crash)
      else
        var id := db.nextCardId;
        Outcome(db.(cards := db.cards[id := row], nextCardId := id + 1), Ok(StatusCreated, Record(id, row)))
  }

  /**
   * `update`: validate the fields that are sent (a new `board_id` must be an
   * existing board), then 404 if the card is absent, then write every
   * fillable key of the payload.
   */
  function UpdateOutcome(db: Db, id: int, p: Payload): (out: Outcome)
    ensures out.response.Invalid? <==> !UpdateAccepts(p, db.boards.Keys)
    ensures out.response.Invalid? ==>
      ("title" in out.response.fields <==> !("title" in p ==> FilledStringMax(p, "title", 255))) &&
      ("board_id" in out.response.fields <==> !("board_id" in p ==> IdField(p, "board_id", db.boards.Keys))) &&
      out.response.fields <= {"title", "board_id"}
    ensures out.response.NotFound? <==> UpdateAccepts(p, db.boards.Keys) && id !in db.cards
    ensures Consistent(db) ==>
      (out.response.Crash? <==> UpdateAccepts(p, db.boards.Keys) && id in db.cards && "description" in p && !DescriptionFits(p))
    ensures !out.response.Ok? ==> out.db == db
    ensures out.response.Ok? ==>
      && id in db.cards
      && out.response.status == StatusOk
      && out.response.body.Record? && out.response.body.id == id
      && out.db == db.(cards := db.cards[id := out.response.body.row])
      && out.response.body.row == Models.Assign(db.cards[id], p, Models.CardFillable)
      && References(out.response.body.row, "board_id", db.boards.Keys)
    ensures Consistent(db) ==> Consistent(out.db)
  {
    UpdateRulesMeaning(p, db.boards.Keys);
    var errs := Errors(p, UpdateRules(db.boards.Keys));
    if errs != {} then Outcome(db, Invalid(errs))
    else if id !in db.cards then Outcome(db, NotFound)
    else
      var row := Models.Assign(db.cards[id], p, Models.CardFillable);
      assert "description" !in p ==> Get(row, "description") == Get(db.cards[id], "description");
      assert "description" in p ==> Get(row, "description") == p["description"];
      CardColumnsMeaning(row);
      CardColumnsMeaning(db.cards[id]);
      if !CardWritable(row, db.boards.Keys) then Outcome(db, Crash)
      else Outcome(db.(cards := db.cards[id := row]), Ok(StatusOk, Record(id, row)))
  }

  /** `destroy`: 404 if absent, otherwise delete the card and its tasks. */
  function DestroyOutcome(db: Db, id: int): (out: Outcome)
    ensures out.response.NotFound? <==> id !in db.cards
    ensures id in db.cards ==> out.response.Ok?
    ensures out.response.NotFound? ==> out.db == db
    ensures out.response.Ok? ==> out.response == Ok(StatusNoContent, NoContent) && out.db == DeleteCard(db, id)
    ensures Consistent(db) ==> Consistent(out.db)
  {
    if id !in db.cards then Outcome(db, NotFound)
    else Outcome(DeleteCard(db, id), Ok(StatusNoContent, NoContent))
  }

  method Store(db: Database, routeBoardId: int, p: Payload) returns (r: Response)
    requires db.Valid()
    modifies db
    ensures Outcome(db.Snapshot(), r) == StoreOutcome(old(db.Snapshot()), routeBoardId, p)
    ensures db.Valid()
  {
    var errs := Errors(p, StoreRules(db.boards.Keys));
    if errs != {} {
      return Invalid(errs);
    }
    var row := Models.Fill(p, Models.CardFillable);
    if !CardWritable(row, db.boards.Keys) {
      return Crash;
    }
    var id := db.nextCardId;
    db.cards := db.cards[id := row];
    db.nextCardId := id + 1;
    r := Ok(StatusCreated, Record(id, row));
  }

  method Update(db: Database, id: int, p: Payload) returns (r: Response)
    requires db.Valid()
    modifies db
    ensures Outcome(db.Snapshot(), r) == UpdateOutcome(old(db.Snapshot()), id, p)
    ensures db.Valid()
  {
    var errs := Errors(p, UpdateRules(db.boards.Keys));
    if errs != {} {
      return Invalid(errs);
    }
    if id !in db.cards {
      return NotFound;
    }
    var row := Models.Assign(db.cards[id], p, Models.CardFillable);
    if !CardWritable(row, db.boards.Keys) {
      return Crash;
    }
    db.cards := db.cards[id := row];
    r := Ok(StatusOk, Record(id, row));
  }

  method Destroy(db: Database, id: int) returns (r: Response)
    requires db.Valid()
    modifies db
    ensures Outcome(db.Snapshot(), r) == DestroyOutcome(old(db.Snapshot()), id)
    ensures db.Valid()
  {
    if id !in db.cards {
      return NotFound;
    }
    db.tasks := db.tasks - TasksOf(db.Snapshot(), {id});
    db.cards := db.cards - {id};
    r := Ok(StatusNoContent, NoContent);
  }
}

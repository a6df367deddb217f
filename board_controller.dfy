/** `BoardController`: list, show, create, update and delete boards. */
module BoardController {
  import opened Values
  import opened Responses
  import opened Validation
  import opened Schema
  import opened Persistence
  import Models

  /** The rules `store` validates with. */
  const StoreRules: RuleSet := map[
    "name" := [Required, IsString, Max(255)],
    "numCards" := [Required, IsInteger]
  ]

  /** The rules `update` validates with. */
  const UpdateRules: RuleSet := map["name" := [Sometimes, Required, IsString, Max(255)]]

  /** What `store` accepts: a filled name of at most 255 characters and an integer `numCards`. */
  predicate StoreAccepts(p: Payload)
  {
    FilledStringMax(p, "name", 255) && IntegerField(p, "numCards")
  }

  /** What `update` accepts: a name, when one is sent, is filled and at most 255 characters long. */
  predicate UpdateAccepts(p: Payload)
  {
    "name" in p ==> FilledStringMax(p, "name", 255)
  }

  lemma StoreRulesMeaning(p: Payload)
    ensures "name" in Errors(p, StoreRules) <==> !FilledStringMax(p, "name", 255)
    ensures "numCards" in Errors(p, StoreRules) <==> !IntegerField(p, "numCards")
    ensures Errors(p, StoreRules) == {} <==> StoreAccepts(p)
  {
    RequiredStringMaxMeaning(p, "name", 255);
    RequiredIntegerMeaning(p, "numCards");
  }

  lemma UpdateRulesMeaning(p: Payload)
    ensures Errors(p, UpdateRules) == {} <==> UpdateAccepts(p)
    ensures Errors(p, UpdateRules) != {} ==> Errors(p, UpdateRules) == {"name"}
  {
    SometimesStringMaxMeaning(p, "name", 255);
    var errs := Errors(p, UpdateRules);
    if UpdateAccepts(p) {
      assert "name" !in errs;
      assert errs == {};
    } else {
      assert "name" in errs;
    }
  }

  /** `index`: every board. */
  function Index(db: Db): (r: Response)
    ensures r.Ok? && r.status == StatusOk && r.body.Listing? && r.body.rows == db.boards
  {
    Ok(StatusOk, Listing(db.boards))
  }

  /** `show`: the board, or 404 from `findOrFail`. */
  function Show(db: Db, id: int): (r: Response)
    ensures r.NotFound? <==> id !in db.boards
    ensures id in db.boards ==> r.Ok?
    ensures r.Ok? ==> r.status == StatusOk && r.body == Record(id, db.boards[id])
  {
    if id in db.boards then Ok(StatusOk, Record(id, db.boards[id])) else NotFound
  }

  /** `store`: validate, then insert the filled payload under the next id. */
  function StoreOutcome(db: Db, p: Payload): (out: Outcome)
    ensures out.response.Invalid? || out.response.Ok?
    ensures out.response.Invalid? <==> !StoreAccepts(p)
    ensures out.response.Invalid? ==> out.db == db
    ensures out.response.Invalid? ==>
      ("name" in out.response.fields <==> !FilledStringMax(p, "name", 255)) &&
      ("numCards" in out.response.fields <==> !IntegerField(p, "numCards"))
    ensures out.response.Invalid? ==> out.response.fields <= {"name", "numCards"}
    ensures out.response.Ok? ==>
      && out.response.status == StatusCreated
      && out.response.body.Record?
      && out.response.body.id == db.nextBoardId
      && out.db == db.(boards := db.boards[db.nextBoardId := out.response.body.row], nextBoardId := db.nextBoardId + 1)
      && out.response.body.row == map["name" := p["name"], "numCards" := p["numCards"]]
    ensures Consistent(db) && out.response.Ok? ==> db.nextBoardId !in db.boards
    ensures Consistent(db) ==> Consistent(out.db)
  {
    StoreRulesMeaning(p);
    var errs := Errors(p, StoreRules);
    if errs != {} then Outcome(db, Invalid(errs))
    else
      var row := Models.NewBoard(p);
      assert row == map["name" := p["name"], "numCards" := p["numCards"]];
      var id := db.nextBoardId;
      Outcome(db.(boards := db.boards[id := row], nextBoardId := id + 1), Ok(StatusCreated, Record(id, row)))
  }

  /**
   * `update`: validate the name if one is sent, then 404 if the board is
   * absent, then write every fillable key of the payload; `numCards` is
   * written as sent, without validation.
   */
  function UpdateOutcome(db: Db, id: int, p: Payload): (out: Outcome)
    ensures out.response.Invalid? <==> !UpdateAccepts(p)
    ensures out.response.Invalid? ==> out.response.fields == {"name"}
    ensures out.response.NotFound? <==> UpdateAccepts(p) && id !in db.boards
    ensures UpdateAccepts(p) && id in db.boards ==> out.response.Ok?
    ensures !out.response.Ok? ==> out.db == db
    ensures out.response.Ok? ==>
      && id in db.boards
      && out.response.status == StatusOk
      && out.response.body.Record? && out.response.body.id == id
      && out.db == db.(boards := db.boards[id := out.response.body.row])
      && out.response.body.row.Keys == db.boards[id].Keys + (p.Keys * Models.BoardFillable)
      && ("name" in p ==> out.response.body.row["name"] == p["name"])
      && ("numCards" in p ==> out.response.body.row["numCards"] == p["numCards"])
      && (forall k :: k in db.boards[id] && k !in p ==> out.response.body.row[k] == db.boards[id][k])
    ensures Consistent(db) ==> Consistent(out.db)
  {
    UpdateRulesMeaning(p);
    var errs := Errors(p, UpdateRules);
    if errs != {} then Outcome(db, Invalid(errs))
    else if id !in db.boards then Outcome(db, NotFound)
    else
      var row := Models.Assign(db.boards[id], p, Models.BoardFillable);
      Outcome(db.(boards := db.boards[id := row]), Ok(StatusOk, Record(id, row)))
  }

  /** `destroy`: 404 if absent, otherwise delete the board with its cards and their tasks. */
  function DestroyOutcome(db: Db, id: int): (out: Outcome)
    ensures out.response.NotFound? <==> id !in db.boards
    ensures id in db.boards ==> out.response.Ok?
    ensures out.response.NotFound? ==> out.db == db
    ensures out.response.Ok? ==> out.response == Ok(StatusNoContent, NoContent) && out.db == DeleteBoard(db, id)
    ensures Consistent(db) ==> Consistent(out.db)
  {
    if id !in db.boards then Outcome(db, NotFound)
    else Outcome(DeleteBoard(db, id), Ok(StatusNoContent, NoContent))
  }

  /** A board created by `store` is what `show` then returns under its new id. */
  lemma StoreThenShow(db: Db, p: Payload)
    requires StoreAccepts(p)
    ensures var out := StoreOutcome(db, p);
      out.response.Ok? && Show(out.db, out.response.body.id) == Ok(StatusOk, out.response.body)
  {
  }

  /** After a board is deleted, neither it nor any of its cards or their tasks can be shown. */
  lemma DestroyThenGone(db: Db, id: int)
    requires id in db.boards
    ensures var after := DestroyOutcome(db, id).db;
      && id !in after.boards
      && (forall c :: c in CardsOf(db, id) ==> c !in after.cards)
      && (forall t :: t in TasksOf(db, CardsOf(db, id)) ==> t !in after.tasks)
  {
    DeleteBoardRemovesDescendants(db, id);
  }

  method Store(db: Database, p: Payload) returns (r: Response)
    requires db.Valid()
    modifies db
    ensures Outcome(db.Snapshot(), r) == StoreOutcome(old(db.Snapshot()), p)
    ensures db.Valid()
  {
    var errs := Errors(p, StoreRules);
    if errs != {} {
      return Invalid(errs);
    }
    var row := Models.NewBoard(p);
    var id := db.nextBoardId;
    db.boards := db.boards[id := row];
    db.nextBoardId := id + 1;
    r := Ok(StatusCreated, Record(id, row));
  }

  method Update(db: Database, id: int, p: Payload) returns (r: Response)
    requires db.Valid()
    modifies db
    ensures Outcome(db.Snapshot(), r) == UpdateOutcome(old(db.Snapshot()), id, p)
    ensures db.Valid()
  {
    var errs := Errors(p, UpdateRules);
    if errs != {} {
      return Invalid(errs);
    }
    if id !in db.boards {
      return NotFound;
    }
    var row := Models.Assign(db.boards[id], p, Models.BoardFillable);
    db.boards := db.boards[id := row];
    r := Ok(StatusOk, Record(id, row));
  }

  method Destroy(db: Database, id: int) returns (r: Response)
    requires db.Valid()
    modifies db
    ensures Outcome(db.Snapshot(), r) == DestroyOutcome(old(db.Snapshot()), id)
    ensures db.Valid()
  {
    if id !in db.boards {
      return NotFound;
    }
    var doomed := CardsOf(db.Snapshot(), id);
    db.tasks := db.tasks - TasksOf(db.Snapshot(), doomed);
    db.cards := db.cards - doomed;
    db.boards := db.boards - {id};
    r := Ok(StatusNoContent, NoContent);
  }
}

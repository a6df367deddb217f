/** `TaskController`: list, show, create, update, move, days left and delete tasks. */
module TaskController {
  import opened Values
  import opened Responses
  import opened Validation
  import opened Schema
  import opened Persistence
  import Models

  const TaskUpdated := "Task updated successfully"
  const TimeLeft := "Queda tiempo"
  const Finished := "La tarea ya termino"

  /** The rules `store` validates with, given the ids of the cards table. */
  function StoreRules(cardIds: set<int>): RuleSet
  {
    map[
      "card_id" := [Required, IsInteger, Exists(cardIds)],
      "taskName" := [Required, IsString],
      "description" := [Required],
      "startDate" := [Required, IsDate],
      "endDate" := [Required, IsDate],
      "allocator" := [Required, IsString],
      "employee" := [Sometimes, IsString],
      "priority" := [Required, IsString],
      "progress" := [Required, IsInteger]
    ]
  }

  /** The fields `store` validates. */
  const StoreFields: set<string> :=
    {"card_id", "taskName", "description", "startDate", "endDate", "allocator", "employee", "priority", "progress"}

  /** The rules `update` validates with, given today's day number. */
  function UpdateRules(today: int): RuleSet
  {
    map[
      "taskName" := [Required, IsString],
      "description" := [Required, IsString],
      "priority" := [Required, IsString],
      "endDate" := [Nullable, IsDate, AfterOrEqual(today)]
    ]
  }

  /** The rules `updateId` validates with: no check that the card exists. */
  const MoveRules: RuleSet := map["card_id" := [Required, IsInteger]]

  /**
   * What `store` accepts: an existing card's id, a filled task name and
   * description, two dates, a filled allocator and priority, an integer
   * progress, and an employee that, when sent, is a string.
   */
  predicate StoreAccepts(p: Payload, cardIds: set<int>)
  {
    && IdField(p, "card_id", cardIds)
    && FilledString(p, "taskName")
    && "description" in p && Filled(p["description"])
    && DateField(p, "startDate")
    && DateField(p, "endDate")
    && FilledString(p, "allocator")
    && ("employee" in p ==> p["employee"].Str?)
    && FilledString(p, "priority")
    && IntegerField(p, "progress")
  }

  /**
   * What the tasks table further demands of an accepted payload: a string
   * description, an employee, and the column lengths.
   */
  predicate StoreFits(p: Payload)
  {
    && Get(p, "description").Str?
    && Get(p, "employee").Str? && |Get(p, "employee").s| <= 75
    && Get(p, "taskName").Str? && |Get(p, "taskName").s| <= 255
    && Get(p, "allocator").Str? && |Get(p, "allocator").s| <= 50
    && Get(p, "priority").Str? && |Get(p, "priority").s| <= 25
  }

  /**
   * A 422 from `store` names exactly the fields whose condition in
   * `StoreAccepts` fails, and no field outside the rules.
   */
  predicate StoreReport(fields: set<string>, p: Payload, cardIds: set<int>)
  {
    && ("card_id" in fields <==> !IdField(p, "card_id", cardIds))
    && ("taskName" in fields <==> !FilledString(p, "taskName"))
    && ("description" in fields <==> !("description" in p && Filled(p["description"])))
    && ("startDate" in fields <==> !DateField(p, "startDate"))
    && ("endDate" in fields <==> !DateField(p, "endDate"))
    && ("allocator" in fields <==> !FilledString(p, "allocator"))
    && ("employee" in fields <==> "employee" in p && !p["employee"].Str?)
    && ("priority" in fields <==> !FilledString(p, "priority"))
    && ("progress" in fields <==> !IntegerField(p, "progress"))
    && fields <= StoreFields
  }

  /** An `endDate` sent to `update` is null, blank, or a date no earlier than today. */
  predicate EndDateAccepted(p: Payload, today: int)
  {
    "endDate" in p ==>
      p["endDate"].Null? || (p["endDate"].Str? && IsBlank(p["endDate"].s)) ||
      (p["endDate"].Date? && p["endDate"].day >= today)
  }

  /** What `update` accepts: task name, description and priority every time, and an acceptable end date. */
  predicate UpdateAccepts(p: Payload, today: int)
  {
    FilledString(p, "taskName") && FilledString(p, "description") && FilledString(p, "priority") && EndDateAccepted(p, today)
  }

  /** The fields `update` reports, each failing exactly when its condition in `UpdateAccepts` does not hold. */
  function UpdateFailures(p: Payload, today: int): set<string>
  {
    (if FilledString(p, "taskName") then {} else {"taskName"})
    + (if FilledString(p, "description") then {} else {"description"})
    + (if FilledString(p, "priority") then {} else {"priority"})
    + (if EndDateAccepted(p, today) then {} else {"endDate"})
  }

  lemma StoreRulesMeaning(p: Payload, cardIds: set<int>)
    ensures "card_id" in Errors(p, StoreRules(cardIds)) <==> !IdField(p, "card_id", cardIds)
    ensures "progress" in Errors(p, StoreRules(cardIds)) <==> !IntegerField(p, "progress")
    ensures "employee" !in p ==> "employee" !in Errors(p, StoreRules(cardIds))
    ensures Errors(p, StoreRules(cardIds)) == {} <==> StoreAccepts(p, cardIds)
  {
    var rs := StoreRules(cardIds);
    RequiredIntegerExistsMeaning(p, "card_id", cardIds);
    RequiredStringMeaning(p, "taskName");
    RequiredMeaning(p, "description");
    RequiredDateMeaning(p, "startDate");
    RequiredDateMeaning(p, "endDate");
    RequiredStringMeaning(p, "allocator");
    SometimesStringMeaning(p, "employee");
    RequiredStringMeaning(p, "priority");
    RequiredIntegerMeaning(p, "progress");
    if StoreAccepts(p, cardIds) {
      assert forall f :: f in rs ==> FieldPasses(p, f, rs[f]);
      assert Errors(p, rs) == {};
    } else if !IdField(p, "card_id", cardIds) {
      FailingFieldReported(p, rs, "card_id");
    } else if !FilledString(p, "taskName") {
      FailingFieldReported(p, rs, "taskName");
    } else if !("description" in p && Filled(p["description"])) {
      FailingFieldReported(p, rs, "description");
    } else if !DateField(p, "startDate") {
      FailingFieldReported(p, rs, "startDate");
    } else if !DateField(p, "endDate") {
      FailingFieldReported(p, rs, "endDate");
    } else if !FilledString(p, "allocator") {
      FailingFieldReported(p, rs, "allocator");
    } else if !("employee" in p ==> p["employee"].Str?) {
      FailingFieldReported(p, rs, "employee");
    } else if !FilledString(p, "priority") {
      FailingFieldReported(p, rs, "priority");
    } else {
      FailingFieldReported(p, rs, "progress");
    }
  }

  /** `store` reports exactly the fields whose condition in `StoreAccepts` fails, and no other. */
  lemma StoreErrors(p: Payload, cardIds: set<int>)
    ensures StoreReport(Errors(p, StoreRules(cardIds)), p, cardIds)
  {
    var rs := StoreRules(cardIds);
    var errs := Errors(p, rs);
    assert ("card_id" in errs) == !IdField(p, "card_id", cardIds) by {
      RequiredIntegerExistsMeaning(p, "card_id", cardIds);
    }
    assert ("taskName" in errs) == !FilledString(p, "taskName") by {
      RequiredStringMeaning(p, "taskName");
    }
    assert ("description" in errs) == !("description" in p && Filled(p["description"])) by {
      RequiredMeaning(p, "description");
    }
    assert ("startDate" in errs) == !DateField(p, "startDate") by {
      RequiredDateMeaning(p, "startDate");
    }
    assert ("endDate" in errs) == !DateField(p, "endDate") by {
      RequiredDateMeaning(p, "endDate");
    }
    assert ("allocator" in errs) == !FilledString(p, "allocator") by {
      RequiredStringMeaning(p, "allocator");
    }
    assert ("employee" in errs) == ("employee" in p && !p["employee"].Str?) by {
      SometimesStringMeaning(p, "employee");
    }
    assert ("priority" in errs) == !FilledString(p, "priority") by {
      RequiredStringMeaning(p, "priority");
    }
    assert ("progress" in errs) == !IntegerField(p, "progress") by {
      RequiredIntegerMeaning(p, "progress");
    }
    assert rs.Keys == StoreFields;
  }

  lemma UpdateRulesMeaning(p: Payload, today: int)
    ensures "endDate" in Errors(p, UpdateRules(today)) <==> !EndDateAccepted(p, today)
    ensures Errors(p, UpdateRules(today)) == {} <==> UpdateAccepts(p, today)
  {
    var rs := UpdateRules(today);
    RequiredStringMeaning(p, "taskName");
    RequiredStringMeaning(p, "description");
    RequiredStringMeaning(p, "priority");
    NullableDateAfterMeaning(p, "endDate", today);
    if UpdateAccepts(p, today) {
      assert forall f :: f in rs ==> FieldPasses(p, f, rs[f]);
      assert Errors(p, rs) == {};
    } else if !FilledString(p, "taskName") {
      FailingFieldReported(p, rs, "taskName");
    } else if !FilledString(p, "description") {
      FailingFieldReported(p, rs, "description");
    } else if !FilledString(p, "priority") {
      FailingFieldReported(p, rs, "priority");
    } else {
      FailingFieldReported(p, rs, "endDate");
    }
  }

  /** `update` reports exactly the fields whose condition fails. */
  lemma UpdateErrors(p: Payload, today: int)
    ensures Errors(p, UpdateRules(today)) == UpdateFailures(p, today)
  {
    var rs := UpdateRules(today);
    var errs := Errors(p, rs);
    RequiredStringMeaning(p, "taskName");
    RequiredStringMeaning(p, "description");
    RequiredStringMeaning(p, "priority");
    NullableDateAfterMeaning(p, "endDate", today);
    assert "taskName" in errs <==> !FieldPasses(p, "taskName", rs["taskName"]);
    assert "description" in errs <==> !FieldPasses(p, "description", rs["description"]);
    assert "priority" in errs <==> !FieldPasses(p, "priority", rs["priority"]);
    assert "endDate" in errs <==> !FieldPasses(p, "endDate", rs["endDate"]);
    assert errs <= rs.Keys;
  }

  lemma MoveRulesMeaning(p: Payload)
    ensures Errors(p, MoveRules) == {} <==> IntegerField(p, "card_id")
    ensures Errors(p, MoveRules) != {} ==> Errors(p, MoveRules) == {"card_id"}
  {
    RequiredIntegerMeaning(p, "card_id");
    if IntegerField(p, "card_id") {
      assert "card_id" !in Errors(p, MoveRules);
      assert Errors(p, MoveRules) == {};
    } else {
      FailingFieldReported(p, MoveRules, "card_id");
    }
  }

  /** `index`: every task, whatever card it is on. */
  function Index(db: Db): (r: Response)
    ensures r.Ok? && r.status == StatusOk && r.body.Listing? && r.body.rows == db.tasks
  {
    Ok(StatusOk, Listing(db.tasks))
  }

  /** `show`: the task, or 404 from `findOrFail`. */
  function Show(db: Db, id: int): (r: Response)
    ensures r.NotFound? <==> id !in db.tasks
    ensures id in db.tasks ==> r.Ok?
    ensures r.Ok? ==> r.status == StatusOk && r.body == Record(id, db.tasks[id])
  {
    if id in db.tasks then Ok(StatusOk, Record(id, db.tasks[id])) else NotFound
  }

  /**
   * `store`: validate, then insert the filled payload under the next id. The
   * write fails when the row does not fit the tasks table; in particular the
   * rules let `employee` be left out, but its column is not nullable.
   */
  function StoreOutcome(db: Db, p: Payload): (out: Outcome)
    ensures out.response.Invalid? || out.response.Crash? || out.response.Ok?
    ensures out.response.Invalid? <==> !StoreAccepts(p, db.cards.Keys)
    ensures out.response.Invalid? ==> StoreReport(out.response.fields, p, db.cards.Keys)
    ensures out.response.Crash? <==> StoreAccepts(p, db.cards.Keys) && !StoreFits(p)
    ensures StoreAccepts(p, db.cards.Keys) && "employee" !in p ==> out.response.Crash?
    ensures !out.response.Ok? ==> out.db == db
    ensures out.response.Ok? ==>
      && out.response.status == StatusCreated
      && out.response.body.Record?
      && out.response.body.id == db.nextTaskId
      && out.db == db.(tasks := db.tasks[db.nextTaskId := out.response.body.row], nextTaskId := db.nextTaskId + 1)
      && out.response.body.row == Models.Fill(p, Models.TaskFillable)
      && References(out.response.body.row, "card_id", db.cards.Keys)
    ensures Consistent(db) && out.response.Ok? ==> db.nextTaskId !in db.tasks
    ensures Consistent(db) ==> Consistent(out.db)
  {
    var errs := Errors(p, StoreRules(db.cards.Keys));
    if errs != {} then
      assert !StoreAccepts(p, db.cards.Keys) by { StoreRulesMeaning(p, db.cards.Keys); }
      assert StoreReport(errs, p, db.cards.Keys) by { StoreErrors(p, db.cards.Keys); }
      Outcome(db, Invalid(errs))
    else
      assert StoreAccepts(p, db.cards.Keys) by { StoreRulesMeaning(p, db.cards.Keys); }
      var row := Models.Fill(p, Models.TaskFillable);
      assert forall k :: k in Models.TaskFillable ==> Get(row, k) == Get(p, k);
      TaskColumnsMeaning(row);
      if !TaskWritable(row, db.cards.Keys) then Outcome(db, Crash)
      else
        var id := db.nextTaskId;
        Outcome(db.(tasks := db.tasks[id := row], nextTaskId := id + 1), Ok(StatusCreated, Record(id, row)))
  }

  /**
   * `update`: validate first, then look the task up with `find`, so that an
   * absent task fails on the call to `update` rather than giving 404; then
   * write every fillable key of the payload, which the table may reject.
   */
  function UpdateOutcome(db: Db, id: int, p: Payload, today: int): (out: Outcome)
    ensures !out.response.NotFound?
    ensures out.response.Invalid? <==> !UpdateAccepts(p, today)
    ensures out.response.Invalid? ==> out.response.fields == UpdateFailures(p, today)
    ensures UpdateAccepts(p, today) && id !in db.tasks ==> out.response.Crash?
    ensures UpdateAccepts(p, today) && "endDate" in p && p["endDate"].Null? ==> out.response.Crash?
    ensures Consistent(db) ==>
      (out.response.Crash? <==>
        UpdateAccepts(p, today) &&
        (id !in db.tasks || !SentFits(p, TaskColumns) || ("card_id" in p && !References(p, "card_id", db.cards.Keys))))
    ensures !out.response.Ok? ==> out.db == db
    ensures out.response.Ok? ==>
      && id in db.tasks
      && out.response == Ok(StatusOk, Message(TaskUpdated))
      && out.db == db.(tasks := db.tasks[id := Models.Assign(db.tasks[id], p, Models.TaskFillable)])
      && References(out.db.tasks[id], "card_id", db.cards.Keys)
    ensures Consistent(db) ==> Consistent(out.db)
  {
    var errs := Errors(p, UpdateRules(today));
    if errs != {} then
      assert !UpdateAccepts(p, today) by { UpdateRulesMeaning(p, today); }
      assert errs == UpdateFailures(p, today) by { UpdateErrors(p, today); }
      Outcome(db, Invalid(errs))
    else
      assert UpdateAccepts(p, today) by { UpdateRulesMeaning(p, today); }
      if id !in db.tasks then Outcome(db, Crash)
      else
      var row := Models.Assign(db.tasks[id], p, Models.TaskFillable);
      AssignedTaskWritable(db, id, p);
      if !TaskWritable(row, db.cards.Keys) then Outcome(db, Crash)
      else Outcome(db.(tasks := db.tasks[id := row]), Ok(StatusOk, Message(TaskUpdated)))
  }

  /**
   * `updateId`: only check that `card_id` is an integer, look the task up
   * with `find`, then write every fillable key of the payload. A card id that
   * names no card gets past validation and is rejected by the foreign key.
   */
  function UpdateIdOutcome(db: Db, id: int, p: Payload): (out: Outcome)
    ensures !out.response.NotFound?
    ensures out.response.Invalid? <==> !IntegerField(p, "card_id")
    ensures out.response.Invalid? ==> out.response.fields == {"card_id"}
    ensures IntegerField(p, "card_id") && id !in db.tasks ==> out.response.Crash?
    ensures IntegerField(p, "card_id") && p["card_id"].n !in db.cards ==> out.response.Crash?
    ensures Consistent(db) ==>
      (out.response.Crash? <==>
        IntegerField(p, "card_id") &&
        (id !in db.tasks || !SentFits(p, TaskColumns) || p["card_id"].n !in db.cards))
    ensures !out.response.Ok? ==> out.db == db
    ensures out.response.Ok? ==>
      && id in db.tasks
      && out.response == Ok(StatusOk, Message(TaskUpdated))
      && out.db == db.(tasks := db.tasks[id := Models.Assign(db.tasks[id], p, Models.TaskFillable)])
      && out.db.tasks[id]["card_id"] == p["card_id"]
      && References(out.db.tasks[id], "card_id", db.cards.Keys)
    ensures Consistent(db) ==> Consistent(out.db)
  {
    MoveRulesMeaning(p);
    var errs := Errors(p, MoveRules);
    if errs != {} then Outcome(db, Invalid(errs))
    else if id !in db.tasks then Outcome(db, Crash)
    else
      var row := Models.Assign(db.tasks[id], p, Models.TaskFillable);
      assert Get(row, "card_id") == p["card_id"];
      TaskColumnsMeaning(row);
      AssignedTaskWritable(db, id, p);
      if !TaskWritable(row, db.cards.Keys) then Outcome(db, Crash)
      else Outcome(db.(tasks := db.tasks[id := row]), Ok(StatusOk, Message(TaskUpdated)))
  }

  /**
   * In a consistent store, the tasks table takes a stored task updated with
   * the payload exactly when every column value sent fits its column and a
   * `card_id`, if sent, names an existing card.
   */
  lemma AssignedTaskWritable(db: Db, id: int, p: Payload)
    requires id in db.tasks
    ensures "endDate" in p && p["endDate"].Null? ==>
      !TaskWritable(Models.Assign(db.tasks[id], p, Models.TaskFillable), db.cards.Keys)
    ensures Consistent(db) ==>
      (TaskWritable(Models.Assign(db.tasks[id], p, Models.TaskFillable), db.cards.Keys) <==>
        SentFits(p, TaskColumns) && ("card_id" in p ==> References(p, "card_id", db.cards.Keys)))
  {
    var row' := Models.Assign(db.tasks[id], p, Models.TaskFillable);
    if "endDate" in p && p["endDate"].Null? {
      assert Get(row', "endDate") == Null;
      TaskColumnsMeaning(row');
    }
    if Consistent(db) {
      assert forall i :: 0 <= i < |TaskColumns| ==> TaskColumns[i].name in Models.TaskFillable;
      AssignFits(db.tasks[id], p, Models.TaskFillable, TaskColumns);
      assert Get(row', "card_id") == Get(if "card_id" in p then p else db.tasks[id], "card_id");
    }
  }

  /** The classification `daysLeft` reports: time is left only while the day count is positive. */
  function Detail(remainingDays: int): (d: string)
    ensures d == TimeLeft || d == Finished
    ensures d == TimeLeft <==> remainingDays > 0
  {
    if remainingDays > 0 then TimeLeft else Finished
  }

  /**
   * `daysLeft`: the signed number of days from `today` to the task's end
   * date. The task is looked up with `find`, so an absent task fails when its
   * end date is read.
   */
  function DaysLeft(db: Db, id: int, today: int): (r: Response)
    ensures id !in db.tasks ==> r.Crash?
    ensures Consistent(db) && id in db.tasks ==> r.Ok?
    ensures r.Ok? ==>
      && id in db.tasks
      && r.status == StatusOk
      && r.body.Remaining?
      && r.body.id == id
      && r.body.taskName == Get(db.tasks[id], "taskName")
      && r.body.endDate == Get(db.tasks[id], "endDate")
      && r.body.endDate.Date?
      && today + r.body.remainingDays == r.body.endDate.day
      && (r.body.detail == TimeLeft <==> r.body.endDate.day > today)
      && (r.body.detail == Finished <==> r.body.endDate.day <= today)
  {
    if id !in db.tasks then Crash
    else
      var row := db.tasks[id];
      TaskColumnsMeaning(row);
      match Get(row, "endDate")
      case Date(day) =>
        var remaining := day - today;
        Ok(StatusOk, Remaining(id, Get(row, "taskName"), Date(day), remaining, Detail(remaining)))
      case _ => Crash
  }

  /** `destroy`: 404 if absent, otherwise delete exactly that task. */
  function DestroyOutcome(db: Db, id: int): (out: Outcome)
    ensures out.response.NotFound? <==> id !in db.tasks
    ensures id in db.tasks ==> out.response.Ok?
    ensures out.response.NotFound? ==> out.db == db
    ensures out.response.Ok? ==>
      && out.response == Ok(StatusNoContent, NoContent)
      && out.db.tasks.Keys == db.tasks.Keys - {id}
      && (forall t :: t in out.db.tasks ==> out.db.tasks[t] == db.tasks[t])
      && out.db == db.(tasks := out.db.tasks)
    ensures Consistent(db) ==> Consistent(out.db)
  {
    if id !in db.tasks then Outcome(db, NotFound)
    else Outcome(db.(tasks := db.tasks - {id}), Ok(StatusNoContent, NoContent))
  }

  method Store(db: Database, p: Payload) returns (r: Response)
    requires db.Valid()
    modifies db
    ensures Outcome(db.Snapshot(), r) == StoreOutcome(old(db.Snapshot()), p)
    ensures db.Valid()
  {
    var errs := Errors(p, StoreRules(db.cards.Keys));
    if errs != {} {
      return Invalid(errs);
    }
    var row := Models.Fill(p, Models.TaskFillable);
    if !TaskWritable(row, db.cards.Keys) {
      return Crash;
    }
    var id := db.nextTaskId;
    db.tasks := db.tasks[id := row];
    db.nextTaskId := id + 1;
    r := Ok(StatusCreated, Record(id, row));
  }

  method Update(db: Database, id: int, p: Payload, today: int) returns (r: Response)
    requires db.Valid()
    modifies db
    ensures Outcome(db.Snapshot(), r) == UpdateOutcome(old(db.Snapshot()), id, p, today)
    ensures db.Valid()
  {
    var errs := Errors(p, UpdateRules(today));
    if errs != {} {
      return Invalid(errs);
    }
    if id !in db.tasks {
      return Crash;
    }
    var row := Models.Assign(db.tasks[id], p, Models.TaskFillable);
    if !TaskWritable(row, db.cards.Keys) {
      return Crash;
    }
    db.tasks := db.tasks[id := row];
    r := Ok(StatusOk, Message(TaskUpdated));
  }

  method UpdateId(db: Database, id: int, p: Payload) returns (r: Response)
    requires db.Valid()
    modifies db
    ensures Outcome(db.Snapshot(), r) == UpdateIdOutcome(old(db.Snapshot()), id, p)
    ensures db.Valid()
  {
    var errs := Errors(p, MoveRules);
    if errs != {} {
      return Invalid(errs);
    }
    if id !in db.tasks {
      return Crash;
    }
    var row := Models.Assign(db.tasks[id], p, Models.TaskFillable);
    if !TaskWritable(row, db.cards.Keys) {
      return Crash;
    }
    db.tasks := db.tasks[id := row];
    r := Ok(StatusOk, Message(TaskUpdated));
  }

  method Destroy(db: Database, id: int) returns (r: Response)
    requires db.Valid()
    modifies db
    ensures Outcome(db.Snapshot(), r) == DestroyOutcome(old(db.Snapshot()), id)
    ensures db.Valid()
  {
    if id !in db.tasks {
      return NotFound;
    }
    db.tasks := db.tasks - {id};
    r := Ok(StatusNoContent, NoContent);
  }
}

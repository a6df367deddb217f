# Kanban backend: boards, cards and tasks

This project models the JSON API of a Laravel Kanban backend. A board holds
cards, and a card holds tasks. Each of the three controllers validates a request
payload, then reads or writes its table through an Eloquent model. The model
covers:

- **Validation** as Laravel runs it. A rule set maps each field to its rules
  (`required`, `sometimes`, `nullable`, `string`, `integer`, `date`, `max`,
  `exists`, `after_or_equal`). The implicit `required` rule is the only one
  that looks at an absent field or a blank string, and `sometimes` skips
  absent keys. The result is the set of fields that fail. For every rule set
  a controller uses, a lemma turns "no field fails" into a plain predicate
  on the payload.
- **Mass assignment.** `$fillable` drops unknown keys, and a new board starts
  from `Board::$attributes` (`numCards` is 0). `update` overwrites only the
  fillable keys that are sent.
- **The cards and tasks migrations.** Each column has a type, a length and
  nullability. Foreign keys run card → board and task → card, and deletes
  cascade along them. A write the table refuses is a failure (500) that
  leaves the database unchanged. A consistency invariant (`Schema.Consistent`)
  holds after every action:
  - ids are positive and below the next id;
  - rows hold only fillable attributes and fit their columns;
  - every card's board exists, and every task's card exists.
- **Every controller action** as a function from the database and the request
  to the new database and the response (`…Outcome`). An imperative method on
  the mutable `Persistence.Database` class is proved to do exactly what that
  function says, and to keep the invariant.

The code's behaviour is modelled as written, including its sharp edges:

- Task `update`, `updateId` and `daysLeft` look the task up with `find`, so an
  unknown id fails with a 500 rather than a 404.
- Task `store` accepts a payload without `employee` (`sometimes|string`), but the
  column is `NOT NULL`, so the insert fails.
- Task `update` accepts `endDate: null` (`nullable`), which the `NOT NULL`
  column then refuses.
- `updateId` checks only that `card_id` is an integer, so an unknown card is
  refused by the foreign key (500), not by validation.
- A card under an unknown board is refused with 422 by `exists:boards,id`.
  The `{boardId}` in the card routes plays no part: `index` lists all cards,
  and `store` takes the board from the payload.
- `daysLeft` reports "Queda tiempo" only while the signed day count is
  positive. A task due today, or earlier, is "La tarea ya termino".

`Scenario` runs one story through the model: an empty database, then a
board, a card and a task, then `daysLeft`, then deleting the board.

## Model

| member | source | states |
|---|---|---|
| Models.Fill | kanban-backend/app/Models/Task.php:10-20 | mass assignment keeps exactly the payload's keys that are fillable, with their values |
| Models.FillIdempotent | kanban-backend/app/Models/Task.php:10-20 | filling a filled payload again changes nothing |
| Models.NewBoard | kanban-backend/app/Models/Board.php:14-21 | a new board has the fillable keys sent plus `numCards`, which is 0 unless sent; the name is the one sent |
| Models.Assign | kanban-backend/app/Http/Controllers/BoardController.php:169 | `update` writes every fillable key sent, keeps every other attribute, and adds no other key |
| Schema.CardOf | kanban-backend/app/Models/Task.php:22-25 | a task's card is found exactly when its `card_id` names an existing card, which referential integrity guarantees |
| Schema.CardsOf | kanban-backend/app/Models/Board.php:23-26 | a board's cards are exactly the stored cards whose `board_id` is the board's id |
| Schema.DeleteCard | kanban-backend/database/migrations/2025_10_05_002204_create_tasks_table.php:25 | deleting a card deletes exactly its tasks through the cascading key, leaves every other row, the boards and the id counters unchanged, and keeps the invariant |
| Schema.DeleteBoard | kanban-backend/database/migrations/2024_01_01_000001_create_cards_table.php:15 | deleting a board deletes exactly its cards and their tasks, leaves every other row and the id counters unchanged, and keeps the invariant |
| Schema.DeleteBoardRemovesDescendants | kanban-backend/database/migrations/2024_01_01_000001_create_cards_table.php:15 | a board with N cards holding M tasks loses exactly 1 + N + M rows, and none of the removed ids is still there |
| Schema.TaskColumnsMeaning | kanban-backend/database/migrations/2025_10_05_002204_create_tasks_table.php:16-25 | the tasks table takes a row exactly when each column's type, length and NOT NULL hold |
| Schema.CardColumnsMeaning | kanban-backend/database/migrations/2024_01_01_000001_create_cards_table.php:13-15 | the cards table takes a row exactly when the title is a string of at most 255 characters, the description is null or text, and `board_id` is an integer |
| Schema.AssignFits | kanban-backend/app/Http/Controllers/TaskController.php:237-238 | updating a row that fits its table gives a row that fits exactly when every column value sent fits its column |
| Schema.StoredTaskColumns | kanban-backend/database/migrations/2025_10_05_002204_create_tasks_table.php:16-25 | every stored task has its column values and an existing card |
| Schema.StoredCardColumns | kanban-backend/database/migrations/2024_01_01_000001_create_cards_table.php:13-15 | every stored card has a title, a null-or-text description and an existing board |
| Persistence.Database.constructor | kanban-backend/database/migrations/2024_01_01_000001_create_cards_table.php:9-18 | a freshly migrated database is empty, hands out id 1 first and is consistent |
| BoardController.StoreRulesMeaning | kanban-backend/app/Http/Controllers/BoardController.php:89-92 | `name` fails exactly when it is not a filled string of at most 255 characters, `numCards` exactly when it is not an integer; no error exactly when both hold |
| BoardController.UpdateRulesMeaning | kanban-backend/app/Http/Controllers/BoardController.php:164-166 | update passes exactly when a name, if sent, is a filled string of at most 255 characters; otherwise only `name` is reported |
| BoardController.Index | kanban-backend/app/Http/Controllers/BoardController.php:56-59 | every board is listed, with status 200 |
| BoardController.Show | kanban-backend/app/Http/Controllers/BoardController.php:122-126 | 404 exactly when the id is absent, otherwise the stored board with 200 |
| BoardController.StoreOutcome | kanban-backend/app/Http/Controllers/BoardController.php:87-97 | 422 exactly when the rules fail, naming each failing field and no field outside the rules, with no change; otherwise 201 with the next id and a row of exactly the name and `numCards` sent; the invariant is kept |
| BoardController.UpdateOutcome | kanban-backend/app/Http/Controllers/BoardController.php:162-172 | 422 exactly when a sent name is bad, naming only `name`; then 404 exactly when the board is absent, both without change; otherwise 200 with the row updated in place: sent fillable keys written, others kept; the invariant is kept |
| BoardController.DestroyOutcome | kanban-backend/app/Http/Controllers/BoardController.php:196-202 | 404 exactly when absent; otherwise 204 and the cascading delete of the board, its cards and their tasks; the invariant is kept |
| BoardController.StoreThenShow | kanban-backend/app/Http/Controllers/BoardController.php:87-126 | a board that passes validation is created, and `show` under its new id returns the same record |
| BoardController.DestroyThenGone | kanban-backend/app/Http/Controllers/BoardController.php:196-202 | after deleting a board, neither it nor any of its cards or their tasks remains |
| BoardController.Store | kanban-backend/app/Http/Controllers/BoardController.php:87-97 | the in-place insert has exactly the outcome `StoreOutcome` specifies and keeps the database consistent |
| BoardController.Update | kanban-backend/app/Http/Controllers/BoardController.php:162-172 | the in-place update has exactly the outcome `UpdateOutcome` specifies and keeps the database consistent |
| BoardController.Destroy | kanban-backend/app/Http/Controllers/BoardController.php:196-202 | the in-place cascading delete has exactly the outcome `DestroyOutcome` specifies and keeps the database consistent |
| CardController.StoreRulesMeaning | kanban-backend/app/Http/Controllers/CardController.php:17-20 | `title` fails exactly when it is not a filled string of at most 255 characters, `board_id` exactly when it is not an existing board's id; no error exactly when both hold |
| CardController.UpdateRulesMeaning | kanban-backend/app/Http/Controllers/CardController.php:35-38 | each of `title` and `board_id` fails exactly when it is sent and bad; no error exactly when neither fails |
| CardController.Index | kanban-backend/app/Http/Controllers/CardController.php:10-13 | every card is listed, including cards of boards other than the one in the route |
| CardController.Show | kanban-backend/app/Http/Controllers/CardController.php:27-31 | 404 exactly when the id is absent, otherwise the stored card with 200 |
| CardController.StoreOutcome | kanban-backend/app/Http/Controllers/CardController.php:15-25 | 422 exactly when the rules fail (an unknown board included), naming each failing field and no other; 500 exactly when the description is neither null nor text; otherwise 201 with the next id and the filled payload, whose board exists; the invariant is kept |
| CardController.UpdateOutcome | kanban-backend/app/Http/Controllers/CardController.php:33-44 | 422 exactly when a sent field is bad, naming each such field and no other; then 404 exactly when the card is absent; in a consistent database, 500 exactly when a sent description does not fit; otherwise 200 with the sent fillable keys written and the board still existing; the invariant is kept |
| CardController.DestroyOutcome | kanban-backend/app/Http/Controllers/CardController.php:46-52 | 404 exactly when absent; otherwise 204 and the cascading delete of the card and its tasks; the invariant is kept |
| CardController.Store | kanban-backend/app/Http/Controllers/CardController.php:15-25 | the in-place insert has exactly the outcome `StoreOutcome` specifies and keeps the database consistent |
| CardController.Update | kanban-backend/app/Http/Controllers/CardController.php:33-44 | the in-place update has exactly the outcome `UpdateOutcome` specifies and keeps the database consistent |
| CardController.Destroy | kanban-backend/app/Http/Controllers/CardController.php:46-52 | the in-place cascading delete has exactly the outcome `DestroyOutcome` specifies and keeps the database consistent |
| TaskController.StoreRulesMeaning | kanban-backend/app/Http/Controllers/TaskController.php:171-182 | no error exactly when the card exists, the required fields are filled, both dates are dates, progress is an integer, and an employee, if sent, is a string; an absent employee is never reported |
| TaskController.StoreErrors | kanban-backend/app/Http/Controllers/TaskController.php:171-185 | the 422 from `store` names each of the nine fields exactly when that field's condition fails, and no field outside the rules |
| TaskController.UpdateRulesMeaning | kanban-backend/app/Http/Controllers/TaskController.php:228-233 | no error exactly when task name, description and priority are filled strings, and the end date is absent, null, blank or no earlier than today |
| TaskController.UpdateErrors | kanban-backend/app/Http/Controllers/TaskController.php:228-236 | the 422 from `update` names exactly the fields among task name, description, priority and end date whose condition fails |
| TaskController.MoveRulesMeaning | kanban-backend/app/Http/Controllers/TaskController.php:280-282 | no error exactly when `card_id` is an integer, and otherwise only `card_id` is reported; whether the card exists is not checked |
| TaskController.Index | kanban-backend/app/Http/Controllers/TaskController.php:103-106 | every task is listed, with status 200 |
| TaskController.Show | kanban-backend/app/Http/Controllers/TaskController.php:131-135 | 404 exactly when the id is absent, otherwise the stored task with 200 |
| TaskController.StoreOutcome | kanban-backend/app/Http/Controllers/TaskController.php:169-188 | 422 exactly when the rules fail, naming each of the nine fields exactly when its condition fails and no other, with no change; 500 exactly when an accepted payload does not fit the table, in particular whenever `employee` is missing; otherwise 201 with the next id and the filled payload, whose card exists; the invariant is kept |
| TaskController.UpdateOutcome | kanban-backend/app/Http/Controllers/TaskController.php:226-240 | never 404; 422 exactly when the rules fail, naming exactly the failing fields among task name, description, priority and end date; in a consistent database, 500 exactly when the task is absent, a column value sent does not fit (a null end date, say) or a `card_id` sent names no card; otherwise 200 with "Task updated successfully" and the sent fillable keys written; the invariant is kept |
| TaskController.UpdateIdOutcome | kanban-backend/app/Http/Controllers/TaskController.php:278-289 | never 404; 422 exactly when `card_id` is not an integer, naming only `card_id`; in a consistent database, 500 exactly when the task is absent, a column value sent does not fit or the card does not exist; otherwise 200 with the task moved to the card sent; the invariant is kept |
| TaskController.AssignedTaskWritable | kanban-backend/app/Http/Controllers/TaskController.php:237-238 | in a consistent database, a stored task updated with a payload can be written exactly when every column value sent fits and a `card_id` sent names an existing card |
| TaskController.Detail | kanban-backend/app/Http/Controllers/TaskController.php:332 | "Queda tiempo" exactly when the day count is positive, otherwise "La tarea ya termino" |
| TaskController.DaysLeft | kanban-backend/app/Http/Controllers/TaskController.php:321-333 | 500 when the task is absent; in a consistent database, 200 for a stored task, with its name, its end date, end date minus today as the signed day count, and the detail that goes with the count's sign |
| TaskController.DestroyOutcome | kanban-backend/app/Http/Controllers/TaskController.php:357-363 | 404 exactly when absent; otherwise 204 with exactly that task removed and every other row unchanged; the invariant is kept |
| TaskController.Store | kanban-backend/app/Http/Controllers/TaskController.php:169-188 | the in-place insert has exactly the outcome `StoreOutcome` specifies and keeps the database consistent |
| TaskController.Update | kanban-backend/app/Http/Controllers/TaskController.php:226-240 | the in-place update has exactly the outcome `UpdateOutcome` specifies and keeps the database consistent |
| TaskController.UpdateId | kanban-backend/app/Http/Controllers/TaskController.php:278-289 | the in-place move has exactly the outcome `UpdateIdOutcome` specifies and keeps the database consistent |
| TaskController.Destroy | kanban-backend/app/Http/Controllers/TaskController.php:357-363 | the in-place delete has exactly the outcome `DestroyOutcome` specifies and keeps the database consistent |
| Scenario.BoardStep | kanban-backend/app/Http/Controllers/BoardController.php:87-97 | in an empty database, board "Sprint 1" is created with id 1 |
| Scenario.CardStep | kanban-backend/app/Http/Controllers/CardController.php:15-25 | card "To Do" on board 1 is created with id 1 |
| Scenario.TaskStep | kanban-backend/app/Http/Controllers/TaskController.php:169-188 | a task on card 1 that ends tomorrow is created with id 1 |
| Scenario.DaysLeftStep | kanban-backend/app/Http/Controllers/TaskController.php:321-333 | that task has 1 day left and "Queda tiempo" |
| Scenario.DeleteStep | kanban-backend/app/Http/Controllers/BoardController.php:196-202 | deleting board 1 answers 204, after which card 1 and task 1 are both 404 |
| Scenario.CreateBoardCardTaskThenDeleteBoard | kanban-backend/app/Http/Controllers/BoardController.php:87-97 | the five steps above, chained through the database each one leaves |

## Left out

- HTTP routing, middleware, authentication and CORS are left out. Each action is called directly with its route parameters and its decoded body.
- The board and card actions validate with `$request->validate`, so a request that does not ask for JSON gets a redirect back from a failed validation instead of a 422. Only the JSON answer (422 with the failing fields) is modelled. The task actions always answer 422 with JSON, as modelled. Error messages are not modelled.
- `TrimStrings` and `ConvertEmptyStringsToNull` are left out. Blank strings reach the validator as sent, and the validator treats them as empty, as it does without that middleware.
- Request values are null, strings, integers and dates only. JSON booleans, floats, arrays and objects are left out, and so are the rules' treatment of them (`integer` accepting `true`, `required` refusing an empty array).
- A date arrives in JSON as a string. The model encodes a value as `Date` exactly where the field expects a date (`startDate`, `endDate`) and as a string elsewhere. A date-shaped string sent to a `string` rule or a text column, which Laravel and the database would take as a string, is therefore not modelled.
- The `integer`, `date` and `exists` rules accept only values of their own kind. The numeric strings and date strings that Laravel would also accept are not modelled.
- Column typing is strict. A text column takes only a string, and a write the database engine would coerce instead counts as a refused write (500).
- The boards migration is not part of this model. The board table's own column constraints are therefore not known, and `numCards` is stored as sent by `update`.
- Card.php is not part of this model. The card's fillable attributes are taken to be the columns of the cards migration.
- The `onUpdate('cascade')` on `card_id` is left out. No action changes a card's id, so it never fires.
- The card move route names a `CardController::updateId` method that CardController does not define. It is left out.
- Timestamps, time zones and time of day are left out. Dates are whole day numbers, and "today" is a parameter. `daysLeft` counts calendar days between two days.
- Listings are maps from id to row. The order in which `all()` returns rows is not modelled.
- Ids come from a per-table counter that only grows. The gaps an engine's auto-increment can leave (after a refused insert, say) are not modelled.
- Transactions and concurrent requests are left out: each action runs alone, to completion.
- The seeder is left out.
- The update actions' exact 500 conditions are stated for a consistent database, which every action keeps, and not for arbitrary tables.

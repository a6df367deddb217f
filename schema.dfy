/**
 * The three tables, the column constraints the cards and tasks migrations
 * declare, their cascading foreign keys, and the invariant every action keeps.
 */
module Schema {
  import opened Values
  import Models

  datatype Option<T> = None | Some(value: T)

  datatype ColumnType = VarChar(length: nat) | Text | DateTime | Integer | ForeignId

  datatype Column = Column(name: string, kind: ColumnType, nullable: bool)

  /** The tasks table, apart from its id and timestamps. */
  const TaskColumns: seq<Column> := [
    Column("taskName", VarChar(255), false),
    Column("description", Text, false),
    Column("startDate", DateTime, false),
    Column("endDate", DateTime, false),
    Column("allocator", VarChar(50), false),
    Column("employee", VarChar(75), false),
    Column("priority", VarChar(25), false),
    Column("progress", Integer, false),
    Column("card_id", ForeignId, false)
  ]

  /** The cards table, apart from its id and timestamps; `string` columns are 255 characters long. */
  const CardColumns: seq<Column> := [
    Column("title", VarChar(255), false),
    Column("description", Text, true),
    Column("board_id", ForeignId, false)
  ]

  /** Whether the database stores a value in a column without rejecting the write. */
  predicate Fits(v: Value, c: Column)
  {
    if v.Null? then c.nullable
    else match c.kind
      case VarChar(length) => v.Str? && |v.s| <= length
      case Text => v.Str?
      case DateTime => v.Date?
      case Integer => v.Int?
      case ForeignId => v.Int?   // which ids it may hold is the foreign key's business
  }

  /** Every column of the table accepts the row's value for it (an absent attribute is null). */
  predicate RowFits(row: Row, columns: seq<Column>)
  {
    forall i :: 0 <= i < |columns| ==> Fits(Get(row, columns[i].name), columns[i])
  }

  /** A foreign key: the attribute is the id of an existing parent row. */
  predicate References(row: Row, key: string, ids: set<int>)
  {
    Get(row, key).Int? && Get(row, key).n in ids
  }

  /** The tasks table accepts the row as an insert or as the result of an update. */
  predicate TaskWritable(row: Row, cardIds: set<int>)
  {
    RowFits(row, TaskColumns) && References(row, "card_id", cardIds)
  }

  /** The cards table accepts the row as an insert or as the result of an update. */
  predicate CardWritable(row: Row, boardIds: set<int>)
  {
    RowFits(row, CardColumns) && References(row, "board_id", boardIds)
  }

  /** What the board controller's validation keeps true of a board's name. */
  predicate BoardName(v: Value)
  {
    v.Str? && !IsBlank(v.s) && |v.s| <= 255
  }

  /** The database: three tables keyed by id, and the next id each table will hand out. */
  datatype Db = Db(
    boards: map<int, Row>,
    cards: map<int, Row>,
    tasks: map<int, Row>,
    nextBoardId: int,
    nextCardId: int,
    nextTaskId: int)

  const Empty: Db := Db(map[], map[], map[], 1, 1, 1)

  /** Referential integrity: every card's board and every task's card exists. */
  predicate Integrity(db: Db)
  {
    && (forall c :: c in db.cards ==> References(db.cards[c], "board_id", db.boards.Keys))
    && (forall t :: t in db.tasks ==> References(db.tasks[t], "card_id", db.cards.Keys))
  }

  /**
   * The invariant of the store: ids are positive and below the next id to be
   * handed out, rows hold only fillable attributes, every row fits its table,
   * and the foreign keys hold.
   */
  ghost predicate Consistent(db: Db)
  {
    && 0 < db.nextBoardId && 0 < db.nextCardId && 0 < db.nextTaskId
    && (forall b :: b in db.boards ==>
          0 < b < db.nextBoardId && db.boards[b].Keys <= Models.BoardFillable &&
          "numCards" in db.boards[b] && BoardName(Get(db.boards[b], "name")))
    && (forall c :: c in db.cards ==>
          0 < c < db.nextCardId && db.cards[c].Keys <= Models.CardFillable && RowFits(db.cards[c], CardColumns))
    && (forall t :: t in db.tasks ==>
          0 < t < db.nextTaskId && db.tasks[t].Keys <= Models.TaskFillable && RowFits(db.tasks[t], TaskColumns))
    && Integrity(db)
  }

  /** `Board::cards()`: the cards whose `board_id` is the board's id. */
  function CardsOf(db: Db, boardId: int): (cards: set<int>)
    ensures forall c :: c in cards <==> c in db.cards && Get(db.cards[c], "board_id") == Int(boardId)
  {
    set c | c in db.cards && References(db.cards[c], "board_id", {boardId})
  }

  /** The tasks whose `card_id` is one of `cardIds`. */
  function TasksOf(db: Db, cardIds: set<int>): set<int>
  {
    set t | t in db.tasks && References(db.tasks[t], "card_id", cardIds)
  }

  /** `Task::card()`: the card whose id is the task's `card_id`, if there is one. */
  function CardOf(db: Db, taskId: int): (card: Option<int>)
    requires taskId in db.tasks
    ensures card.Some? <==> References(db.tasks[taskId], "card_id", db.cards.Keys)
    ensures Integrity(db) ==> card.Some?
    ensures card.Some? ==> taskId in TasksOf(db, {card.value})
  {
    var v := Get(db.tasks[taskId], "card_id");
    if v.Int? && v.n in db.cards then Some(v.n) else None
  }

  /** Deleting a card: the `card_id` foreign key cascades the delete to the card's tasks. */
  function DeleteCard(db: Db, id: int): (db': Db)
    ensures db'.boards == db.boards && db'.cards == db.cards - {id}
    ensures db'.tasks.Keys == db.tasks.Keys - TasksOf(db, {id})
    ensures forall t :: t in db'.tasks ==> db'.tasks[t] == db.tasks[t]
    ensures db' == db.(cards := db'.cards, tasks := db'.tasks)
    ensures Consistent(db) ==> Consistent(db')
  {
    db.(cards := db.cards - {id}, tasks := db.tasks - TasksOf(db, {id}))
  }

  /**
   * Deleting a board: the `board_id` foreign key cascades to the board's cards,
   * and through the `card_id` key to their tasks; nothing else is touched.
   */
  function DeleteBoard(db: Db, id: int): (db': Db)
    ensures db'.boards == db.boards - {id}
    ensures db'.cards.Keys == db.cards.Keys - CardsOf(db, id)
    ensures db'.tasks.Keys == db.tasks.Keys - TasksOf(db, CardsOf(db, id))
    ensures forall c :: c in db'.cards ==> db'.cards[c] == db.cards[c]
    ensures forall t :: t in db'.tasks ==> db'.tasks[t] == db.tasks[t]
    ensures db' == db.(boards := db'.boards, cards := db'.cards, tasks := db'.tasks)
    ensures Consistent(db) ==> Consistent(db')
  {
    var doomed := CardsOf(db, id);
    db.(boards := db.boards - {id}, cards := db.cards - doomed, tasks := db.tasks - TasksOf(db, doomed))
  }

  /** The number of rows in the three tables together. */
  function Size(db: Db): nat
  {
    |db.boards| + |db.cards| + |db.tasks|
  }

  lemma MapMinusSize(m: map<int, Row>, s: set<int>)
    requires s <= m.Keys
    ensures |m - s| == |m| - |s|
  {
    var rest := (m - s).Keys;
    assert rest == m.Keys - s;
    assert rest + s == m.Keys;
    assert rest * s == {};
  }

  /**
   * Deleting a board with N cards that hold M tasks removes exactly 1 + N + M
   * rows, and none of the removed ids can be found afterwards.
   */
  lemma DeleteBoardRemovesDescendants(db: Db, id: int)
    requires id in db.boards
    ensures Size(db) - Size(DeleteBoard(db, id)) == 1 + |CardsOf(db, id)| + |TasksOf(db, CardsOf(db, id))|
    ensures forall c :: c in CardsOf(db, id) ==> c !in DeleteBoard(db, id).cards
    ensures forall t :: t in TasksOf(db, CardsOf(db, id)) ==> t !in DeleteBoard(db, id).tasks
  {
    var cs := CardsOf(db, id);
    MapMinusSize(db.boards, {id});
    MapMinusSize(db.cards, cs);
    MapMinusSize(db.tasks, TasksOf(db, cs));
  }

  /** The tasks migration's columns, one by one. */
  lemma TaskColumnsMeaning(row: Row)
    ensures RowFits(row, TaskColumns) <==>
      && Get(row, "taskName").Str? && |Get(row, "taskName").s| <= 255
      && Get(row, "description").Str?
      && Get(row, "startDate").Date? && Get(row, "endDate").Date?
      && Get(row, "allocator").Str? && |Get(row, "allocator").s| <= 50
      && Get(row, "employee").Str? && |Get(row, "employee").s| <= 75
      && Get(row, "priority").Str? && |Get(row, "priority").s| <= 25
      && Get(row, "progress").Int?
      && Get(row, "card_id").Int?
  {
    if RowFits(row, TaskColumns) {
      assert Fits(Get(row, TaskColumns[0].name), TaskColumns[0]);
      assert Fits(Get(row, TaskColumns[1].name), TaskColumns[1]);
      assert Fits(Get(row, TaskColumns[2].name), TaskColumns[2]);
      assert Fits(Get(row, TaskColumns[3].name), TaskColumns[3]);
      assert Fits(Get(row, TaskColumns[4].name), TaskColumns[4]);
      assert Fits(Get(row, TaskColumns[5].name), TaskColumns[5]);
      assert Fits(Get(row, TaskColumns[6].name), TaskColumns[6]);
      assert Fits(Get(row, TaskColumns[7].name), TaskColumns[7]);
      assert Fits(Get(row, TaskColumns[8].name), TaskColumns[8]);
    }
  }

  /** The cards migration's columns, one by one. */
  lemma CardColumnsMeaning(row: Row)
    ensures RowFits(row, CardColumns) <==>
      && Get(row, "title").Str? && |Get(row, "title").s| <= 255
      && (Get(row, "description").Null? || Get(row, "description").Str?)
      && Get(row, "board_id").Int?
  {
    if RowFits(row, CardColumns) {
      assert Fits(Get(row, CardColumns[0].name), CardColumns[0]);
      assert Fits(Get(row, CardColumns[1].name), CardColumns[1]);
      assert Fits(Get(row, CardColumns[2].name), CardColumns[2]);
    }
  }

  /** Every value the payload sends for a column fits that column. */
  predicate SentFits(p: Payload, columns: seq<Column>)
  {
    forall i :: 0 <= i < |columns| && columns[i].name in p ==> Fits(p[columns[i].name], columns[i])
  }

  /**
   * Updating a row that fits its table, through mass assignment over a
   * fillable set that covers every column, gives a row that fits exactly
   * when every value sent for a column fits it.
   */
  lemma AssignFits(row: Row, p: Payload, fillable: set<string>, columns: seq<Column>)
    requires RowFits(row, columns)
    requires forall i :: 0 <= i < |columns| ==> columns[i].name in fillable
    ensures RowFits(Models.Assign(row, p, fillable), columns) <==> SentFits(p, columns)
  {
    var row' := Models.Assign(row, p, fillable);
    forall i | 0 <= i < |columns|
      ensures Get(row', columns[i].name) == if columns[i].name in p then p[columns[i].name] else Get(row, columns[i].name)
    {
    }
  }

  /** In a consistent store, a stored task's columns hold what the tasks migration declares. */
  lemma StoredTaskColumns(db: Db, t: int)
    requires Consistent(db) && t in db.tasks
    ensures var row := db.tasks[t];
      && Get(row, "taskName").Str? && |Get(row, "taskName").s| <= 255
      && Get(row, "description").Str?
      && Get(row, "startDate").Date? && Get(row, "endDate").Date?
      && Get(row, "allocator").Str? && |Get(row, "allocator").s| <= 50
      && Get(row, "employee").Str? && |Get(row, "employee").s| <= 75
      && Get(row, "priority").Str? && |Get(row, "priority").s| <= 25
      && Get(row, "progress").Int?
      && References(row, "card_id", db.cards.Keys)
  {
    TaskColumnsMeaning(db.tasks[t]);
  }

  /** In a consistent store, a stored card has a title, an optional description and an existing board. */
  lemma StoredCardColumns(db: Db, c: int)
    requires Consistent(db) && c in db.cards
    ensures var row := db.cards[c];
      && Get(row, "title").Str? && |Get(row, "title").s| <= 255
      && (Get(row, "description").Null? || Get(row, "description").Str?)
      && References(row, "board_id", db.boards.Keys)
  {
    CardColumnsMeaning(db.cards[c]);
  }
}

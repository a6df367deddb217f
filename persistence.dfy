/** The database the controllers read and write in place. */
module Persistence {
  import opened Values
  import opened Responses
  import opened Schema

  /** The state of the database after an action, with the action's response. */
  datatype Outcome = Outcome(db: Db, response: Response)

  /**
   * The boards, cards and tasks tables, with the auto-increment counter of
   * each. Controller actions update these fields in place.
   */
  class Database {
    var boards: map<int, Row>
    var cards: map<int, Row>
    var tasks: map<int, Row>
    var nextBoardId: int
    var nextCardId: int
    var nextTaskId: int

    /** The tables as a value, for the specification of each action. */
    function Snapshot(): Db
      reads this
    {
      Db(boards, cards, tasks, nextBoardId, nextCardId, nextTaskId)
    }

    ghost predicate Valid()
      reads this
    {
      Consistent(Snapshot())
    }

    /** A freshly migrated database: three empty tables whose ids start at 1. */
    constructor ()
      ensures Valid() && Snapshot() == Empty
    {
      boards, cards, tasks := map[], map[], map[];
      nextBoardId, nextCardId, nextTaskId := 1, 1, 1;
    }
  }
}

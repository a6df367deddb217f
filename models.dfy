/**
 * The Eloquent models: which attributes mass assignment may write, the
 * default a new board starts from, and what `create` and `update` make of a
 * request payload.
 */
module Models {
  import opened Values

  /** `Task::$fillable`. */
  const TaskFillable: set<string> :=
    {"taskName", "description", "startDate", "endDate", "allocator", "employee", "priority", "progress", "card_id"}

  /** `Board::$fillable`. */
  const BoardFillable: set<string> := {"name", "numCards"}

  /** The writable columns of a card: those of the cards table other than the id and timestamps. */
  const CardFillable: set<string> := {"title", "description", "board_id"}

  /** `Board::$attributes`: a new board's `numCards` before the payload is filled in. */
  const BoardDefaults: Row := map["numCards" := Int(0)]

  /** Mass assignment: the payload's keys outside `fillable` are dropped without error. */
  function Fill(p: Payload, fillable: set<string>): (row: Row)
    ensures row.Keys == p.Keys * fillable
    ensures forall k :: k in row ==> row[k] == p[k]
  {
    map k | k in p && k in fillable :: p[k]
  }

  /** Filling is idempotent: what survives the filter once survives it again unchanged. */
  lemma FillIdempotent(p: Payload, fillable: set<string>)
    ensures Fill(Fill(p, fillable), fillable) == Fill(p, fillable)
  {
    var once := Fill(p, fillable);
    assert Fill(once, fillable).Keys == once.Keys;
  }

  /** The attributes of a board made by `Board::create`: the defaults, overridden by the filled payload. */
  function NewBoard(p: Payload): (row: Row)
    ensures row.Keys == (p.Keys * BoardFillable) + {"numCards"}
    ensures row["numCards"] == if "numCards" in p then p["numCards"] else Int(0)
    ensures "name" in p ==> row["name"] == p["name"]
  {
    BoardDefaults + Fill(p, BoardFillable)
  }

  /**
   * What `$model->update($request->all())` does to a row: every fillable key
   * of the payload is written, every other attribute keeps its value.
   */
  function Assign(row: Row, p: Payload, fillable: set<string>): (row': Row)
    ensures row'.Keys == row.Keys + (p.Keys * fillable)
    ensures forall k :: k in row' && !(k in p && k in fillable) ==> row'[k] == row[k]
    ensures forall k :: k in p && k in fillable ==> row'[k] == p[k]
  {
    row + Fill(p, fillable)
  }
}

/** What a controller action answers. */
module Responses {
  import opened Values

  const StatusOk := 200
  const StatusCreated := 201
  const StatusNoContent := 204

  /** The JSON body of a successful response. */
  datatype Body =
    | NoContent
    | Record(id: int, row: Row)
    | Listing(rows: map<int, Row>)
    | Message(text: string)
    | Remaining(id: int, taskName: Value, endDate: Value, remainingDays: int, detail: string)

  /**
   * A successful status with its body; 404 from `findOrFail`; 422 from a failed
   * validation, naming the fields that failed; or an unhandled failure (a call on
   * a null model, or a write the database rejects), which surfaces as a 500.
   */
  datatype Response =
    | Ok(status: int, body: Body)
    | NotFound
    | Invalid(fields: set<string>)
    | Crash
}

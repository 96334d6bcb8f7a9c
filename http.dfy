/**
 * What the two API routes (app/api/categorize/route.ts and app/api/assistant/route.ts) see of a request body and
 * send back: a JSON field that may be missing or of the wrong type, and a
 * JSON reply that is either the payload or an error with its HTTP status.
 */
module Http {
  /** A field of the parsed request body. */
  datatype JsonField<T> = Absent | WrongType | Present(value: T)

  datatype Response<T> = Ok(body: T) | Error(status: nat, message: string)

  /** `!field || typeof field !== "string"`: missing, not a string, or the empty string. */
  predicate MissingString(field: JsonField<string>)
  {
    field.Absent? || field.WrongType? || (field.Present? && field.value == "")
  }
}

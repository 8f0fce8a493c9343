/** The discarding destination used for unmapped columns (void.go). */
module Discard {
  import opened Types

  /** `Void`, an empty struct implementing sql.Scanner. */
  datatype Void = Void {
    /** Accepts any raw value and keeps nothing: the receiver is a value
        with no fields, so there is no state to change. */
    function Scan(src: Value): (err: Option<Error>)
      ensures err == None
    {
      None
    }
  }
}

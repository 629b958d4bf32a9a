/** The values that flow between the parser and the two generators. */
module Fields {

  /**
   * One form field: its label (`label` in the source), its input type
   * (`type` in the source) and whether it must be filled in. Both source
   * names are reserved words in Dafny.
   */
  datatype FormField = FormField(labelText: string, kind: string, required: bool)

  datatype Option<T> = None | Some(value: T)

  /** A parse that either yields a value or fails with the message of the thrown error. */
  datatype Result<T> = Ok(value: T) | Err(error: string)

  /** What both generators append to a required field's control, and nothing for an optional one. */
  function RequiredAttr(required: bool): (a: string)
    ensures required <==> a != []
  {
    if required then " required" else ""
  }
}

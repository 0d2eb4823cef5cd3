/** What the two forms share: the required-field check. */
module Forms {
  import opened Optional
  import opened JsString

  /** A text field is required when it trims to nothing: its message is
      then `message`, and otherwise there is none. */
  function RequiredError(s: string, message: string): (e: Option<string>)
    ensures e.Some? <==> AllWhiteSpace(s)
    ensures e.Some? ==> e.value == message
  {
    if IsBlank(s) then Some(message) else None
  }
}

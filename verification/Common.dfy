/** Values and small sequence facts that several modules share. */
module Common {

  datatype Option<+T> = None | Some(value: T)

  /** Python's `s or fallback` for an optional string: None and "" are both falsy. */
  function OrElse(s: Option<string>, fallback: string): string {
    if s.Some? && s.value != "" then s.value else fallback
  }

  /** Python's `s or None`: the empty string counts as no value. */
  function NonEmpty(s: Option<string>): Option<string> {
    if s == Some("") then None else s
  }
}

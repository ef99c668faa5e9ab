/** Values as they arrive in a parsed JSON request body. */
module JsValues {

  /** A key of a request body: absent (undefined in JavaScript) or present with a value. */
  datatype Option<+T> = None | Some(value: T)

  /** JavaScript truthiness of an optional string field: undefined and "" are falsy. */
  predicate Truthy(f: Option<string>) {
    f.Some? && f.value != ""
  }

  /** The expression `f || fallback` on an optional string field: one of its operands, and
      truthy when either operand is. */
  function OrElse(f: Option<string>, fallback: string): (r: string)
    ensures (f.Some? && r == f.value) || r == fallback
    ensures Truthy(Some(r)) <==> Truthy(f) || fallback != ""
  {
    if Truthy(f) then f.value else fallback
  }
}

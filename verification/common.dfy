/** Values as the route handlers see them: a request-body or query field is
    either absent (`undefined`) or a string, and a nullable SQL column is an
    `Option`. JavaScript's truthiness and its `||` / `??` operators on such
    fields are defined here once. */
module Common {

  /** A nullable value: `None` is `undefined` / `null` / SQL NULL. */
  datatype Option<+T> = None | Some(value: T) {
    function GetOr(default: T): T {
      match this
      case Some(v) => v
      case None => default
    }
  }

  /** What a handler's write did to the store: `Applied` carries the new
      table; `Refused` is a constraint failure the handler catches and
      reports; `Missing` is an id with no row, answered by a redirect;
      `Thrown` is an exception the handler does not catch, so no statement
      runs. */
  datatype Change<T> = Applied(value: T) | Refused | Missing | Thrown {
    /** The table after the request: unchanged unless the write was applied. */
    function Or(before: T): T {
      if Applied? then value else before
    }
  }

  /** A string field is truthy in JavaScript exactly when it is present and non-empty. */
  predicate Truthy(f: Option<string>) {
    f.Some? && f.value != ""
  }

  /** `a || b` on string fields. */
  function JsOr(a: Option<string>, b: Option<string>): (r: Option<string>)
    ensures Truthy(a) ==> r == a
    ensures !Truthy(a) ==> r == b
  {
    if Truthy(a) then a else b
  }

  /** `a || ''`: the field when truthy, otherwise the empty string. */
  function OrEmpty(a: Option<string>): (r: string)
    ensures Truthy(a) ==> r == a.value
    ensures !Truthy(a) ==> r == ""
  {
    if Truthy(a) then a.value else ""
  }

  /** `String(a ?? '')`: only a missing value becomes the empty string. */
  function StringOrEmpty(a: Option<string>): (r: string)
    ensures a.Some? ==> r == a.value
    ensures a.None? ==> r == ""
  {
    a.GetOr("")
  }

  /** `a || null`: falsy fields (missing or empty) are stored as NULL. */
  function OrNull(a: Option<string>): (r: Option<string>)
    ensures r.Some? <==> Truthy(a)
    ensures r.Some? ==> r == a
  {
    if Truthy(a) then a else None
  }

  predicate StartsWith(s: string, prefix: string) {
    |prefix| <= |s| && s[..|prefix|] == prefix
  }
}

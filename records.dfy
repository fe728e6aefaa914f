/** Feed records as the watcher sees them after JSON decoding, and the
    Python idioms it applies to their fields: `t.get(k)`, `t.get(k, "")`,
    `a or b` and f-string rendering. */
module Records {

  /** One field of a record: the key is absent, holds JSON null, or holds a
      string (numbers such as a port are represented by their text). */
  datatype Field = Missing | Null | Str(s: string)

  /** Python truthiness of the field's value: a non-empty string. */
  predicate Truthy(f: Field) {
    f.Str? && f.s != ""
  }

  /** `t.get(k, default)`: only an absent key falls back to the default. */
  function GetOr(f: Field, default: string): Field
  {
    if f.Missing? then Str(default) else f
  }

  /** Python's `a or b`. */
  function Or(a: Field, b: Field): Field
  {
    if Truthy(a) then a else b
  }

  /** `value or ""` as a string. */
  function OrEmpty(f: Field): string
  {
    if Truthy(f) then f.s else ""
  }

  /** `f"{value}"` where `value` came from `t.get(k)`: None renders as "None". */
  function Show(f: Field): string
  {
    if f.Str? then f.s else "None"
  }

  /** One target record; `httpMethod` is its "method" key and `kind` its "type" key. */
  datatype Target = Target(
    host: Field,
    path: Field,
    httpMethod: Field,
    kind: Field,
    port: Field,
    requestId: Field)

  /** One element of the feed's "targets" list: a JSON object, or anything
      else (which the watcher skips). */
  datatype Item = NonDict | Dict(target: Target)

  /** The id derived when a record has no usable request_id: the raw host,
      path, type and method joined by ":", an absent host rendered as
      "None" and the other three absent keys as "". */
  function DerivedId(t: Target): string
  {
    Show(t.host) + ":" + Show(GetOr(t.path, "")) + ":" + Show(GetOr(t.kind, "")) + ":" + Show(GetOr(t.httpMethod, ""))
  }

  /** The record's request_id when it is a non-empty string, otherwise the
      derived id. */
  function RequestId(t: Target): (id: string)
    ensures id != ""
    ensures Truthy(t.requestId) ==> id == t.requestId.s
  {
    if Truthy(t.requestId) then t.requestId.s else DerivedId(t)
  }

  /** Two records that agree on host, path, type and method and carry no
      usable request_id get the same id, whatever else differs. */
  lemma DerivedIdDeterministic(t1: Target, t2: Target)
    requires !Truthy(t1.requestId) && !Truthy(t2.requestId)
    requires t1.host == t2.host && t1.path == t2.path && t1.kind == t2.kind && t1.httpMethod == t2.httpMethod
    ensures RequestId(t1) == RequestId(t2)
  {
  }

  /** The derived id joins the raw fields with ":" and does not escape it,
      so records that differ only in where a ":" falls between path and
      type share one id and deduplicate against each other. */
  lemma DerivedIdsCanCollide()
    ensures var t1 := Target(Str("h"), Str("a:b"), Missing, Str("c"), Missing, Missing);
            var t2 := Target(Str("h"), Str("a"), Missing, Str("b:c"), Missing, Missing);
            t1 != t2 && RequestId(t1) == RequestId(t2)
  {
    assert "h" + ":" + "a:b" + ":" + "c" + ":" + "" == "h" + ":" + "a" + ":" + "b:c" + ":" + "";
  }
}

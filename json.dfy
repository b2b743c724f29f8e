/** Decoded JSON values and the JavaScript operations the report code applies to them:
    truthiness, property reads that may be `undefined`, and the value-level `||`. */
module Json {
  import opened Text

  datatype Json =
    | JNull
    | JBool(b: bool)
    | JNum(n: real)
    | JStr(s: string)
    | JArr(items: seq<Json>)
    | JObj(fields: map<string, Json>)

  /** JavaScript truthiness: `null`, `false`, `0` and `""` are falsy; arrays and objects are truthy. */
  predicate Truthy(v: Json) {
    match v
    case JNull => false
    case JBool(b) => b
    case JNum(n) => n != 0.0
    case JStr(s) => s != []
    case JArr(_) => true
    case JObj(_) => true
  }

  /** A value that may be `undefined` (None); `undefined` is falsy. */
  predicate Present(v: Option<Json>) {
    v.Some? && Truthy(v.value)
  }

  /** `v.name` on anything but `null`: an own field of an object, otherwise `undefined`.
      The names read here are not properties that strings, numbers or arrays carry. */
  function Get(v: Json, name: string): (r: Option<Json>)
    ensures r.Some? <==> v.JObj? && name in v.fields
    ensures r.Some? ==> r.value == v.fields[name]
  {
    if v.JObj? && name in v.fields then Some(v.fields[name]) else None
  }

  /** `a || b`: the left operand when it is truthy, otherwise the right operand, whatever it is. */
  function Or(a: Option<Json>, b: Option<Json>): (r: Option<Json>)
    ensures Present(a) ==> r == a
    ensures !Present(a) ==> r == b
  {
    if Present(a) then a else b
  }

  /** `x || y` is truthy exactly when one of its operands is. */
  lemma OrTruthy(a: Option<Json>, b: Option<Json>)
    ensures Present(Or(a, b)) <==> Present(a) || Present(b)
  { }

  /** A chain `v0 || v1 || … || fallback`: the first truthy value, otherwise the fallback. */
  function FirstTruthy(vs: seq<Option<Json>>, fallback: Json): (r: Json)
    ensures (exists i :: 0 <= i < |vs| && Present(vs[i])) ==> Truthy(r)
    ensures (forall i :: 0 <= i < |vs| ==> !Present(vs[i])) ==> r == fallback
  {
    if |vs| == 0 then fallback
    else if Present(vs[0]) then vs[0].value
    else FirstTruthy(vs[1..], fallback)
  }

  /** The chain takes the earliest truthy operand and ignores every later one. */
  lemma {:induction false} FirstTruthyPicksFirst(vs: seq<Option<Json>>, fallback: Json, k: nat)
    requires k < |vs| && Present(vs[k])
    requires forall i :: 0 <= i < k ==> !Present(vs[i])
    ensures FirstTruthy(vs, fallback) == vs[k].value
    decreases k
  {
    if k > 0 {
      FirstTruthyPicksFirst(vs[1..], fallback, k - 1);
    }
  }

  /** Left-nested `||` and the chain agree. */
  lemma OrChain(a: Option<Json>, b: Option<Json>, c: Json)
    ensures Or(Or(a, b), Some(c)).value == FirstTruthy([a, b], c)
  {
    assert [a, b][1..] == [b];
  }

  /** A `fetch` of the build queue: it threw (network error or the 5-second abort), or it
      answered with an `ok` flag and a body that `response.json()` decodes (None when that
      throws). */
  datatype QueueReply = Threw | Reply(ok: bool, payload: Option<Json>)
}

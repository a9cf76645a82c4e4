/** The slice of JavaScript value semantics that the server's request
    handling and the client's render expressions depend on.

    Values arrive as parsed JSON (request bodies, fetched records) or as a
    missing property (`undefined`). Numbers are modelled as reals: rounding to
    IEEE doubles is not modelled, and NaN cannot occur because JSON has no
    literal for it. Arrays and objects are reference values: every parse
    creates fresh ones, so a composite value is never `===` to a value from
    another parse and is never found by `Array.prototype.includes` among
    earlier values. */
module Js {

  datatype Option<T> = None | Some(value: T)

  datatype Value =
    | Undefined
    | Null
    | Bool(b: bool)
    | Num(n: real)
    | Str(s: string)
    | Arr(items: seq<Value>)
    | Obj

  /** Primitive (non-reference) values: the ones compared by content. */
  predicate IsPrimitive(v: Value) {
    !v.Arr? && !v.Obj?
  }

  /** `!v` is true: undefined, null, false, 0 (and -0) and the empty string. */
  predicate Falsy(v: Value) {
    v == Undefined || v == Null || v == Bool(false) || v == Num(0.0) || v == Str("")
  }

  /** `v == null` with loose equality: true exactly for null and undefined. */
  predicate LooseNull(v: Value) {
    v == Undefined || v == Null
  }

  /** `a === b` for values that come from separate parses: primitives compare
      by content, reference values are never identical to anything else. */
  predicate StrictEquals(a: Value, b: Value) {
    IsPrimitive(a) && a == b
  }

  /** `xs.includes(x)`: some element of `xs` is SameValueZero to `x`
      (the same as `===` here, since NaN does not occur). */
  predicate Includes(xs: seq<Value>, x: Value) {
    exists k :: 0 <= k < |xs| && StrictEquals(xs[k], x)
  }

  lemma IncludesPrimitive(xs: seq<Value>, x: Value)
    ensures Includes(xs, x) <==> IsPrimitive(x) && x in xs
  {
  }

  /** `xs.find(e => key(e) === k)`, reported as the index of the element found:
      the index of the FIRST element whose key is strictly equal to `k`. */
  function Find<T>(xs: seq<T>, key: T -> Value, k: Value): (r: Option<nat>)
    ensures r.Some? ==> r.value < |xs| && StrictEquals(key(xs[r.value]), k)
    ensures r.Some? ==> forall j :: 0 <= j < r.value ==> !StrictEquals(key(xs[j]), k)
    ensures r.None? <==> forall j :: 0 <= j < |xs| ==> !StrictEquals(key(xs[j]), k)
  {
    if |xs| == 0 then None
    else if StrictEquals(key(xs[0]), k) then Some(0)
    else match Find(xs[1..], key, k)
      case None => None
      case Some(j) => Some(j + 1)
  }

  /** Two sequences with the same keys, position by position, give the same
      `find` result however their other contents differ. */
  lemma FindDependsOnlyOnKeys<T, U>(xs: seq<T>, kx: T -> Value, ys: seq<U>, ky: U -> Value, k: Value)
    requires |xs| == |ys|
    requires forall i :: 0 <= i < |xs| ==> kx(xs[i]) == ky(ys[i])
    ensures Find(xs, kx, k) == Find(ys, ky, k)
  {
  }
}

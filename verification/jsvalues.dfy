/** JavaScript values as they cross the HTTP boundary, and the few
    operations of the language the model needs on them. */
module JsValues {
  import opened Text

  /** A JSON-like JavaScript value. Numbers are integers (floating point is
      not modelled); `NaN` is kept apart because `parseInt` can yield it. */
  datatype Json =
    | Undefined
    | Null
    | Bool(b: bool)
    | Num(n: int)
    | NaN
    | Str(s: string)
    | Arr(items: seq<Json>)
    | Obj(members: seq<Member>)

  /** One own enumerable property of an object, in insertion order. */
  datatype Member = Member(key: string, value: Json)

  /** JavaScript truthiness (section 7.1.2 of ECMA-262, ToBoolean). */
  predicate Truthy(v: Json) {
    match v
    case Undefined => false
    case Null => false
    case Bool(b) => b
    case Num(n) => n != 0
    case NaN => false
    case Str(s) => s != ""
    case Arr(_) => true
    case Obj(_) => true
  }

  /** Arrays and objects; every other value is a scalar. */
  predicate IsContainer(v: Json) {
    v.Arr? || v.Obj?
  }

  function Keys(ms: seq<Member>): set<string> {
    set m | m in ms :: m.key
  }

  /** A real JavaScript object never holds the same key twice. */
  predicate UniqueKeys(ms: seq<Member>) {
    forall i, j :: 0 <= i < j < |ms| ==> ms[i].key != ms[j].key
  }

  /** Property read `obj[k]`: the member's value, or `undefined` when absent. */
  function Get(ms: seq<Member>, k: string): (r: Json)
    ensures k !in Keys(ms) ==> r == Undefined
    ensures k in Keys(ms) ==>
      exists i :: 0 <= i < |ms| && ms[i].key == k && ms[i].value == r
    ensures UniqueKeys(ms) ==>
      forall i :: 0 <= i < |ms| && ms[i].key == k ==> r == ms[i].value
  {
    if |ms| == 0 then Undefined
    else if ms[0].key == k then ms[0].value
    else
      assert forall m :: m in ms[1..] ==> m in ms;
      assert k in Keys(ms) ==> k in Keys(ms[1..]) by {
        if k in Keys(ms) {
          var m :| m in ms && m.key == k;
          var i :| 0 <= i < |ms| && ms[i] == m;
          assert i != 0;
          assert ms[1..][i - 1] == m;
        }
      }
      var r := Get(ms[1..], k);
      assert k in Keys(ms[1..]) ==> exists i :: 0 <= i < |ms| && ms[i].key == k && ms[i].value == r by {
        if k in Keys(ms[1..]) {
          var i :| 0 <= i < |ms[1..]| && ms[1..][i].key == k && ms[1..][i].value == r;
          assert ms[i + 1] == ms[1..][i];
        }
      }
      r
  }

  /** `delete obj[k]`: every member keyed `k` is dropped, the rest keep their order. */
  function Remove(ms: seq<Member>, k: string): (r: seq<Member>)
    ensures forall m :: m in r <==> m in ms && m.key != k
    ensures k !in Keys(ms) ==> r == ms
  {
    if |ms| == 0 then []
    else if ms[0].key == k then Remove(ms[1..], k)
    else
      assert k !in Keys(ms) ==> k !in Keys(ms[1..]) by {
        if k in Keys(ms[1..]) {
          var m :| m in ms[1..] && m.key == k;
          assert m in ms;
        }
      }
      assert ms == [ms[0]] + ms[1..];
      [ms[0]] + Remove(ms[1..], k)
  }

  lemma RemoveKeys(ms: seq<Member>, k: string)
    ensures Keys(Remove(ms, k)) == Keys(ms) - {k}
  {
    var r := Remove(ms, k);
    forall x | x in Keys(ms) - {k} ensures x in Keys(r) {
      var m :| m in ms && m.key == x;
      assert m in r;
    }
  }

  /** Deleting keeps the members that remain in their relative order, so a
      well-formed object stays well-formed. */
  lemma {:induction false} RemoveKeepsUniqueKeys(ms: seq<Member>, k: string)
    requires UniqueKeys(ms)
    ensures UniqueKeys(Remove(ms, k))
    decreases |ms|
  {
    if |ms| > 0 {
      assert UniqueKeys(ms[1..]);
      RemoveKeepsUniqueKeys(ms[1..], k);
      if ms[0].key != k {
        var rest := Remove(ms[1..], k);
        var r := [ms[0]] + rest;
        forall j | 0 < j < |r| ensures r[0].key != r[j].key {
          assert r[j] in rest;
          var i :| 0 <= i < |ms[1..]| && ms[1..][i] == r[j];
          assert ms[i + 1] == r[j];
        }
      }
    }
  }

  /** `String(v)`, the text a template literal `${v}` inserts (section 7.1.17
      of ECMA-262, ToString; arrays join their elements with commas and print
      `null`/`undefined` elements as empty text). */
  function ToJsString(v: Json): string
    decreases v
  {
    match v
    case Undefined => "undefined"
    case Null => "null"
    case Bool(b) => if b then "true" else "false"
    case Num(n) => IntToString(n)
    case NaN => "NaN"
    case Str(s) => s
    case Arr(items) =>
      Join(seq(|items|, i requires 0 <= i < |items| =>
        if items[i].Null? || items[i].Undefined? then "" else ToJsString(items[i])), ",")
    case Obj(_) => "[object Object]"
  }
}

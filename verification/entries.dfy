/** `Object.fromEntries` on a list of key/value pairs (section 20.1.2.7 of
    ECMA-262): keys keep the position of their first occurrence and a later
    pair with the same key overwrites the earlier value. */
module Entries {
  import opened JsValues

  lemma KeysAppend(ms: seq<Member>, m: Member)
    ensures Keys(ms + [m]) == Keys(ms) + {m.key}
  {
    assert forall x :: x in ms + [m] <==> x in ms || x == m;
  }

  lemma KeysPrefix(ms: seq<Member>)
    requires |ms| > 0
    ensures Keys(ms) == Keys(ms[..|ms| - 1]) + {ms[|ms| - 1].key}
  {
    assert ms == ms[..|ms| - 1] + [ms[|ms| - 1]];
    KeysAppend(ms[..|ms| - 1], ms[|ms| - 1]);
  }

  /** Position of the first member keyed `k`. */
  function FirstIndex(ms: seq<Member>, k: string): (i: nat)
    requires k in Keys(ms)
    ensures i < |ms| && ms[i].key == k
    ensures forall j :: 0 <= j < i ==> ms[j].key != k
    decreases |ms|
  {
    KeysPrefix(ms);
    var n := |ms| - 1;
    if k in Keys(ms[..n]) then
      var i := FirstIndex(ms[..n], k);
      assert ms[i] == ms[..n][i];
      assert forall j :: 0 <= j < i ==> ms[j] == ms[..n][j];
      i
    else
      assert forall j :: 0 <= j < n ==> ms[j] in ms[..n];
      n
  }

  /** Position of the last member keyed `k`. */
  function LastIndex(ms: seq<Member>, k: string): (i: nat)
    requires k in Keys(ms)
    ensures i < |ms| && ms[i].key == k
    ensures forall j :: i < j < |ms| ==> ms[j].key != k
    decreases |ms|
  {
    KeysPrefix(ms);
    var n := |ms| - 1;
    if ms[n].key == k then n
    else
      var i := LastIndex(ms[..n], k);
      assert ms[i] == ms[..n][i];
      assert forall j :: i < j < n ==> ms[j] == ms[..n][j];
      i
  }

  /** Appending a pair does not move the first occurrence of an older key. */
  lemma FirstIndexAppend(ms: seq<Member>, m: Member, k: string)
    requires k in Keys(ms)
    ensures k in Keys(ms + [m]) && FirstIndex(ms + [m], k) == FirstIndex(ms, k)
  {
    KeysAppend(ms, m);
    var a := FirstIndex(ms + [m], k);
    var b := FirstIndex(ms, k);
    assert forall j :: 0 <= j < |ms| ==> (ms + [m])[j] == ms[j];
  }

  /** Writing one property of an object: an existing key is updated in place,
      a new key is appended. */
  function Put(acc: seq<Member>, m: Member): (r: seq<Member>)
    requires UniqueKeys(acc)
    ensures UniqueKeys(r)
    ensures Keys(r) == Keys(acc) + {m.key}
    ensures m.key in Keys(acc) ==> |r| == |acc| && r[FirstIndex(acc, m.key)] == m
    ensures m.key !in Keys(acc) ==> r == acc + [m]
    ensures forall j :: 0 <= j < |acc| && acc[j].key != m.key ==> r[j] == acc[j]
  {
    KeysAppend(acc, m);
    if m.key in Keys(acc) then
      var i := FirstIndex(acc, m.key);
      var r := acc[i := m];
      assert forall x :: x in r ==> x in acc || x == m;
      forall y | y in Keys(acc) + {m.key} ensures y in Keys(r) {
        if y == m.key {
          assert r[i] in r;
        } else {
          var j :| 0 <= j < |acc| && acc[j].key == y;
          assert r[j] == acc[j];
          assert r[j] in r;
        }
      }
      r
    else
      assert forall j :: 0 <= j < |acc| ==> acc[j] in acc;
      acc + [m]
  }

  /** `Object.fromEntries(es)` as the sequence of its own properties. */
  function FromEntries(es: seq<Member>): (r: seq<Member>)
    ensures UniqueKeys(r)
    ensures Keys(r) == Keys(es)
    ensures |r| <= |es|
    decreases |es|
  {
    if |es| == 0 then []
    else
      KeysPrefix(es);
      Put(FromEntries(es[..|es| - 1]), es[|es| - 1])
  }

  /** Every property holds the value of the LAST pair carrying its key. */
  lemma {:induction false} FromEntriesLastWins(es: seq<Member>)
    ensures forall j :: 0 <= j < |FromEntries(es)| ==>
      FromEntries(es)[j].key in Keys(es) &&
      FromEntries(es)[j] == es[LastIndex(es, FromEntries(es)[j].key)]
    decreases |es|
  {
    if |es| > 0 {
      var n := |es| - 1;
      var p, m := es[..n], es[n];
      FromEntriesLastWins(p);
      var acc := FromEntries(p);
      var r := FromEntries(es);
      assert r == Put(acc, m);
      forall j | 0 <= j < |r|
        ensures r[j].key in Keys(es) && r[j] == es[LastIndex(es, r[j].key)]
      {
        assert r[j] in r;
        if r[j].key != m.key {
          assert j < |acc|;
          assert r[j] == acc[j];
          assert es[LastIndex(p, r[j].key)] == p[LastIndex(p, r[j].key)];
        }
      }
    }
  }

  /** The members of `r` appear in the order in which their keys first occur in `es`. */
  ghost predicate FirstOccurrenceOrder(es: seq<Member>, r: seq<Member>)
    requires Keys(r) <= Keys(es)
  {
    forall j, j' :: 0 <= j < j' < |r| ==>
      r[j] in r && r[j'] in r &&
      FirstIndex(es, r[j].key) < FirstIndex(es, r[j'].key)
  }

  lemma PutKeepsOrder(p: seq<Member>, acc: seq<Member>, m: Member)
    requires UniqueKeys(acc) && Keys(acc) == Keys(p)
    requires FirstOccurrenceOrder(p, acc)
    ensures Keys(Put(acc, m)) == Keys(p + [m])
    ensures FirstOccurrenceOrder(p + [m], Put(acc, m))
  {
    var es, n, r := p + [m], |p|, Put(acc, m);
    KeysAppend(p, m);
    assert forall i :: 0 <= i < n ==> es[i] == p[i];
    forall j, j' | 0 <= j < j' < |r|
      ensures FirstIndex(es, r[j].key) < FirstIndex(es, r[j'].key)
    {
      assert acc[j].key in Keys(acc) by { assert acc[j] in acc; }
      FirstIndexAppend(p, m, acc[j].key);
      assert r[j].key == acc[j].key;
      if j' < |acc| {
        assert r[j'].key == acc[j'].key;
        assert acc[j'].key in Keys(acc) by { assert acc[j'] in acc; }
        FirstIndexAppend(p, m, acc[j'].key);
        assert acc[j] in acc && acc[j'] in acc;
      } else {
        assert r[j'] == m && m.key !in Keys(p);
        forall i | 0 <= i < n ensures es[i].key != m.key {
          assert p[i] in p;
        }
        assert FirstIndex(es, m.key) == n;
      }
    }
  }

  /** Properties appear in the order in which their keys first occur. */
  lemma {:induction false} FromEntriesOrder(es: seq<Member>)
    ensures FirstOccurrenceOrder(es, FromEntries(es))
    decreases |es|
  {
    if |es| > 0 {
      var n := |es| - 1;
      assert es == es[..n] + [es[n]];
      FromEntriesOrder(es[..n]);
      PutKeepsOrder(es[..n], FromEntries(es[..n]), es[n]);
    }
  }

  /** A list without repeated keys comes back unchanged. */
  lemma {:induction false} FromEntriesOfUnique(es: seq<Member>)
    requires UniqueKeys(es)
    ensures FromEntries(es) == es
    decreases |es|
  {
    if |es| > 0 {
      var n := |es| - 1;
      assert UniqueKeys(es[..n]);
      FromEntriesOfUnique(es[..n]);
      forall x | x in es[..n] ensures x.key != es[n].key {
        var i :| 0 <= i < n && es[..n][i] == x;
        assert es[i] == x;
      }
      assert es == es[..n] + [es[n]];
    }
  }

  /** A repeated key always loses a property: the length is kept exactly
      when the keys are unique. */
  lemma {:induction false} FromEntriesLength(es: seq<Member>)
    ensures |FromEntries(es)| == |es| <==> UniqueKeys(es)
    decreases |es|
  {
    if UniqueKeys(es) {
      FromEntriesOfUnique(es);
    } else {
      var n := |es| - 1;
      var p := es[..n];
      var acc := FromEntries(p);
      FromEntriesLength(p);
      if UniqueKeys(p) {
        assert forall a, b :: 0 <= a < b < n ==> es[a].key != es[b].key by {
          forall a, b | 0 <= a < b < n ensures es[a].key != es[b].key {
            assert es[a] == p[a] && es[b] == p[b];
          }
        }
        var i, j :| 0 <= i < j < |es| && es[i].key == es[j].key;
        assert j == n;
        assert es[i] == p[i];
        assert p[i] in p;
        assert es[n].key in Keys(acc);
      }
    }
  }
}

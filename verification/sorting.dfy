/** `List<string>.Sort()` on directory listings, with ordinal comparison.
    The sorted listing is what restores the on-disk queue order after a restart. */
module Sorting {

  /** Ordinal lexicographic order on strings. */
  predicate LessEq(a: string, b: string)
    decreases |a|
  {
    |a| == 0 || (|b| > 0 && (a[0] < b[0] || (a[0] == b[0] && LessEq(a[1..], b[1..]))))
  }

  lemma {:induction false} LessEqTotal(a: string, b: string)
    ensures LessEq(a, b) || LessEq(b, a)
    decreases |a|
  {
    if |a| > 0 && |b| > 0 && a[0] == b[0] {
      LessEqTotal(a[1..], b[1..]);
    }
  }

  lemma {:induction false} LessEqTransitive(a: string, b: string, c: string)
    requires LessEq(a, b) && LessEq(b, c)
    ensures LessEq(a, c)
    decreases |a|
  {
    if |a| > 0 && a[0] == b[0] && b[0] == c[0] {
      LessEqTransitive(a[1..], b[1..], c[1..]);
    }
  }

  lemma {:induction false} LessEqAntisymmetric(a: string, b: string)
    requires LessEq(a, b) && LessEq(b, a)
    ensures a == b
    decreases |a|
  {
    if |a| > 0 {
      LessEqAntisymmetric(a[1..], b[1..]);
      assert a == [a[0]] + a[1..];
      assert b == [b[0]] + b[1..];
    }
  }

  predicate Sorted(s: seq<string>)
  {
    forall i, j :: 0 <= i < j < |s| ==> LessEq(s[i], s[j])
  }

  /** Insert `x` into a sorted sequence, after every element not above it. */
  function Insert(x: string, s: seq<string>): (r: seq<string>)
    requires Sorted(s)
    ensures Sorted(r)
    ensures multiset(r) == multiset(s) + multiset{x}
    ensures |r| == |s| + 1
  {
    if |s| == 0 then [x]
    else if LessEq(x, s[0]) then
      InsertFront(x, s);
      [x] + s
    else
      var tail := Insert(x, s[1..]);
      LessEqTotal(x, s[0]);
      InsertBehind(s[0], x, s[1..], tail);
      assert s == [s[0]] + s[1..];
      [s[0]] + tail
  }

  lemma InsertFront(x: string, s: seq<string>)
    requires Sorted(s) && |s| > 0 && LessEq(x, s[0])
    ensures Sorted([x] + s)
  {
    var r := [x] + s;
    forall i, j | 0 <= i < j < |r| ensures LessEq(r[i], r[j]) {
      if i == 0 && j > 1 {
        LessEqTransitive(x, s[0], s[j - 1]);
      }
    }
  }

  lemma InsertBehind(h: string, x: string, s: seq<string>, tail: seq<string>)
    requires Sorted([h] + s) && LessEq(h, x)
    requires Sorted(tail) && multiset(tail) == multiset(s) + multiset{x}
    ensures Sorted([h] + tail)
  {
    var r := [h] + tail;
    forall i, j | 0 <= i < j < |r| ensures LessEq(r[i], r[j]) {
      if i == 0 {
        var y := tail[j - 1];
        assert y in multiset(tail);
        if y == x {
        } else {
          assert y in multiset(s);
          var k :| 0 <= k < |s| && s[k] == y;
          assert ([h] + s)[k + 1] == y;
          assert LessEq(([h] + s)[0], ([h] + s)[k + 1]);
        }
      } else {
        assert r[i] == tail[i - 1] && r[j] == tail[j - 1];
      }
    }
  }

  /** The listing in ascending ordinal order: a sorted permutation of the input. */
  function Sort(s: seq<string>): (r: seq<string>)
    ensures Sorted(r)
    ensures multiset(r) == multiset(s)
    ensures |r| == |s|
  {
    if |s| == 0 then []
    else
      assert s == [s[0]] + s[1..];
      Insert(s[0], Sort(s[1..]))
  }
}

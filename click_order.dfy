/** Ordering records by clicks, largest first, as
    `sort_values(by='clicks', ascending=False)` does.

    pandas' default sort is not stable, so nothing here may depend on the
    order it leaves among rows of equal clicks. `SortByClicks` is one
    concrete descending permutation; `SameClicksAnyOrder` shows that every
    descending permutation of the same rows has the same click sequence,
    so whatever is proved of the clicks of the result holds for the order
    pandas picks too. */
module ClickOrder {
  import opened Rows

  /** Clicks are non-increasing from left to right. */
  predicate Descending(s: seq<Record>) {
    forall i, j :: 0 <= i < j < |s| ==> s[i].clicks >= s[j].clicks
  }

  /** `t` is some order `sort_values` may produce from `s`. */
  predicate IsClickOrder(s: seq<Record>, t: seq<Record>) {
    multiset(t) == multiset(s) && Descending(t)
  }

  /** The click column of a sequence of records. */
  function Clicks(s: seq<Record>): (c: seq<int>)
    ensures |c| == |s|
    ensures forall i :: 0 <= i < |s| ==> c[i] == s[i].clicks
  {
    seq(|s|, i requires 0 <= i < |s| => s[i].clicks)
  }

  /** Inserts `x` into a descending sequence, in front of the first record
      whose clicks do not exceed its own. */
  function Insert(x: Record, s: seq<Record>): (r: seq<Record>)
    requires Descending(s)
    ensures Descending(r)
    ensures multiset(r) == multiset(s) + multiset{x}
    ensures |r| > 0 && (r[0] == x || (|s| > 0 && r[0] == s[0]))
  {
    if s == [] || x.clicks >= s[0].clicks then
      [x] + s
    else
      assert s == [s[0]] + s[1..];
      [s[0]] + Insert(x, s[1..])
  }

  /** Insertion sort, largest clicks first. */
  function SortByClicks(s: seq<Record>): (t: seq<Record>)
    ensures IsClickOrder(s, t)
  {
    if s == [] then []
    else
      assert s == [s[0]] + s[1..];
      Insert(s[0], SortByClicks(s[1..]))
  }

  /** Every element of a non-empty descending sequence is at most its head. */
  lemma HeadIsMaximum(s: seq<int>, x: int)
    requires |s| > 0 && forall i, j :: 0 <= i < j < |s| ==> s[i] >= s[j]
    requires x in multiset(s)
    ensures x <= s[0]
  {
    var j :| 0 <= j < |s| && s[j] == x;
  }

  /** Two non-increasing integer sequences with the same elements are equal. */
  lemma {:induction false} DescendingIntsUnique(p: seq<int>, q: seq<int>)
    requires forall i, j :: 0 <= i < j < |p| ==> p[i] >= p[j]
    requires forall i, j :: 0 <= i < j < |q| ==> q[i] >= q[j]
    requires multiset(p) == multiset(q)
    ensures p == q
  {
    if p == [] {
      assert |q| == |multiset(q)| == 0;
    } else {
      assert |q| == |multiset(q)| == |multiset(p)| > 0;
      assert p[0] in multiset(p);
      assert q[0] in multiset(q);
      HeadIsMaximum(q, p[0]);
      HeadIsMaximum(p, q[0]);
      assert p[0] == q[0];
      assert p == [p[0]] + p[1..];
      assert q == [q[0]] + q[1..];
      assert multiset(p) == multiset{p[0]} + multiset(p[1..]);
      assert multiset(q) == multiset{q[0]} + multiset(q[1..]);
      assert multiset(p[1..]) == multiset(p) - multiset{p[0]};
      assert multiset(q[1..]) == multiset(q) - multiset{q[0]};
      DescendingIntsUnique(p[1..], q[1..]);
    }
  }

  /** Taking the click column is compatible with concatenation. */
  lemma ClicksAppend(x: seq<Record>, y: seq<Record>)
    ensures Clicks(x + y) == Clicks(x) + Clicks(y)
  {
  }

  /** Rearranging the records rearranges their click column the same way. */
  lemma {:induction false} MultisetClicks(a: seq<Record>, b: seq<Record>)
    requires multiset(a) == multiset(b)
    ensures multiset(Clicks(a)) == multiset(Clicks(b))
    decreases |a|
  {
    if a == [] {
      assert |b| == |multiset(b)| == 0;
      assert Clicks(b) == [];
    } else {
      var x := a[0];
      assert x in multiset(b);
      var j :| 0 <= j < |b| && b[j] == x;
      var b' := b[..j] + b[j+1..];
      assert b == b[..j] + [x] + b[j+1..];
      assert a == [x] + a[1..];
      assert multiset(b) == multiset(b[..j]) + multiset{x} + multiset(b[j+1..]);
      assert multiset(a) == multiset{x} + multiset(a[1..]);
      assert multiset(b') == multiset(b) - multiset{x};
      assert multiset(a[1..]) == multiset(a) - multiset{x};
      MultisetClicks(a[1..], b');
      ClicksAppend([x], a[1..]);
      ClicksAppend(b[..j] + [x], b[j+1..]);
      ClicksAppend(b[..j], [x]);
      ClicksAppend(b[..j], b[j+1..]);
    }
  }

  /** Any two orders `sort_values` may produce agree on every click count:
      they can differ only in which of several equal-click rows comes first. */
  lemma SameClicksAnyOrder(s: seq<Record>, t1: seq<Record>, t2: seq<Record>)
    requires IsClickOrder(s, t1) && IsClickOrder(s, t2)
    ensures Clicks(t1) == Clicks(t2)
  {
    MultisetClicks(t1, t2);
    DescendingIntsUnique(Clicks(t1), Clicks(t2));
  }
}

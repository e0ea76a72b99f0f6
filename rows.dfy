/** Rows of a Search Console answer and the data frame built from them.

    An answer row is modelled by the two columns `get_top_keywords` reads:
    its dimension keys (here a one-element list holding the query) and its
    click count, a JSON number. The request body carries a `fields` entry
    meant as a mask for exactly these two; whether the service honours it
    is not modelled, and other columns would not change the sort or the
    cut. Building the frame numbers the rows 0, 1, ...
    (pandas' default index) and converts the click column to integers, the
    way `astype(int)` does: truncation toward zero. */
module Rows {

  /** One row of the API answer: the columns the top-keyword selection reads. */
  datatype ApiRow = ApiRow(keys: seq<string>, clicks: real)

  /** One row of the data frame: its index label, its keys and its
      integer click count. */
  datatype Record = Record(index: nat, keys: seq<string>, clicks: int)

  /** `astype(int)` on a float: truncation toward zero. */
  function TruncToInt(x: real): (n: int)
    ensures 0.0 <= x ==> 0 <= n && n as real <= x < n as real + 1.0
    ensures x < 0.0 ==> n <= 0 && n as real - 1.0 < x <= n as real
  {
    if 0.0 <= x then x.Floor else -((-x).Floor)
  }

  /** A click count that already is a whole number keeps its value. */
  lemma TruncOfWhole(k: int)
    ensures TruncToInt(k as real) == k
  {
  }

  /** Converting before sorting never reverses two rows: the integer order
      agrees with the order of the raw counts, though it may tie them. */
  lemma TruncMonotone(x: real, y: real)
    requires x <= y
    ensures TruncToInt(x) <= TruncToInt(y)
  {
  }

  /** `pd.DataFrame(data)` followed by `df['clicks'].astype(int)`. */
  function Frame(data: seq<ApiRow>): (f: seq<Record>)
    ensures |f| == |data|
    ensures forall i :: 0 <= i < |data| ==>
      f[i].index == i && f[i].keys == data[i].keys && f[i].clicks == TruncToInt(data[i].clicks)
    ensures forall i, j :: 0 <= i < j < |f| ==> f[i] != f[j]
  {
    seq(|data|, i requires 0 <= i < |data| => Record(i, data[i].keys, TruncToInt(data[i].clicks)))
  }

  /** The set of index labels that occur in a sequence of records. */
  function Indices(s: seq<Record>): set<nat> {
    set k | 0 <= k < |s| :: s[k].index
  }

  /** A record occurs at most once in a sequence of distinct records. */
  lemma {:induction false} DistinctOccursOnce(s: seq<Record>, x: Record)
    requires forall i, j :: 0 <= i < j < |s| ==> s[i] != s[j]
    ensures multiset(s)[x] <= 1
  {
    if s != [] {
      assert s == [s[0]] + s[1..];
      DistinctOccursOnce(s[1..], x);
      if s[0] == x {
        assert x !in s[1..];
      }
    }
  }

  /** A record found at two positions occurs at least twice. */
  lemma RepeatOccursTwice(s: seq<Record>, a: nat, b: nat)
    requires a < b < |s| && s[a] == s[b]
    ensures multiset(s)[s[a]] >= 2
  {
    assert s == s[..a] + [s[a]] + s[a+1..b] + [s[b]] + s[b+1..];
  }
}

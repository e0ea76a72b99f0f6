/** `get_top_keywords(data, top_n=5)`: build the frame, convert clicks to
    integers, sort by clicks descending and keep `head(top_n)`. */
module TopKeywords {
  import opened Rows
  import opened ClickOrder

  /** The value `main` relies on: it never passes `top_n`. */
  const DefaultTopN: int := 5

  /** Raised by pandas; an empty frame has no `clicks` column. */
  datatype Error = KeyError(column: string)

  datatype Result<T> = Ok(value: T) | Err(error: Error)

  /** How many rows `head(n)` keeps of a frame of `len` rows: the first `n`
      when `n` is not negative, otherwise all but the last `-n`. */
  function HeadLength(n: int, len: nat): (m: nat)
    ensures m <= len
    ensures 0 <= n ==> m == if n < len then n else len
    ensures n < 0 ==> m == if len + n < 0 then 0 else len + n
  {
    if 0 <= n then (if n < len then n else len)
    else if len + n < 0 then 0 else len + n
  }

  /** `df.head(n)`: a prefix of the frame. */
  function Head(t: seq<Record>, n: int): (h: seq<Record>)
    ensures |h| == HeadLength(n, |t|)
    ensures h == t[..|h|]
  {
    t[..HeadLength(n, |t|)]
  }

  /** A prefix of a click order is the top part of it: it is descending,
      made of rows of the input, indexed by rows of the input, and every row
      of the input it leaves out has no more clicks than any row it keeps. */
  lemma PrefixIsTop(data: seq<ApiRow>, t: seq<Record>, m: nat)
    requires IsClickOrder(Frame(data), t) && m <= |t|
    ensures |t| == |data|
    ensures Descending(t[..m])
    ensures multiset(t[..m]) <= multiset(Frame(data))
    ensures forall k :: 0 <= k < m ==> t[k].index < |data| && t[k] == Frame(data)[t[k].index]
    ensures forall a, b :: 0 <= a < b < m ==> t[a].index != t[b].index
    ensures forall i, k :: 0 <= i < |data| && i !in Indices(t[..m]) && 0 <= k < m ==>
      TruncToInt(data[i].clicks) <= t[k].clicks
  {
    var f := Frame(data);
    assert |t| == |multiset(t)| == |multiset(f)| == |f|;
    assert t == t[..m] + t[m..];
    forall k | 0 <= k < m
      ensures t[k].index < |data| && t[k] == f[t[k].index]
    {
      assert t[k] in multiset(f);
      var i :| 0 <= i < |f| && f[i] == t[k];
    }
    forall a, b | 0 <= a < b < m
      ensures t[a].index != t[b].index
    {
      if t[a].index == t[b].index {
        RepeatOccursTwice(t, a, b);
        DistinctOccursOnce(f, t[a]);
        assert false;
      }
    }
    forall i, k | 0 <= i < |data| && i !in Indices(t[..m]) && 0 <= k < m
      ensures TruncToInt(data[i].clicks) <= t[k].clicks
    {
      assert f[i] in multiset(t);
      var j :| 0 <= j < |t| && t[j] == f[i];
      assert j >= m;
    }
  }

  /** `get_top_keywords(data, top_n)`. On an empty list pandas raises a
      `KeyError` for the missing `clicks` column; otherwise the result has
      `head(top_n)` many rows, is ordered by clicks, consists of input rows
      carried whole with their index and keys, none of them twice, and no row left out has more
      clicks than a row kept. */
  function GetTopKeywords(data: seq<ApiRow>, topN: int := DefaultTopN): (r: Result<seq<Record>>)
    ensures r.Err? <==> |data| == 0
    ensures r.Err? ==> r.error == KeyError("clicks")
    ensures r.Ok? ==> |r.value| == HeadLength(topN, |data|)
    ensures r.Ok? ==> Descending(r.value)
    ensures r.Ok? ==> multiset(r.value) <= multiset(Frame(data))
    ensures r.Ok? ==> forall k :: 0 <= k < |r.value| ==>
      r.value[k].index < |data| && r.value[k].keys == data[r.value[k].index].keys &&
      r.value[k].clicks == TruncToInt(data[r.value[k].index].clicks)
    ensures r.Ok? ==> forall a, b :: 0 <= a < b < |r.value| ==> r.value[a].index != r.value[b].index
    ensures r.Ok? ==> forall i, k :: 0 <= i < |data| && i !in Indices(r.value) && 0 <= k < |r.value| ==>
      TruncToInt(data[i].clicks) <= r.value[k].clicks
  {
    if |data| == 0 then Err(KeyError("clicks"))
    else
      var t := SortByClicks(Frame(data));
      PrefixIsTop(data, t, HeadLength(topN, |t|));
      Ok(Head(t, topN))
  }

  /** The first `n` rows of any two click orders of the same rows have the
      same clicks, position by position. */
  lemma HeadClicksAgree(s: seq<Record>, t1: seq<Record>, t2: seq<Record>, n: int)
    requires IsClickOrder(s, t1) && IsClickOrder(s, t2)
    ensures Clicks(Head(t1, n)) == Clicks(Head(t2, n))
  {
    SameClicksAnyOrder(s, t1, t2);
    assert |t1| == |multiset(t1)| == |multiset(t2)| == |t2|;
    assert Clicks(Head(t1, n)) == Clicks(t1)[..|Head(t1, n)|];
    assert Clicks(Head(t2, n)) == Clicks(t2)[..|Head(t2, n)|];
  }

  /** The result's click column is the same whichever order among equal
      clicks the sort leaves: it is the head of every possible click order. */
  lemma TopClicksIndependentOfTies(data: seq<ApiRow>, topN: int, t: seq<Record>)
    requires IsClickOrder(Frame(data), t)
    requires |data| > 0
    ensures GetTopKeywords(data, topN).Ok?
    ensures Clicks(GetTopKeywords(data, topN).value) == Clicks(Head(t, topN))
  {
    HeadClicksAgree(Frame(data), SortByClicks(Frame(data)), t, topN);
  }

  /** With a positive `top_n`, as `main` uses it, the result has exactly
      `min(top_n, len(data))` rows. */
  lemma TopLength(data: seq<ApiRow>, topN: int)
    requires |data| > 0 && topN >= 0
    ensures GetTopKeywords(data, topN).Ok?
    ensures |GetTopKeywords(data, topN).value| == if topN < |data| then topN else |data|
  {
  }

  /** Asking for fewer rows gives a prefix of what asking for more gives. */
  lemma TopIsMonotone(data: seq<ApiRow>, m: nat, n: nat)
    requires |data| > 0 && m <= n
    ensures GetTopKeywords(data, m).Ok? && GetTopKeywords(data, n).Ok?
    ensures GetTopKeywords(data, m).value <= GetTopKeywords(data, n).value
  {
  }

  /** When `top_n` covers the whole input, the result is a reordering of
      the whole frame: every row appears exactly once. */
  lemma TopOfAllIsPermutation(data: seq<ApiRow>, topN: int)
    requires |data| > 0 && topN >= |data|
    ensures GetTopKeywords(data, topN).Ok?
    ensures multiset(GetTopKeywords(data, topN).value) == multiset(Frame(data))
  {
    var t := SortByClicks(Frame(data));
    assert |t| == |multiset(t)| == |multiset(Frame(data))| == |data|;
    assert t[..|t|] == t;
  }
}

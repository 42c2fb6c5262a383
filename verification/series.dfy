/** Column-level operations the trading script borrows from its table library:
    sums and means of closes, the trailing rolling mean, the running sum, and
    row filtering by a keep mask. Prices are exact reals; a cell the library
    would hold as NaN is `None`. */
module Series {

  datatype Option<+T> = None | Some(value: T)

  /** Sum of a column, accumulated from the first row to the last. */
  function Sum(s: seq<real>): real
  {
    if |s| == 0 then 0.0 else Sum(s[..|s| - 1]) + s[|s| - 1]
  }

  /** The same sum, peeled from the front. */
  lemma {:induction false} SumFront(s: seq<real>)
    requires |s| > 0
    ensures Sum(s) == s[0] + Sum(s[1..])
  {
    if |s| == 1 {
      assert s[..0] == [] && s[1..] == [];
    } else {
      var init := s[..|s| - 1];
      SumFront(init);
      assert init[1..] == s[1..][..|s| - 2];
    }
  }

  /** Growing a window by one row at its end adds that row's value. */
  lemma SumExtend(s: seq<real>, lo: nat, hi: nat)
    requires lo <= hi < |s|
    ensures Sum(s[lo..hi + 1]) == Sum(s[lo..hi]) + s[hi]
  {
    assert s[lo..hi + 1][..hi - lo] == s[lo..hi];
  }

  /** Shrinking a window by one row at its start removes that row's value. */
  lemma SumShrink(s: seq<real>, lo: nat, hi: nat)
    requires lo < hi <= |s|
    ensures Sum(s[lo + 1..hi]) == Sum(s[lo..hi]) - s[lo]
  {
    SumFront(s[lo..hi]);
    assert s[lo..hi][1..] == s[lo + 1..hi];
  }

  /** Arithmetic mean of a non-empty window. */
  function Mean(s: seq<real>): real
    requires |s| > 0
  {
    Sum(s) / (|s| as real)
  }

  /** `close.rolling(w).mean()`: at row i the mean of the w closes ending at
      row i inclusive, undefined on the first w - 1 rows. */
  function Rolling(close: seq<real>, w: nat): (ma: seq<Option<real>>)
    requires w >= 1
    ensures |ma| == |close|
  {
    seq(|close|, i requires 0 <= i < |close| =>
      if i + 1 >= w then Some(Mean(close[i + 1 - w..i + 1])) else None)
  }

  /** First row of the running window just before row i is added. */
  function WindowStart(i: nat, w: nat): nat
  {
    if i >= w then i - w else 0
  }

  /** The rolling mean computed the way the library does it: one pass that
      keeps the sum of the current window, adding the entering close and
      subtracting the leaving one. */
  method RollingMean(close: seq<real>, w: nat) returns (ma: seq<Option<real>>)
    requires w >= 1
    ensures |ma| == |close|
    ensures forall i :: 0 <= i < |close| ==> (ma[i].Some? <==> i >= w - 1)
    ensures forall i :: w - 1 <= i < |close| ==> ma[i].value == Mean(close[i + 1 - w..i + 1])
    ensures ma == Rolling(close, w)
  {
    ghost var spec := Rolling(close, w);
    ma := [];
    var total := 0.0;
    var i := 0;
    while i < |close|
      invariant 0 <= i <= |close|
      invariant |ma| == i
      invariant total == Sum(close[WindowStart(i, w)..i])
      invariant ma == spec[..i]
    {
      WindowSlide(close, w, i, total);
      total := total + close[i];
      if i >= w {
        total := total - close[i - w];
      }
      RollingStep(close, w, i, total);
      var cell := if i + 1 >= w then Some(total / (w as real)) else None;
      SliceStep(spec, i);
      ma := ma + [cell];
      i := i + 1;
    }
    assert spec[..i] == spec;
    RollingDefined(close, w);
  }

  /** Proof step for the one-pass loops: a prefix one row longer. */
  lemma SliceStep<T>(s: seq<T>, i: nat)
    requires i < |s|
    ensures s[..i + 1] == s[..i] + [s[i]]
  {
  }

  /** The rolling mean is undefined on exactly the first w - 1 rows and is
      the mean of the w closes ending at each later row. */
  lemma RollingDefined(close: seq<real>, w: nat)
    requires w >= 1
    ensures forall i :: 0 <= i < |close| ==> (Rolling(close, w)[i].Some? <==> i >= w - 1)
    ensures forall i :: w - 1 <= i < |close| ==> Rolling(close, w)[i].value == Mean(close[i + 1 - w..i + 1])
  {
  }

  /** Sliding the window onto row i adds the entering close and, once the
      window is full, subtracts the close that leaves it. */
  lemma WindowSlide(close: seq<real>, w: nat, i: nat, total: real)
    requires w >= 1 && i < |close|
    requires total == Sum(close[WindowStart(i, w)..i])
    ensures Sum(close[WindowStart(i + 1, w)..i + 1])
              == if i >= w then total + close[i] - close[i - w] else total + close[i]
  {
    SumExtend(close, WindowStart(i, w), i);
    if i >= w {
      SumShrink(close, i - w, i + 1);
    }
  }

  /** One row of the running window: once the window holds the w closes
      ending at row i, its sum over w is that row's rolling mean. */
  lemma RollingStep(close: seq<real>, w: nat, i: nat, total: real)
    requires w >= 1 && i < |close|
    requires total == Sum(close[WindowStart(i + 1, w)..i + 1])
    ensures Rolling(close, w)[i] == if i + 1 >= w then Some(total / (w as real)) else None
  {
    if i + 1 >= w {
      assert WindowStart(i + 1, w) == i + 1 - w;
    }
  }

  /** `cumsum`: row i holds the sum of rows 0..i inclusive. */
  function PrefixSums(p: seq<real>): (sums: seq<real>)
    ensures |sums| == |p|
  {
    seq(|p|, i requires 0 <= i < |p| => Sum(p[..i + 1]))
  }

  /** The running sum in one pass, carrying the total so far. */
  method CumulativeSum(p: seq<real>) returns (sums: seq<real>)
    ensures sums == PrefixSums(p)
  {
    sums := [];
    var total := 0.0;
    var i := 0;
    while i < |p|
      invariant 0 <= i <= |p|
      invariant |sums| == i
      invariant total == Sum(p[..i])
      invariant forall j :: 0 <= j < i ==> sums[j] == Sum(p[..j + 1])
    {
      assert p[..i + 1][..i] == p[..i];
      total := total + p[i];
      sums := sums + [total];
      i := i + 1;
    }
  }

  /** The running sum starts at the first row and adds one row at a time. */
  lemma PrefixSumsStep(p: seq<real>)
    ensures |p| > 0 ==> PrefixSums(p)[0] == p[0]
    ensures forall i :: 0 < i < |p| ==> PrefixSums(p)[i] == PrefixSums(p)[i - 1] + p[i]
  {
    if |p| > 0 {
      var first := p[..1];
      assert first[..0] == [] && first[0] == p[0];
      assert Sum(first) == Sum(first[..0]) + first[0];
    }
    forall i | 0 < i < |p|
      ensures PrefixSums(p)[i] == PrefixSums(p)[i - 1] + p[i]
    {
      assert p[..i + 1][..i] == p[..i];
    }
  }

  /** The running sum never falls after row a exactly when no row after a
      has a negative value. */
  lemma RunningSumNonDecreasingIff(p: seq<real>, a: nat)
    ensures (forall i, j :: a <= i < j < |p| ==> PrefixSums(p)[i] <= PrefixSums(p)[j])
        <==> (forall i :: a < i < |p| ==> p[i] >= 0.0)
  {
    PrefixSumsStep(p);
    if forall i :: a < i < |p| ==> p[i] >= 0.0 {
      forall i, j | a <= i < j < |p|
        ensures PrefixSums(p)[i] <= PrefixSums(p)[j]
      {
        RunningSumRises(p, a, i, j);
      }
    } else {
      var i :| a < i < |p| && p[i] < 0.0;
      assert PrefixSums(p)[i - 1] > PrefixSums(p)[i];
    }
  }

  lemma {:induction false} RunningSumRises(p: seq<real>, a: nat, i: nat, j: nat)
    requires a <= i <= j < |p|
    requires forall k :: a < k < |p| ==> p[k] >= 0.0
    ensures PrefixSums(p)[i] <= PrefixSums(p)[j]
    decreases j - i
  {
    if i < j {
      RunningSumRises(p, a, i, j - 1);
      PrefixSumsStep(p);
    }
  }

  /** Number of rows a keep mask retains. */
  function Count(keep: seq<bool>): nat
  {
    if |keep| == 0 then 0 else (if keep[0] then 1 else 0) + Count(keep[1..])
  }

  /** The rows of a column whose mask entry is true, in their original order. */
  function Where<T>(s: seq<T>, keep: seq<bool>): (r: seq<T>)
    requires |s| == |keep|
    ensures |r| == Count(keep)
  {
    if |s| == 0 then [] else (if keep[0] then [s[0]] else []) + Where(s[1..], keep[1..])
  }

  /** A mask that keeps exactly the rows lo..hi keeps exactly that slice. */
  lemma {:induction false} WhereRange<T>(s: seq<T>, keep: seq<bool>, lo: nat, hi: nat)
    requires |s| == |keep| && lo <= hi <= |s|
    requires forall i :: 0 <= i < |keep| ==> (keep[i] <==> lo <= i < hi)
    ensures Where(s, keep) == s[lo..hi]
  {
    if |s| > 0 {
      if lo > 0 {
        WhereRange(s[1..], keep[1..], lo - 1, hi - 1);
        assert s[1..][lo - 1..hi - 1] == s[lo..hi];
      } else if hi > 0 {
        WhereRange(s[1..], keep[1..], 0, hi - 1);
        assert [s[0]] + s[1..][0..hi - 1] == s[0..hi];
      } else {
        WhereRange(s[1..], keep[1..], 0, 0);
      }
    }
  }
}

/** What the strategy's stages promise, stated over the functions of module
    Strategy and proved for every table. */
module StrategyProperties {
  import opened Series
  import opened ColumnNames
  import opened Strategy

  function Min(a: int, b: int): int
  {
    if a <= b then a else b
  }

  /** Adding a fresh signal of window w to n complete rows keeps the last
      n - w + 1 of them (none when w > n) in their order, every existing column
      restricted to those rows, and a new column holding at each row the mean
      of the w closes ending there. */
  lemma SignalOnFreshWindow(t: Table, w: nat)
    requires WellFormed(t) && w >= 1 && ColumnName(w) !in t.columns
    ensures WithSignal(t, w).index == t.index[Min(w - 1, |t.index|)..]
    ensures |WithSignal(t, w).index| == if |t.index| >= w then |t.index| - w + 1 else 0
    ensures forall c :: c in t.columns ==>
              WithSignal(t, w).columns[c] == t.columns[c][Min(w - 1, |t.index|)..]
    ensures forall j :: 0 <= j < |WithSignal(t, w).index| ==>
              WithSignal(t, w).columns[ColumnName(w)][j] == Mean(t.columns[Close][j..j + w])
  {
    FreshSignalRows(t, WithSignal(t, w), ColumnName(w), w);
  }

  /** Proof step for `SignalOnFreshWindow`: the rows a fresh rolling-mean column
      keeps, on the dropped table itself. */
  lemma FreshSignalRows(t: Table, r: Table, name: string, w: nat)
    requires WellFormed(t) && w >= 1 && name !in t.columns
    requires r == DropRows(Table(t.index, t.columns[name := Fill(Rolling(t.columns[Close], w))]),
                           Mask(Rolling(t.columns[Close], w)))
    ensures r.index == t.index[Min(w - 1, |t.index|)..]
    ensures |r.index| == if |t.index| >= w then |t.index| - w + 1 else 0
    ensures forall c :: c in t.columns ==> r.columns[c] == t.columns[c][Min(w - 1, |t.index|)..]
    ensures forall j :: 0 <= j < |r.index| ==> r.columns[name][j] == Mean(t.columns[Close][j..j + w])
  {
    var n, k := |t.index|, Min(w - 1, |t.index|);
    var close := t.columns[Close];
    var ma := Rolling(close, w);
    var wide := Table(t.index, t.columns[name := Fill(ma)]);
    RollingMask(close, w);
    DropRowsRange(wide, Mask(ma), k, n);
    assert r.columns[name] == Fill(ma)[k..n] == Fill(ma)[k..];
    KeptMeans(close, r.columns[name], w);
  }

  /** `dropna` with a mask that keeps exactly rows lo..hi keeps that slice of
      the index and of every column. */
  lemma DropRowsRange(t: Table, keep: seq<bool>, lo: nat, hi: nat)
    requires Aligned(t) && |keep| == |t.index| && lo <= hi <= |t.index|
    requires forall i :: 0 <= i < |keep| ==> (keep[i] <==> lo <= i < hi)
    ensures DropRows(t, keep).index == t.index[lo..hi]
    ensures forall c :: c in t.columns ==> DropRows(t, keep).columns[c] == t.columns[c][lo..hi]
  {
    WhereRange(t.index, keep, lo, hi);
    forall c | c in t.columns
      ensures DropRows(t, keep).columns[c] == t.columns[c][lo..hi]
    {
      WhereRange(t.columns[c], keep, lo, hi);
    }
  }

  /** The rolling mean is defined from row w - 1 on, and only there. */
  lemma RollingMask(close: seq<real>, w: nat)
    requires w >= 1
    ensures forall i :: 0 <= i < |close| ==>
              (Mask(Rolling(close, w))[i] <==> Min(w - 1, |close|) <= i < |close|)
  {
  }

  /** One defined row of the rolling mean, as stored. */
  lemma RollingAt(close: seq<real>, w: nat, i: nat)
    requires w >= 1 && w - 1 <= i < |close|
    ensures Fill(Rolling(close, w))[i] == Mean(close[i + 1 - w..i + 1])
  {
  }

  /** The rolling-mean column with its undefined rows dropped: row j is the
      mean of the w closes starting at row j. */
  lemma KeptMeans(close: seq<real>, kept: seq<real>, w: nat)
    requires w >= 1
    requires kept == Fill(Rolling(close, w))[Min(w - 1, |close|)..]
    ensures |kept| == |close| - Min(w - 1, |close|)
    ensures forall j :: 0 <= j < |kept| ==> kept[j] == Mean(close[j..j + w])
  {
    var k := Min(w - 1, |close|);
    forall j | 0 <= j < |kept|
      ensures kept[j] == Mean(close[j..j + w])
    {
      assert k == w - 1 && k + j + 1 - w == j;
      RollingAt(close, w, k + j);
      assert kept[j] == Fill(Rolling(close, w))[k + j];
    }
  }

  /** Window 1 keeps every row, and its average is the close itself. */
  lemma WindowOneIsClose(t: Table)
    requires WellFormed(t) && ColumnName(1) !in t.columns
    ensures WithSignal(t, 1).index == t.index
    ensures WithSignal(t, 1).columns[ColumnName(1)] == t.columns[Close]
  {
    FreshSignalHolds(t, 1);
    WindowOneRows(t, WithSignal(t, 1), ColumnName(1));
  }

  /** Proof step for `WindowOneIsClose`: window 1 on the tables themselves. */
  lemma WindowOneRows(t: Table, r: Table, name: string)
    requires WellFormed(t) && WellFormed(r) && FreshSignal(t, r, name, 1)
    ensures r.index == t.index && r.columns[name] == t.columns[Close]
  {
    var col, close := r.columns[name], t.columns[Close];
    forall j | 0 <= j < |col|
      ensures col[j] == close[j]
    {
      MeanOfOne(close[j..j + 1]);
    }
  }

  /** Proof step for `WindowOneRows`: the mean of one value is that value. */
  lemma MeanOfOne(s: seq<real>)
    requires |s| == 1
    ensures Mean(s) == s[0]
  {
    assert s[..0] == [];
    assert Sum(s) == Sum(s[..0]) + s[0];
  }

  /** Two fresh, different windows added one after the other: the slow
      average is taken over the rows the fast one left, so the rows kept start
      at (f - 1) + (s - 1), not at the larger window minus one. Both averages
      are still the trailing means of the original closes. */
  lemma TwoSignals(t: Table, f: nat, s: nat)
    requires WellFormed(t) && f >= 1 && s >= 1 && f != s
    requires ColumnName(f) !in t.columns && ColumnName(s) !in t.columns
    ensures var r, k := WithSignal(WithSignal(t, f), s), Min(f - 1 + s - 1, |t.index|);
      && r.index == t.index[k..]
      && (forall c :: c in t.columns ==> r.columns[c] == t.columns[c][k..])
      && (forall j :: 0 <= j < |r.index| ==>
            k + j + 1 >= f && k + j + 1 >= s
            && r.columns[ColumnName(f)][j] == Mean(t.columns[Close][k + j + 1 - f..k + j + 1])
            && r.columns[ColumnName(s)][j] == Mean(t.columns[Close][k + j + 1 - s..k + j + 1]))
  {
    FreshSignalHolds(t, f);
    ColumnNameInjective(f, s);
    FreshSignalHolds(WithSignal(t, f), s);
    ComposeFreshSignals(t, WithSignal(t, f), WithSignal(WithSignal(t, f), s), f, s, ColumnName(f), ColumnName(s));
  }

  /** What adding the fresh signal `name` of window w to t leaves in r; the
      headline statement is `SignalOnFreshWindow`. */
  predicate FreshSignal(t: Table, r: Table, name: string, w: nat)
    requires WellFormed(t) && WellFormed(r) && w >= 1
  {
    && r.columns.Keys == t.columns.Keys + {name}
    && r.index == t.index[Min(w - 1, |t.index|)..]
    && (forall c :: c in t.columns ==> r.columns[c] == t.columns[c][Min(w - 1, |t.index|)..])
    && (forall j :: 0 <= j < |r.index| ==> r.columns[name][j] == Mean(t.columns[Close][j..j + w]))
  }

  /** Proof step for `TwoSignals` and `TradeOnFreshWindows`: `SignalOnFreshWindow` packed as `FreshSignal`. */
  lemma FreshSignalHolds(t: Table, w: nat)
    requires WellFormed(t) && w >= 1 && ColumnName(w) !in t.columns
    ensures FreshSignal(t, WithSignal(t, w), ColumnName(w), w)
  {
    FreshSignalRows(t, WithSignal(t, w), ColumnName(w), w);
  }

  /** Proof step for `TwoSignals`: two fresh signals in a row, on the tables themselves. */
  lemma ComposeFreshSignals(t: Table, t1: Table, r: Table, f: nat, s: nat, fastName: string, slowName: string)
    requires WellFormed(t) && WellFormed(t1) && WellFormed(r) && f >= 1 && s >= 1
    requires FreshSignal(t, t1, fastName, f) && FreshSignal(t1, r, slowName, s)
    ensures var k := Min(f - 1 + s - 1, |t.index|);
      && r.index == t.index[k..]
      && (forall c :: c in t.columns ==> r.columns[c] == t.columns[c][k..])
      && (forall j :: 0 <= j < |r.index| ==>
            k + j + 1 >= f && k + j + 1 >= s
            && r.columns[fastName][j] == Mean(t.columns[Close][k + j + 1 - f..k + j + 1])
            && r.columns[slowName][j] == Mean(t.columns[Close][k + j + 1 - s..k + j + 1]))
  {
    ComposeFreshRows(t, t1, r, f, s, fastName, slowName);
    ComposeFreshMeans(t, t1, r, f, s, fastName, slowName);
  }

  /** Proof step for `ComposeFreshSignals`: the rows two successive fresh signals keep. */
  lemma ComposeFreshRows(t: Table, t1: Table, r: Table, f: nat, s: nat, fastName: string, slowName: string)
    requires WellFormed(t) && WellFormed(t1) && WellFormed(r) && f >= 1 && s >= 1
    requires FreshSignal(t, t1, fastName, f) && FreshSignal(t1, r, slowName, s)
    ensures r.index == t.index[Min(f - 1 + s - 1, |t.index|)..]
    ensures forall c :: c in t.columns ==> r.columns[c] == t.columns[c][Min(f - 1 + s - 1, |t.index|)..]
  {
    var k1, k2 := Min(f - 1, |t.index|), Min(s - 1, |t1.index|);
    assert k1 + k2 == Min(f - 1 + s - 1, |t.index|);
    ComposeTrims(t, t1, r, k1, k2);
  }

  /** Proof step for `ComposeFreshSignals`: both averages after two successive
      fresh signals, in loaded closes. */
  lemma ComposeFreshMeans(t: Table, t1: Table, r: Table, f: nat, s: nat, fastName: string, slowName: string)
    requires WellFormed(t) && WellFormed(t1) && WellFormed(r) && f >= 1 && s >= 1
    requires FreshSignal(t, t1, fastName, f) && FreshSignal(t1, r, slowName, s)
    ensures var k := Min(f - 1 + s - 1, |t.index|);
      forall j :: 0 <= j < |r.index| ==>
        k + j + 1 >= f && k + j + 1 >= s
        && r.columns[fastName][j] == Mean(t.columns[Close][k + j + 1 - f..k + j + 1])
        && r.columns[slowName][j] == Mean(t.columns[Close][k + j + 1 - s..k + j + 1])
  {
    var close, trimmed := t.columns[Close], t1.columns[Close];
    assert |close| == |t.index| && |trimmed| == |t1.index| && |r.columns[fastName]| == |r.index|;
    ComposeMeans(close, trimmed, t1.columns[fastName], r.columns[fastName], r.columns[slowName], f, s);
  }

  /** Two row trims in a row trim the sum of their counts. */
  lemma ComposeTrims(t: Table, t1: Table, r: Table, k1: nat, k2: nat)
    requires t.columns.Keys <= t1.columns.Keys && Aligned(t) && Aligned(t1)
    requires k1 <= |t.index| && t1.index == t.index[k1..]
    requires forall c :: c in t.columns ==> t1.columns[c] == t.columns[c][k1..]
    requires k2 <= |t1.index| && r.index == t1.index[k2..]
    requires forall c :: c in t1.columns ==> c in r.columns && r.columns[c] == t1.columns[c][k2..]
    ensures r.index == t.index[k1 + k2..]
    ensures forall c :: c in t.columns ==> r.columns[c] == t.columns[c][k1 + k2..]
  {
  }

  /** Both averages after two trims, in terms of the loaded closes: each row
      kept still carries the trailing means ending at its own loaded row. */
  lemma ComposeMeans(close: seq<real>, trimmed: seq<real>, fast1: seq<real>, fast: seq<real>, slow: seq<real>,
                     f: nat, s: nat)
    requires f >= 1 && s >= 1
    requires trimmed == close[Min(f - 1, |close|)..] && |fast1| == |trimmed|
    requires forall i :: 0 <= i < |fast1| ==> fast1[i] == Mean(close[i..i + f])
    requires fast == fast1[Min(s - 1, |trimmed|)..] && |slow| == |fast|
    requires forall j :: 0 <= j < |slow| ==> slow[j] == Mean(trimmed[j..j + s])
    ensures var k := Min(f - 1 + s - 1, |close|);
      forall j :: 0 <= j < |fast| ==>
        k + j + 1 >= f && k + j + 1 >= s
        && fast[j] == Mean(close[k + j + 1 - f..k + j + 1])
        && slow[j] == Mean(close[k + j + 1 - s..k + j + 1])
  {
    var k := Min(f - 1 + s - 1, |close|);
    forall j | 0 <= j < |fast|
      ensures k + j + 1 >= f && k + j + 1 >= s
      ensures fast[j] == Mean(close[k + j + 1 - f..k + j + 1])
      ensures slow[j] == Mean(close[k + j + 1 - s..k + j + 1])
    {
      BothWindowsAt(close, trimmed, fast1, fast, slow, f, s, j);
    }
  }

  /** One kept row after two trims: both averages end at the same loaded row. */
  lemma BothWindowsAt(close: seq<real>, trimmed: seq<real>, fast1: seq<real>, fast: seq<real>, slow: seq<real>,
                      f: nat, s: nat, j: nat)
    requires f >= 1 && s >= 1 && f - 1 <= |close|
    requires trimmed == close[f - 1..]
    requires j + s <= |trimmed| && |fast1| == |trimmed|
    requires forall i :: 0 <= i < |fast1| ==> i + f <= |close| && fast1[i] == Mean(close[i..i + f])
    requires fast == fast1[s - 1..] && j < |fast| && j < |slow|
    requires slow[j] == Mean(trimmed[j..j + s])
    ensures fast[j] == Mean(close[j + s - 1..j + s - 1 + f])
    ensures slow[j] == Mean(close[f - 1 + j..f - 1 + j + s])
  {
    assert fast[j] == fast1[s - 1 + j];
    assert trimmed[j..j + s] == close[f - 1 + j..f - 1 + j + s];
  }

  /** `Shares` is 1 exactly on the rows where the fast average is strictly
      above the slow one and 0 on every other row, ties included; nothing else
      in the table is touched by the comparison. */
  lemma SharesFollowCrossover(t: Table, f: nat, s: nat)
    requires WellFormed(t) && f >= 1 && s >= 1
    ensures var r := Trade(t, f, s);
      && |r.columns[Shares]| == |r.index|
      && (forall i :: 0 <= i < |r.index| ==>
            (r.columns[Shares][i] == 1.0 <==> r.columns[ColumnName(f)][i] > r.columns[ColumnName(s)][i])
            && (r.columns[Shares][i] == 0.0 <==> r.columns[ColumnName(f)][i] <= r.columns[ColumnName(s)][i]))
      && (forall c :: c in r.columns && c != Shares ==>
            r.columns[c] == WithSignal(WithSignal(t, f), s).columns[c])
  {
    ColumnNameNotReserved(f);
    ColumnNameNotReserved(s);
  }

  /** The same window for both signals: the second `add_signal` does nothing
      and no row ever holds a share. */
  lemma SameWindowHoldsNothing(t: Table, w: nat)
    requires WellFormed(t) && w >= 1
    ensures Trade(t, w, w).index == WithSignal(t, w).index
    ensures forall i :: 0 <= i < |Trade(t, w, w).index| ==> Trade(t, w, w).columns[Shares][i] == 0.0
  {
    ColumnNameNotReserved(w);
    assert WithSignal(WithSignal(t, w), w) == WithSignal(t, w);
  }

  /** The whole trade on fresh, different windows, in terms of the loaded
      closes: the rows kept and the share held on each. */
  lemma TradeOnFreshWindows(t: Table, f: nat, s: nat)
    requires WellFormed(t) && f >= 1 && s >= 1 && f != s
    requires ColumnName(f) !in t.columns && ColumnName(s) !in t.columns
    ensures var r, k := Trade(t, f, s), Min(f - 1 + s - 1, |t.index|);
      && r.index == t.index[k..]
      && r.columns[Close] == t.columns[Close][k..]
      && (forall j :: 0 <= j < |r.index| ==>
            k + j + 1 >= f && k + j + 1 >= s
            && (r.columns[Shares][j] == 1.0 || r.columns[Shares][j] == 0.0)
            && (r.columns[Shares][j] == 1.0 <==>
                  Mean(t.columns[Close][k + j + 1 - f..k + j + 1])
                    > Mean(t.columns[Close][k + j + 1 - s..k + j + 1])))
  {
    TwoSignals(t, f, s);
    SharesFollowCrossover(t, f, s);
  }

  /** Daily profit on n rows keeps the first n - 1 (none of an empty table),
      gives each the next row's close as `CloseTomorrow`, and earns the move to
      that close when one share is held and exactly 0 otherwise. */
  lemma DailyProfitRows(t: Table)
    requires WellFormed(t) && ProfitComputable(t)
    ensures var r, m := DailyProfit(t), if |t.index| == 0 then 0 else |t.index| - 1;
      && r.index == t.index[..m]
      && (forall c :: c in t.columns && c != CloseTomorrow && c != Profit ==>
            r.columns[c] == t.columns[c][..m])
      && (m > 0 ==> Shares in t.columns)
      && (forall i :: 0 <= i < m ==>
            r.columns[CloseTomorrow][i] == t.columns[Close][i + 1]
            && r.columns[Profit][i] == if t.columns[Shares][i] == 1.0
                                       then t.columns[Close][i + 1] - t.columns[Close][i]
                                       else 0.0)
  {
    var n, close := |t.index|, t.columns[Close];
    var m := if n == 0 then 0 else n - 1;
    var next := NextClose(close);
    var keep := Mask(next);
    var wide := Table(t.index, t.columns[CloseTomorrow := Fill(next)]);
    NextCloseMask(close);
    DropRowsRange(wide, keep, 0, m);
  }

  /** The shifted close is defined on every row but the last. */
  lemma NextCloseMask(close: seq<real>)
    ensures forall i :: 0 <= i < |close| ==> (Mask(NextClose(close))[i] <==> i < |close| - 1)
  {
  }

  /** Wealth keeps every row: the first row's wealth is its profit, and each
      later row adds its profit to the row before. Other columns are kept. */
  lemma WealthIsRunningProfit(t: Table)
    requires Aligned(t) && Profit in t.columns
    ensures var r, p := WithWealth(t), t.columns[Profit];
      && r.index == t.index
      && |r.columns[Wealth]| == |p|
      && (|p| > 0 ==> r.columns[Wealth][0] == p[0])
      && (forall i :: 0 < i < |p| ==> r.columns[Wealth][i] == r.columns[Wealth][i - 1] + p[i])
      && (forall i :: 0 <= i < |p| ==> r.columns[Wealth][i] == Sum(p[..i + 1]))
      && (forall c :: c in t.columns && c != Wealth ==> r.columns[c] == t.columns[c])
  {
    PrefixSumsStep(t.columns[Profit]);
  }

  /** Wealth never falls from row a on exactly when no later day loses money. */
  lemma WealthNonDecreasingIff(t: Table, a: nat)
    requires Aligned(t) && Profit in t.columns
    ensures var w, p := WithWealth(t).columns[Wealth], t.columns[Profit];
      (forall i, j :: a <= i < j < |w| ==> w[i] <= w[j]) <==> (forall i :: a < i < |p| ==> p[i] >= 0.0)
  {
    RunningSumNonDecreasingIff(t.columns[Profit], a);
  }

  /** `trade_and_analyse` on a table without `MA10`/`MA50` columns: the first
      58 rows go to the two averages and the last to the missing next close,
      so n rows leave n - 59 (none when n <= 59); on each, profit follows the
      10-day against the 50-day trailing mean of the loaded closes, and wealth
      is the running sum of profit. */
  lemma AnalyseOnLoadedTable(t: Table)
    requires WellFormed(t)
    requires ColumnName(FastWindow) !in t.columns && ColumnName(SlowWindow) !in t.columns
    ensures |Analyse(t).index| == if |t.index| > 59 then |t.index| - 59 else 0
    ensures var r, n, c := Analyse(t), |t.index|, t.columns[Close];
      && r.index == (if n > 59 then t.index[58..n - 1] else [])
      && (forall j :: 0 <= j < |r.index| ==>
            r.columns[Profit][j] == if Mean(c[49 + j..59 + j]) > Mean(c[9 + j..59 + j])
                                    then c[59 + j] - c[58 + j]
                                    else 0.0)
      && (forall j :: 0 <= j < |r.index| ==> r.columns[Wealth][j] == Sum(r.columns[Profit][..j + 1]))
  {
    var traded := Trade(t, FastWindow, SlowWindow);
    var daily := DailyProfit(traded);
    FreshTradeHolds(t, FastWindow, SlowWindow);
    ProfitStageHolds(traded);
    WealthStageHolds(daily);
    PipelineFacts(t, traded, daily, Analyse(t));
  }

  /** What the profit stage leaves, in terms of the traded table. */
  predicate ProfitStage(traded: Table, daily: Table)
    requires WellFormed(traded) && Shares in traded.columns && Aligned(daily) && Profit in daily.columns
  {
    && daily.index == traded.index[..if |traded.index| == 0 then 0 else |traded.index| - 1]
    && (forall i :: 0 <= i < |daily.index| ==>
          daily.columns[Profit][i] == if traded.columns[Shares][i] == 1.0
                                      then traded.columns[Close][i + 1] - traded.columns[Close][i]
                                      else 0.0)
  }

  /** What the wealth stage leaves, in terms of the table with profits. */
  predicate WealthStage(daily: Table, r: Table)
    requires Aligned(daily) && Profit in daily.columns
  {
    && r.index == daily.index && Profit in r.columns && r.columns[Profit] == daily.columns[Profit]
    && Wealth in r.columns && |r.columns[Wealth]| == |daily.columns[Profit]|
    && (forall i :: 0 <= i < |daily.columns[Profit]| ==>
          r.columns[Wealth][i] == Sum(daily.columns[Profit][..i + 1]))
  }

  /** Proof step for `AnalyseOnLoadedTable`: `DailyProfitRows` packed as `ProfitStage`. */
  lemma ProfitStageHolds(traded: Table)
    requires WellFormed(traded) && Shares in traded.columns
    ensures ProfitStage(traded, DailyProfit(traded))
  {
    DailyProfitRows(traded);
  }

  /** Proof step for `AnalyseOnLoadedTable`: `WealthIsRunningProfit` packed as `WealthStage`. */
  lemma WealthStageHolds(daily: Table)
    requires Aligned(daily) && Profit in daily.columns
    ensures WealthStage(daily, WithWealth(daily))
  {
  }

  /** The three stages' facts chained, on the tables themselves. */
  lemma PipelineFacts(t: Table, traded: Table, daily: Table, r: Table)
    requires WellFormed(t) && WellFormed(traded) && Shares in traded.columns
    requires Aligned(daily) && Profit in daily.columns && Aligned(r)
    requires FreshTrade(t, traded, FastWindow, SlowWindow) && ProfitStage(traded, daily) && WealthStage(daily, r)
    ensures var n, c := |t.index|, t.columns[Close];
      && r.index == (if n > 59 then t.index[58..n - 1] else [])
      && (forall j :: 0 <= j < |r.index| ==>
            r.columns[Profit][j] == if Mean(c[49 + j..59 + j]) > Mean(c[9 + j..59 + j])
                                    then c[59 + j] - c[58 + j]
                                    else 0.0)
      && (forall j :: 0 <= j < |r.index| ==> r.columns[Wealth][j] == Sum(r.columns[Profit][..j + 1]))
  {
    var n, c := |t.index|, t.columns[Close];
    assert Min(FastWindow - 1 + SlowWindow - 1, n) == if n > 58 then 58 else n;
    assert |traded.index| == if n > 58 then n - 58 else 0;
    forall j | 0 <= j < |r.index|
      ensures r.columns[Profit][j] == if Mean(c[49 + j..59 + j]) > Mean(c[9 + j..59 + j])
                                      then c[59 + j] - c[58 + j]
                                      else 0.0
    {
      PipelineProfitAt(t, traded, daily, r, j);
    }
  }

  /** Proof step for `PipelineFacts`: the profit of one kept row. */
  lemma PipelineProfitAt(t: Table, traded: Table, daily: Table, r: Table, j: nat)
    requires WellFormed(t) && WellFormed(traded) && Shares in traded.columns
    requires Aligned(daily) && Profit in daily.columns && Aligned(r)
    requires FreshTrade(t, traded, FastWindow, SlowWindow) && ProfitStage(traded, daily) && WealthStage(daily, r)
    requires j < |r.index|
    ensures 59 + j < |t.index|
    ensures var c := t.columns[Close];
      r.columns[Profit][j] == if Mean(c[49 + j..59 + j]) > Mean(c[9 + j..59 + j])
                              then c[59 + j] - c[58 + j]
                              else 0.0
  {
    assert j < |daily.index| < |traded.index|;
    assert Min(FastWindow - 1 + SlowWindow - 1, |t.index|) == 58;
    assert |traded.index| == |t.index| - 58;
    ProfitAt(t.columns[Close], traded.columns[Close], traded.columns[Shares], daily.columns[Profit], j);
  }

  /** One row of the pipeline's profit, in terms of the loaded closes. */
  lemma ProfitAt(c: seq<real>, close: seq<real>, shares: seq<real>, profit: seq<real>, j: nat)
    requires 58 <= |c| && close == c[58..]
    requires j + 1 < |close| && |shares| == |close| && j < |profit|
    requires shares[j] == 1.0 <==> Mean(c[49 + j..59 + j]) > Mean(c[9 + j..59 + j])
    requires profit[j] == if shares[j] == 1.0 then close[j + 1] - close[j] else 0.0
    ensures profit[j] == if Mean(c[49 + j..59 + j]) > Mean(c[9 + j..59 + j]) then c[59 + j] - c[58 + j] else 0.0
  {
  }

  /** Five loaded days with closes 10, 12, 11, 15, 20. */
  function FiveDays(): Table
  {
    Table(Positions(5), map[Close := [10.0, 12.0, 11.0, 15.0, 20.0]])
  }

  /** The five days traded on windows 2 and 3: the 2-day average drops day 0,
      the 3-day average over what is left drops days 1 and 2, so only days 3
      and 4 remain, and the fast average is above the slow one on both. */
  lemma FiveDayTrade(t: Table, f: nat, s: nat)
    requires t == FiveDays() && f == 2 && s == 3
    ensures var r := Trade(t, f, s);
      && r.index == [3, 4]
      && r.columns[Close] == [15.0, 20.0]
      && r.columns[Shares] == [1.0, 1.0]
  {
    assert t.columns.Keys == {Close};
    ColumnNameNotReserved(f);
    ColumnNameNotReserved(s);
    FreshTradeHolds(t, f, s);
    FiveDayRows(t, Trade(t, f, s), f, s);
  }

  /** What trading on fresh, different windows f and s leaves, in terms of
      the loaded table; the headline statement is `TradeOnFreshWindows`. */
  predicate FreshTrade(t: Table, r: Table, f: nat, s: nat)
    requires WellFormed(t) && WellFormed(r) && Shares in r.columns && f >= 1 && s >= 1
  {
    var k, close := Min(f - 1 + s - 1, |t.index|), t.columns[Close];
    && r.index == t.index[k..]
    && r.columns[Close] == close[k..]
    && (forall j :: 0 <= j < |r.index| ==>
          k + j + 1 >= f && k + j + 1 >= s
          && (r.columns[Shares][j] == 1.0 || r.columns[Shares][j] == 0.0)
          && (r.columns[Shares][j] == 1.0 <==>
                Mean(close[k + j + 1 - f..k + j + 1]) > Mean(close[k + j + 1 - s..k + j + 1])))
  }


  /** Proof step for `AnalyseOnLoadedTable` and `FiveDayTrade`: `TradeOnFreshWindows` packed as `FreshTrade`. */
  lemma FreshTradeHolds(t: Table, f: nat, s: nat)
    requires WellFormed(t) && f >= 1 && s >= 1 && f != s
    requires ColumnName(f) !in t.columns && ColumnName(s) !in t.columns
    ensures FreshTrade(t, Trade(t, f, s), f, s)
  {
    TradeOnFreshWindows(t, f, s);
  }

  /** The five days' trade on the traded table itself. */
  lemma FiveDayRows(t: Table, r: Table, f: nat, s: nat)
    requires WellFormed(t) && WellFormed(r) && Shares in r.columns && f == 2 && s == 3
    requires t.index == Positions(5) && t.columns[Close] == [10.0, 12.0, 11.0, 15.0, 20.0]
    requires FreshTrade(t, r, f, s)
    ensures r.index == [3, 4] && r.columns[Close] == [15.0, 20.0] && r.columns[Shares] == [1.0, 1.0]
  {
    FiveDayMeans(t.columns[Close]);
    assert t.index[3..] == [3, 4];
    assert r.columns[Shares][0] == 1.0 && r.columns[Shares][1] == 1.0;
  }

  lemma FiveDayMeans(close: seq<real>)
    requires close == [10.0, 12.0, 11.0, 15.0, 20.0]
    ensures close[3..] == [15.0, 20.0]
    ensures Mean(close[2..4]) == 13.0 && Mean(close[3..5]) == 17.5
    ensures Mean(close[1..4]) == 38.0 / 3.0 && Mean(close[2..5]) == 46.0 / 3.0
  {
    SumPair(close[2..4]);
    SumPair(close[3..5]);
    SumTriple(close[1..4]);
    SumTriple(close[2..5]);
  }

  /** The traded five days through the profit and wealth stages: day 4 has
      no next close and goes, day 3 holds a share and earns 20 - 15. */
  lemma FiveDayProfit(t: Table, f: nat, s: nat)
    requires t == FiveDays() && f == 2 && s == 3
    ensures var d := DailyProfit(Trade(t, f, s));
      && d.index == [3]
      && d.columns[Profit] == [5.0]
      && WithWealth(d).columns[Wealth] == [5.0]
  {
    FiveDayTrade(t, f, s);
    var traded := Trade(t, f, s);
    ProfitStageHolds(traded);
    WealthStageHolds(DailyProfit(traded));
    FiveDayProfitRows(traded, DailyProfit(traded), WithWealth(DailyProfit(traded)));
  }

  lemma FiveDayProfitRows(traded: Table, daily: Table, r: Table)
    requires WellFormed(traded) && Shares in traded.columns && Aligned(daily) && Profit in daily.columns
    requires traded.index == [3, 4] && traded.columns[Close] == [15.0, 20.0]
    requires traded.columns[Shares] == [1.0, 1.0]
    requires ProfitStage(traded, daily) && WealthStage(daily, r)
    ensures daily.index == [3] && daily.columns[Profit] == [5.0] && r.columns[Wealth] == [5.0]
  {
    var p := daily.columns[Profit];
    assert p[0] == if traded.columns[Shares][0] == 1.0
                   then traded.columns[Close][1] - traded.columns[Close][0]
                   else 0.0;
    assert |p| == 1 && p[0] == 5.0;
    assert p[..1] == [5.0] && Sum(p[..1]) == Sum(p[..1][..0]) + 5.0 && p[..1][..0] == [];
  }

  /** Proof step for `FiveDayMeans`: the sum of two values. */
  lemma SumPair(s: seq<real>)
    requires |s| == 2
    ensures Sum(s) == s[0] + s[1]
  {
    var first := s[..1];
    assert first[..0] == [];
    assert Sum(first) == Sum(first[..0]) + first[0];
  }

  /** Proof step for `FiveDayMeans`: the sum of three values. */
  lemma SumTriple(s: seq<real>)
    requires |s| == 3
    ensures Sum(s) == s[0] + s[1] + s[2]
  {
    SumPair(s[..2]);
  }
}

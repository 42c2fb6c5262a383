/** The long one-share moving-average crossover strategy, stage by stage, as
    functions from the table before a stage to the table after it. The
    in-place class in module DataFrames is proved to follow these. */
module Strategy {
  import opened Series
  import opened ColumnNames

  /** A price table. `index` holds, for each row, its position in the series
      as loaded (it stands for the row's date); every column has one value per
      row. Values are exact reals; `Shares` holds 1.0 or 0.0. */
  datatype Table = Table(index: seq<nat>, columns: map<string, seq<real>>)

  const Close := "Close"
  const Shares := "Shares"
  const CloseTomorrow := "CloseTomorrow"
  const Profit := "Profit"
  const Wealth := "Wealth"

  /** The windows `trade_and_analyse` uses. */
  const FastWindow := 10
  const SlowWindow := 50

  /** Every column is as long as the index. */
  predicate Aligned(t: Table)
  {
    forall c :: c in t.columns ==> |t.columns[c]| == |t.index|
  }

  /** A table the strategy can run on: aligned, with a `Close` column. */
  predicate WellFormed(t: Table)
  {
    Close in t.columns && Aligned(t)
  }

  /** The table as loaded: rows 0..n-1 in order. */
  function Positions(n: nat): (index: seq<nat>)
    ensures |index| == n
    ensures forall i :: 0 <= i < n ==> index[i] == i
  {
    seq(n, i requires 0 <= i < n => i)
  }

  /** Rows whose cell is defined. */
  function Mask(col: seq<Option<real>>): (keep: seq<bool>)
    ensures |keep| == |col|
  {
    seq(|col|, i requires 0 <= i < |col| => col[i].Some?)
  }

  /** A column with its undefined cells given a placeholder; the rows that
      hold one are exactly those `Mask` removes. */
  function Fill(col: seq<Option<real>>): (r: seq<real>)
    ensures |r| == |col|
  {
    seq(|col|, i requires 0 <= i < |col| => if col[i].Some? then col[i].value else 0.0)
  }

  /** `dropna`: keeps the masked rows of the index and of every column. */
  function DropRows(t: Table, keep: seq<bool>): (r: Table)
    requires Aligned(t) && |keep| == |t.index|
    ensures Aligned(r) && r.columns.Keys == t.columns.Keys
    ensures |r.index| == Count(keep)
  {
    Table(Where(t.index, keep), map c | c in t.columns :: Where(t.columns[c], keep))
  }

  /** `add_signal`: a no-op when the column exists; otherwise the rolling mean
      of `Close` is added and every row with an undefined cell is dropped.
      Stored columns never hold undefined cells, so those rows are the ones
      where the new column is undefined. */
  function WithSignal(t: Table, w: nat): (r: Table)
    requires WellFormed(t) && w >= 1
    ensures WellFormed(r)
    ensures r.columns.Keys == t.columns.Keys + {ColumnName(w)}
    ensures ColumnName(w) in t.columns ==> r == t
    ensures |r.index| <= |t.index|
  {
    var name := ColumnName(w);
    if name in t.columns then t
    else
      var ma := Rolling(t.columns[Close], w);
      var r := DropRows(Table(t.index, t.columns[name := Fill(ma)]), Mask(ma));
      CountAtMost(Mask(ma));
      r
  }

  lemma {:induction false} CountAtMost(keep: seq<bool>)
    ensures Count(keep) <= |keep|
  {
    if |keep| > 0 {
      CountAtMost(keep[1..]);
    }
  }

  /** One share held where the fast average is strictly above the slow one. */
  function Holdings(fast: seq<real>, slow: seq<real>): (shares: seq<real>)
    requires |fast| == |slow|
    ensures |shares| == |fast|
  {
    seq(|fast|, i requires 0 <= i < |fast| => if fast[i] > slow[i] then 1.0 else 0.0)
  }

  /** `execute_long_one_share_trade`: both signals added, fast first, then a
      `Shares` column comparing them row by row. */
  function Trade(t: Table, fast: nat, slow: nat): (r: Table)
    requires WellFormed(t) && fast >= 1 && slow >= 1
    ensures WellFormed(r)
    ensures r.columns.Keys == t.columns.Keys + {ColumnName(fast), ColumnName(slow), Shares}
  {
    var s := WithSignal(WithSignal(t, fast), slow);
    Table(s.index, s.columns[Shares := Holdings(s.columns[ColumnName(fast)], s.columns[ColumnName(slow)])])
  }

  /** `Close.shift(-1)`: each row gets the next row's close; the last row has none. */
  function NextClose(close: seq<real>): (next: seq<Option<real>>)
    ensures |next| == |close|
  {
    seq(|close|, i requires 0 <= i < |close| => if i + 1 < |close| then Some(close[i + 1]) else None)
  }

  /** The first half of `calculate_daily_profit`: `CloseTomorrow` added and
      the row without a next close dropped. */
  function WithCloseTomorrow(t: Table): (r: Table)
    requires WellFormed(t)
    ensures WellFormed(r) && CloseTomorrow in r.columns
    ensures r.columns.Keys == t.columns.Keys + {CloseTomorrow}
  {
    var next := NextClose(t.columns[Close]);
    DropRows(Table(t.index, t.columns[CloseTomorrow := Fill(next)]), Mask(next))
  }

  /** The shift and drop leave every row but the last. */
  lemma CloseTomorrowRows(t: Table)
    requires WellFormed(t)
    ensures |WithCloseTomorrow(t).index| == if |t.index| == 0 then 0 else |t.index| - 1
  {
    var n := |t.index|;
    WhereRange(t.index, Mask(NextClose(t.columns[Close])), 0, if n == 0 then 0 else n - 1);
  }

  /** The price change a row earns: the move to the next close when one share
      is held, exactly zero otherwise. */
  function GatedProfit(shares: seq<real>, close: seq<real>, closeTomorrow: seq<real>): (profit: seq<real>)
    requires |shares| == |close| == |closeTomorrow|
    ensures |profit| == |close|
  {
    seq(|close|, i requires 0 <= i < |close| =>
      if shares[i] == 1.0 then closeTomorrow[i] - close[i] else 0.0)
  }

  /** `calculate_daily_profit` looks `Shares` up once per remaining row, so it
      fails for a missing `Shares` column only when a row remains. */
  predicate ProfitComputable(t: Table)
  {
    Shares in t.columns || |t.index| <= 1
  }

  /** `calculate_daily_profit` when it completes. */
  function DailyProfit(t: Table): (r: Table)
    requires WellFormed(t) && ProfitComputable(t)
    ensures WellFormed(r) && Profit in r.columns
    ensures r.columns.Keys == t.columns.Keys + {CloseTomorrow, Profit}
  {
    var s := WithCloseTomorrow(t);
    var shares := if Shares in s.columns then s.columns[Shares] else [];
    assert |s.index| == 0 || Shares in s.columns by {
      CloseTomorrowRows(t);
    }
    Table(s.index, s.columns[Profit := GatedProfit(shares, s.columns[Close], s.columns[CloseTomorrow])])
  }

  /** `calculate_wealth`: the running sum of `Profit`. */
  function WithWealth(t: Table): (r: Table)
    requires Aligned(t) && Profit in t.columns
    ensures Aligned(r) && r.index == t.index
    ensures r.columns.Keys == t.columns.Keys + {Wealth}
  {
    Table(t.index, t.columns[Wealth := PrefixSums(t.columns[Profit])])
  }

  /** `trade_and_analyse` without reading the file and drawing the charts. */
  function Analyse(t: Table): (r: Table)
    requires WellFormed(t)
    ensures WellFormed(r) && Profit in r.columns && Wealth in r.columns
  {
    WithWealth(DailyProfit(Trade(t, FastWindow, SlowWindow)))
  }
}

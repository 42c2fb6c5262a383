/** The working table of `scripts/module_1.py`, updated in place by each stage
    of the strategy. Each method's new state is the matching function of
    module Strategy applied to its old state. */
module DataFrames {
  import opened Series
  import opened ColumnNames
  import opened Strategy

  class Frame {
    var index: seq<nat>
    var columns: map<string, seq<real>>

    ghost predicate Valid()
      reads this
    {
      WellFormed(Value())
    }

    /** The table this object currently holds. */
    function Value(): Table
      reads this
    {
      Table(index, columns)
    }

    /** The table as loaded from a price file: its columns, rows in file order. */
    constructor Load(raw: map<string, seq<real>>)
      requires Close in raw
      requires forall c :: c in raw ==> |raw[c]| == |raw[Close]|
      ensures Valid()
      ensures index == Positions(|raw[Close]|) && columns == raw
    {
      index := Positions(|raw[Close]|);
      columns := raw;
    }

    /** `df.dropna(inplace=True)` for a mask of the rows to keep. */
    method DropRowsInPlace(keep: seq<bool>)
      requires Aligned(Value()) && |keep| == |index|
      modifies this
      ensures Value() == DropRows(old(Value()), keep)
    {
      index := Where(index, keep);
      columns := map c | c in columns :: Where(columns[c], keep);
    }

    /** `add_signal`. */
    method AddSignal(window: nat)
      requires Valid() && window >= 1
      modifies this
      ensures Valid()
      ensures Value() == WithSignal(old(Value()), window)
      ensures ColumnName(window) in old(columns) ==> index == old(index) && columns == old(columns)
    {
      var name := ColumnName(window);
      if name in columns {
        return;
      }
      var ma := RollingMean(columns[Close], window);
      columns := columns[name := Fill(ma)];
      DropRowsInPlace(Mask(ma));
    }

    /** `execute_long_one_share_trade`. */
    method ExecuteLongOneShareTrade(fast: nat, slow: nat)
      requires Valid() && fast >= 1 && slow >= 1
      modifies this
      ensures Valid()
      ensures Value() == Trade(old(Value()), fast, slow)
    {
      AddSignal(fast);
      AddSignal(slow);
      var shares := CompareSignals(columns[ColumnName(fast)], columns[ColumnName(slow)]);
      columns := columns[Shares := shares];
    }

    /** `calculate_daily_profit`; `ok` is false where the script raises a
        KeyError for the missing `Shares` column, after the shift and the
        drop have already been applied. */
    method CalculateDailyProfit() returns (ok: bool)
      requires Valid()
      modifies this
      ensures Valid()
      ensures ok == ProfitComputable(old(Value()))
      ensures ok ==> Value() == DailyProfit(old(Value()))
      ensures !ok ==> Value() == WithCloseTomorrow(old(Value()))
    {
      ghost var before := Value();
      var next := NextClose(columns[Close]);
      columns := columns[CloseTomorrow := Fill(next)];
      DropRowsInPlace(Mask(next));
      assert Value() == WithCloseTomorrow(before);
      CloseTomorrowRows(before);
      if Shares !in columns && |index| > 0 {
        assert !ProfitComputable(before);
        return false;
      }
      var shares := if Shares in columns then columns[Shares] else [];
      var profit := BookProfit(shares, columns[Close], columns[CloseTomorrow]);
      columns := columns[Profit := profit];
      ok := true;
    }

    /** `calculate_wealth`; `ok` is false where the script raises a KeyError
        for the missing `Profit` column, and then nothing changes. */
    method CalculateWealth() returns (ok: bool)
      requires Valid()
      modifies this
      ensures Valid()
      ensures ok == (Profit in old(columns))
      ensures ok ==> Value() == WithWealth(old(Value()))
      ensures !ok ==> index == old(index) && columns == old(columns)
    {
      if Profit !in columns {
        return false;
      }
      var wealth := CumulativeSum(columns[Profit]);
      columns := columns[Wealth := wealth];
      ok := true;
    }

    /** `trade_and_analyse` after the file is read, without the charts. The
        earlier stages always leave the columns the later ones look up. */
    method TradeAndAnalyse()
      requires Valid()
      modifies this
      ensures Valid()
      ensures Value() == Analyse(old(Value()))
    {
      ExecuteLongOneShareTrade(FastWindow, SlowWindow);
      var profitOk := CalculateDailyProfit();
      var wealthOk := CalculateWealth();
      assert profitOk && wealthOk;
    }
  }

  /** The `Shares` comprehension of `execute_long_one_share_trade`: one
      share on each row where the fast average is strictly above the slow one. */
  method CompareSignals(fast: seq<real>, slow: seq<real>) returns (shares: seq<real>)
    requires |fast| == |slow|
    ensures |shares| == |fast|
    ensures forall i :: 0 <= i < |fast| ==> (shares[i] == 1.0 <==> fast[i] > slow[i])
    ensures forall i :: 0 <= i < |fast| ==> (shares[i] == 0.0 <==> fast[i] <= slow[i])
    ensures shares == Holdings(fast, slow)
  {
    shares := [];
    var i := 0;
    while i < |fast|
      invariant 0 <= i <= |fast|
      invariant shares == Holdings(fast, slow)[..i]
    {
      assert Holdings(fast, slow)[..i + 1] == shares + [Holdings(fast, slow)[i]];
      shares := shares + [if fast[i] > slow[i] then 1.0 else 0.0];
      i := i + 1;
    }
    assert Holdings(fast, slow)[..i] == Holdings(fast, slow);
  }

  /** The `Profit` comprehension of `calculate_daily_profit`: the move to the
      next close on rows holding one share, exactly 0 elsewhere. */
  method BookProfit(shares: seq<real>, close: seq<real>, closeTomorrow: seq<real>) returns (profit: seq<real>)
    requires |shares| == |close| == |closeTomorrow|
    ensures |profit| == |close|
    ensures forall i :: 0 <= i < |close| ==>
              profit[i] == if shares[i] == 1.0 then closeTomorrow[i] - close[i] else 0.0
    ensures profit == GatedProfit(shares, close, closeTomorrow)
  {
    profit := [];
    var i := 0;
    while i < |close|
      invariant 0 <= i <= |close|
      invariant profit == GatedProfit(shares, close, closeTomorrow)[..i]
    {
      assert GatedProfit(shares, close, closeTomorrow)[..i + 1]
          == profit + [GatedProfit(shares, close, closeTomorrow)[i]];
      profit := profit + [if shares[i] == 1.0 then closeTomorrow[i] - close[i] else 0.0];
      i := i + 1;
    }
    assert GatedProfit(shares, close, closeTomorrow)[..i] == GatedProfit(shares, close, closeTomorrow);
  }
}

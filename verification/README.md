# Moving-average crossover strategy

A Dafny model of the trading pipeline in `scripts/module_1.py`. The script
loads a table of daily closing prices and runs a long one-share
moving-average crossover strategy on it:

- `add_signal` adds a trailing rolling mean of `Close`, in a column named
  `MA<window>`, and drops every row that now has an undefined value;
- `execute_long_one_share_trade` adds the fast signal, then the slow one,
  and holds one share (`Shares` = 1) on each row where the fast average is
  strictly above the slow one;
- `calculate_daily_profit` shifts `Close` up one row into `CloseTomorrow`,
  drops the last row, and books `CloseTomorrow - Close` as `Profit` on rows
  holding a share and 0 elsewhere;
- `calculate_wealth` stores the running sum of `Profit` as `Wealth`;
- `trade_and_analyse` runs the stages above with windows 10 and 50.

Modules:

- `Series` (`series.dfy`): column arithmetic. It covers sums and means, the
  trailing rolling mean and the running sum (each a specification function
  plus a one-pass loop proved equal to it), and row filtering by a keep mask.
- `ColumnNames` (`column_names.dfy`): the signal column name, with the
  window written the way Python formats an int. It proves that the name
  reads back to its window.
- `Strategy` (`strategy.dfy`): a price table as a value. It is
  `Table(index, columns)`, where `index` holds each row's position in the
  series as loaded and stands for its date. Each stage of the script is a
  function from the table before that stage to the table after it.
- `DataFrames` (`data_frame.dfy`): class `Frame`, the table the script
  mutates in place. Each stage is a method that reassigns the frame's
  fields, and its contract says the new state is the matching `Strategy`
  function of the old state.
- `StrategyProperties` (`properties.dfy`): what the stages promise, proved
  for all tables. It covers:
  - which rows survive and what each new column holds, in terms of the
    loaded closes;
  - the crossover rule;
  - the profit and wealth laws;
  - the whole pipeline with windows 10 and 50;
  - a worked five-day example.

Undefined values only arise briefly, in the fresh rolling mean and in the
shifted close. They are modelled as `Option` cells. The `dropna` that
follows removes exactly the rows where the new column is `None`, and the
column stored afterwards holds no undefined cell. Prices are exact reals.

Two facts follow from the code and are proved here:

- The slow average is computed after the fast signal's `dropna` has already
  trimmed the table. Two fresh windows `f != s` therefore keep the loaded
  rows from `(f - 1) + (s - 1)` on, not from `max(f, s) - 1`. Both averages
  on a kept row are still the trailing means of the loaded closes ending at
  that row (`TwoSignals`).
- Closes 10, 12, 11, 15, 20 traded on windows 2 and 3 keep only rows 3
  and 4, not rows 2 to 4 as `max(f, s) - 1` would suggest (`FiveDayTrade`).
  Both kept rows hold a share. The last row then has no next close, which
  leaves a single profit of 20 - 15 = 5 and a wealth of 5 (`FiveDayProfit`).

## Model

| member | source | states |
|---|---|---|
| ColumnNames.ColumnName | scripts/module_1.py:24-28 | The name of a signal column is "MA" followed by at least one further character. |
| ColumnNames.Decimal | scripts/module_1.py:28 | Python's decimal text of a natural number is non-empty and made of the digits 0 to 9 only. |
| ColumnNames.DecimalLeadingDigit | scripts/module_1.py:28 | That text starts with 0 exactly when the number is 0, so it has no leading zeros. |
| ColumnNames.IntText | scripts/module_1.py:28 | Python's text of an int is non-empty and starts with a minus sign exactly when the int is negative. |
| ColumnNames.DecimalRoundTrip | scripts/module_1.py:28 | Reading the decimal digits written for a window gives the window back. |
| ColumnNames.IntTextRoundTrip | scripts/module_1.py:28 | Python's text of any int, minus sign included, reads back to that int. |
| ColumnNames.ColumnNameInjective | scripts/module_1.py:24-28 | Two windows get the same column name exactly when they are equal. |
| ColumnNames.ColumnNameNotReserved | scripts/module_1.py:28 | A signal column's name never collides with `Close`, `Shares`, `CloseTomorrow`, `Profit` or `Wealth`. |
| Series.RollingMean | scripts/module_1.py:43 | The one-pass rolling mean is undefined on exactly the first w - 1 rows. On each later row it is the mean of the w closes ending there. It equals `Rolling`. |
| Series.CumulativeSum | scripts/module_1.py:89 | The one-pass running sum equals `PrefixSums`: row i holds the sum of rows 0..i. |
| Series.PrefixSumsStep | scripts/module_1.py:89 | The running sum starts with the first value and adds one value per row. |
| Series.RunningSumNonDecreasingIff | scripts/module_1.py:89 | A running sum never falls from row a on exactly when no value after row a is negative. |
| Series.Rolling | scripts/module_1.py:43 | The rolling mean has one entry per close. What each entry holds is stated by `Series.RollingDefined`. |
| Series.RollingDefined | scripts/module_1.py:43 | The rolling mean is undefined exactly on rows below w - 1. On every later row it is the mean of the w closes ending there. |
| Series.WindowSlide | scripts/module_1.py:43 | Moving the window one row on adds the entering close and, once the window is full, subtracts the close that leaves it. |
| Series.RollingStep | scripts/module_1.py:43 | Given the total of the window ending at row i, the rolling mean there is that total over w once w rows are available, and undefined before. |
| Series.PrefixSums | scripts/module_1.py:89 | The running sum has one entry per value. What each entry holds is stated by `Series.PrefixSumsStep` and `Series.CumulativeSum`. |
| Series.SumFront | scripts/module_1.py:43 | A window's sum is its first value plus the sum of the rest. |
| Series.SumExtend | scripts/module_1.py:43 | Extending a window by one row at its end adds that row's value. |
| Series.SumShrink | scripts/module_1.py:43 | Removing a window's first row subtracts that row's value. |
| Series.Where | scripts/module_1.py:44 | Filtering keeps as many rows as the mask marks. |
| Series.WhereRange | scripts/module_1.py:44 | A mask marking exactly rows lo..hi - 1 keeps exactly that slice, in order. |
| Strategy.Mask | scripts/module_1.py:44 | The `dropna` mask has one flag per row. Which rows it marks is stated by `StrategyProperties.RollingMask` and `StrategyProperties.NextCloseMask`. |
| Strategy.Fill | scripts/module_1.py:43 | The stored column has one value per row. Its value on each kept row is stated by `StrategyProperties.RollingAt`. |
| Strategy.DropRows | scripts/module_1.py:44 | `dropna` keeps every column and leaves every column as long as the index. |
| Strategy.WithSignal | scripts/module_1.py:31-45 | Adding a signal yields a well-formed table whose columns gain only the signal's name. The table is unchanged when that column already exists. No rows are added. |
| Strategy.Holdings | scripts/module_1.py:62-64 | The share list has one entry per row. Its 1/0 rule is stated by `DataFrames.CompareSignals` and `StrategyProperties.SharesFollowCrossover`. |
| Strategy.Trade | scripts/module_1.py:48-65 | Trading yields a well-formed table whose columns gain exactly the two signals and `Shares`. |
| Strategy.WithCloseTomorrow | scripts/module_1.py:72-73 | The shift and drop yield a well-formed table that gains only `CloseTomorrow`. |
| Strategy.NextClose | scripts/module_1.py:72 | The shifted close has one entry per row. Which entries are defined is stated by `StrategyProperties.NextCloseMask`. |
| Strategy.CloseTomorrowRows | scripts/module_1.py:72-73 | The shift and the drop leave n - 1 of n rows, and none of none. |
| Strategy.GatedProfit | scripts/module_1.py:74-81 | The profit list has one entry per row. Its per-row rule is stated by `DataFrames.BookProfit` and `StrategyProperties.DailyProfitRows`. |
| Strategy.DailyProfit | scripts/module_1.py:68-82 | When `Shares` can be looked up, the profit stage yields a well-formed table that gains exactly `CloseTomorrow` and `Profit`. |
| Strategy.WithWealth | scripts/module_1.py:85-90 | The wealth stage keeps the rows and gains only `Wealth`. |
| Strategy.Analyse | scripts/module_1.py:116-126 | The three modelled stages on windows 10 and 50 are defined on every well-formed loaded table and leave a well-formed table with `Profit` and `Wealth` columns. |
| DataFrames.Frame.AddSignal | scripts/module_1.py:31-45 | In place, the frame becomes `WithSignal` of its old state. An existing signal column leaves rows and columns untouched. |
| DataFrames.Frame.DropRowsInPlace | scripts/module_1.py:44 | In place, the frame becomes `DropRows` of its old state. |
| DataFrames.Frame.ExecuteLongOneShareTrade | scripts/module_1.py:48-65 | In place, the frame becomes `Trade` of its old state. The per-row share loop is `DataFrames.CompareSignals`. |
| DataFrames.Frame.CalculateDailyProfit | scripts/module_1.py:68-82 | It fails exactly when `Shares` is missing and a row survives the drop. On failure the shift and drop stay applied. On success the frame becomes `DailyProfit` of its old state, with the per-row profit loop in `DataFrames.BookProfit`. |
| DataFrames.Frame.CalculateWealth | scripts/module_1.py:85-90 | It fails, changing nothing, exactly when `Profit` is missing. Otherwise the frame becomes `WithWealth` of its old state, computed by `CumulativeSum`. |
| DataFrames.Frame.TradeAndAnalyse | scripts/module_1.py:116-126 | The three stages in place, with windows 10 and 50, leave the frame as `Analyse` of its old state. Neither lookup fails. |
| DataFrames.CompareSignals | scripts/module_1.py:62-64 | The share loop gives one entry per row. An entry is 1 exactly when fast > slow strictly, and 0 exactly when fast <= slow. The result is `Holdings`. |
| DataFrames.BookProfit | scripts/module_1.py:74-81 | The profit loop gives one entry per row: the move to the next close where the share is 1, and 0 elsewhere. The result is `GatedProfit`. |
| DataFrames.Frame.Load | scripts/module_1.py:121 | A loaded table with `Close` and equal-length columns is well formed, with its rows in file order. |
| StrategyProperties.SignalOnFreshWindow | scripts/module_1.py:43-44 | A fresh window w on n rows keeps the last max(0, n - w + 1) rows in order. Every existing column, `Close` included, keeps its values on those rows. The new column holds, on each kept row, the mean of the w closes ending there. |
| StrategyProperties.FreshSignalRows | scripts/module_1.py:43-44 | The same facts about the rows kept, stated on the dropped table itself. |
| StrategyProperties.DropRowsRange | scripts/module_1.py:44 | A mask marking exactly rows lo..hi - 1 keeps exactly that slice of the index and of every column. |
| StrategyProperties.RollingMask | scripts/module_1.py:43-44 | The `dropna` mask of a fresh rolling mean over n rows marks exactly the rows from min(w - 1, n) on. |
| StrategyProperties.RollingAt | scripts/module_1.py:43 | The stored rolling mean on a row from w - 1 on is the mean of the w closes ending at that row. |
| StrategyProperties.FreshSignalHolds | scripts/module_1.py:43-44 | A fresh signal gains only its own column and keeps the index and every old column from row min(w - 1, n) on. The new column holds the mean of the w loaded closes ending at each kept row. |
| StrategyProperties.KeptMeans | scripts/module_1.py:43-44 | After the drop, the rolling-mean column has n - min(w - 1, n) rows. Row j is the mean of closes j..j + w - 1. |
| StrategyProperties.WindowOneIsClose | scripts/module_1.py:43-44 | Window 1 keeps every row, and its average is the close itself. |
| StrategyProperties.WindowOneRows | scripts/module_1.py:43-44 | The same on the tables themselves: window 1 keeps the index, and its column equals `Close`. |
| StrategyProperties.TwoSignals | scripts/module_1.py:43-56 | Two fresh, different windows f and s keep the loaded rows from (f - 1) + (s - 1) on, with every column a suffix. Both averages are trailing means of the loaded closes. |
| StrategyProperties.ComposeFreshSignals | scripts/module_1.py:55-56 | Two successive fresh signals compose into one trim, with both means in terms of the loaded closes. |
| StrategyProperties.ComposeFreshRows | scripts/module_1.py:55-56 | Two fresh signals in a row keep the index and every loaded column from row (f - 1) + (s - 1) on. |
| StrategyProperties.ComposeFreshMeans | scripts/module_1.py:55-56 | After two fresh signals, both averages on each kept row are the trailing means of the loaded closes ending at that row. |
| StrategyProperties.ComposeTrims | scripts/module_1.py:44 | Two successive trims of k1 and k2 leading rows remove k1 + k2 rows. |
| StrategyProperties.ComposeMeans | scripts/module_1.py:43-56 | After two trims, both averages on each row end at that row's loaded close. |
| StrategyProperties.BothWindowsAt | scripts/module_1.py:43-56 | On one kept row, the fast and the slow window end at the same loaded row. |
| StrategyProperties.SharesFollowCrossover | scripts/module_1.py:62-64 | `Shares` is 1 exactly where fast > slow strictly, and 0 exactly where fast <= slow (ties give 0). The comparison changes no other column. No order between the windows is required. |
| StrategyProperties.SameWindowHoldsNothing | scripts/module_1.py:37-64 | Equal windows leave the rows of a single signal, and no row holds a share. |
| StrategyProperties.TradeOnFreshWindows | scripts/module_1.py:48-65 | Trading on fresh, different windows keeps the loaded rows from (f - 1) + (s - 1) on. Each row's share is 1 or 0, and it is 1 exactly when the fast trailing mean of the loaded closes exceeds the slow one. |
| StrategyProperties.NextCloseMask | scripts/module_1.py:72-73 | The `dropna` mask after the shift marks exactly every row but the last. |
| StrategyProperties.DailyProfitRows | scripts/module_1.py:72-81 | The profit stage on n rows keeps the first n - 1, with every other column a prefix. `CloseTomorrow` is the next row's close. `Profit` is that move when one share is held and exactly 0 otherwise. |
| StrategyProperties.WealthIsRunningProfit | scripts/module_1.py:89 | Wealth keeps the rows. It starts at the first profit, adds each row's profit to the row before, equals the sum of the profits up to each row, and leaves the other columns alone. |
| StrategyProperties.WealthNonDecreasingIff | scripts/module_1.py:89 | Wealth never falls from row a on exactly when no profit after row a is negative. |
| StrategyProperties.AnalyseOnLoadedTable | scripts/module_1.py:116-126 | On n loaded rows without `MA10`/`MA50`, the pipeline keeps loaded rows 58..n - 2 (none when n <= 59). Row j's profit is close[59 + j] - close[58 + j] when the 10-day mean ending at loaded row 58 + j exceeds the 50-day mean, else 0. Wealth is the running sum of profit. |
| StrategyProperties.FreshTradeHolds | scripts/module_1.py:48-65 | Trading on fresh, different windows f and s keeps the index and `Close` from row (f - 1) + (s - 1) on. Each share is 1 or 0, and it is 1 exactly when the fast trailing mean of the loaded closes exceeds the slow one. |
| StrategyProperties.ProfitStageHolds | scripts/module_1.py:123 | The profit stage leaves all rows but the last, with each profit gated by that row's share. |
| StrategyProperties.WealthStageHolds | scripts/module_1.py:125 | The wealth stage keeps profit and adds its running sum. |
| StrategyProperties.PipelineFacts | scripts/module_1.py:122-125 | The three stages' facts chain into each row's profit in terms of the loaded closes. |
| StrategyProperties.PipelineProfitAt | scripts/module_1.py:122-125 | One row of that chain. |
| StrategyProperties.ProfitAt | scripts/module_1.py:74-81 | One row's profit restated on the loaded closes. |
| StrategyProperties.FiveDayTrade | scripts/module_1.py:48-65 | Closes 10, 12, 11, 15, 20 traded on windows 2 and 3 keep rows 3 and 4. Their closes are 15 and 20, and both hold a share. |
| StrategyProperties.FiveDayRows | scripts/module_1.py:48-65 | The same example on the columns themselves. |
| StrategyProperties.FiveDayMeans | scripts/module_1.py:43 | The example's 2-day means are 13 and 17.5, and its 3-day means are 38/3 and 46/3. |
| StrategyProperties.FiveDayProfit | scripts/module_1.py:68-90 | The example's profit stage keeps row 3 only, with profit 5 and wealth 5. |
| StrategyProperties.FiveDayProfitRows | scripts/module_1.py:74-89 | The same on the columns themselves. |

## Left out

- Reading the CSV file (`read_csv`, `scripts/module_1.py:13-21`) is I/O. A loaded table is given as columns of reals. Dates are represented only by row positions, which are unique, so duplicate-date `.loc` lookups are not modelled.
- Plotting (`display_profit`, `display_wealth`, `scripts/module_1.py:93-113`) is left out, including the rounding of the final wealth in a chart title. `trade_and_analyse` (`scripts/module_1.py:116-126`) calls the plots between the stages: `display_profit` after `calculate_daily_profit` and before `calculate_wealth`, and `display_wealth` last. `Strategy.Analyse` and `DataFrames.Frame.TradeAndAnalyse` chain the three stages without the `display_profit` call in between, which only reads `Profit` and leaves the table unchanged. On a table of 59 rows or fewer the stages leave no row (`StrategyProperties.AnalyseOnLoadedTable`), and `display_wealth` then raises an `IndexError` at `df.index[-1]` (`scripts/module_1.py:111`), so `trade_and_analyse` as a whole fails on such tables. The three modelled stages themselves complete on every well-formed loaded table.
- `main` and its company and file names (`scripts/module_1.py:129-139`) are left out, as are all logger calls. `scripts/common.py` is not part of this model.
- Prices are exact reals: IEEE rounding in the rolling mean, the differences and the running sum is not modelled. An undefined cell is `None` rather than NaN.
- Windows below 1, which pandas rejects or treats specially, are excluded by a precondition.
- Missing values already present in the loaded columns are not modelled. They would also be removed by `dropna`. The loaded columns are taken to be complete.
- `Shares` is stored as the reals 1.0 and 0.0 rather than as ints, so every column has one type. The profit test compares against 1.0.
- DataFrames.Frame.Load: loading requires a `Close` column, which every later stage looks up. Without one the script fails at its first lookup, and that failure is not modelled.

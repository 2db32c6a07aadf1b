# Quantitative risk engine, modelled in Dafny

This project models the risk engine of the Quantitative Risk Dashboard: the
`VaREngine` class in `src/engine/var_engine.py`. It takes a position book and
a table of per-instrument periodic returns and produces these risk numbers:

- market-value weights and the portfolio return series;
- historical Value-at-Risk (VaR) and expected shortfall (ES);
- rolling VaR and the breach backtest;
- the Euler decomposition of portfolio volatility;
- the compounded cumulative return and the drawdown.

Everything is modelled over exact reals and indexed by position.

The project has four modules, one file each:

- `series.dfy`, module `Series`: the sequence arithmetic that numpy and pandas
  supply in the source. It covers sums, the ascending sort behind
  `np.percentile`, numpy's default linear-interpolation percentile, the
  boolean-mask tail `pr[pr <= v]` and its mean, the sum of a boolean mask, and
  `cumprod` and `cummax`.
- `risk.dfy`, module `Risk`: the measures the engine derives from a portfolio
  return series. These are `historical_var`, `rolling_var`, `backtest_var`,
  `cumulative_returns` and `drawdown`, each as a function of the series.
- `decomposition.dfy`, module `Decomposition`: dot products,
  `cov @ w`, `w.T @ cov`, the component contributions, the Euler identity,
  and the descending sort of the labelled contributions.
- `engine.dfy`, module `VarEngine`: positions, the return table and the engine
  itself. The engine is a value; the source never changes its two fields.
  - The weights and `_portfolio_returns` steps are methods with loops.
    `_portfolio_returns` adds `w * column` into a zero series in place, and
    the model does this on an array.
  - The engine methods come next. Each one calls `PortfolioReturns` and then
    applies the matching function of `Risk`.
  - `ComponentVar` calls the weights loop and then the decomposition.

How the source's inputs are treated:

- It validates nothing and raises no errors of its own. Where it would divide
  by zero, index a missing column, pass numpy an out-of-range percentile, or
  take the percentile of an empty series, the model has a `requires` clause
  instead.
- The square root of the portfolio variance is a parameter `s` of
  `ComponentVar`, with `s > 0` and `s * s` equal to the variance.
- The covariance matrix (`returns.cov()`) is also a parameter. It is an
  unlabelled square matrix, and `ComponentVar` reads its rows and columns in
  the book's row order. That alignment is assumed of the `cov` argument, not
  required by any clause; the source assumes it in the same way, without
  checking it.

Confidence levels, windows and errors as the code handles them:

- The code passes `(1 - c) * 100` to `np.percentile`, which accepts any value
  in [0, 100]. So the historical, rolling and backtest members require
  `0 <= confidence <= 1`.
- pandas' `rolling` accepts a window of 0, but then no window holds data for a
  percentile. The model requires `window >= 1`, the smallest window that
  yields VaR entries.
- The code raises no error for an empty ES tail, and
  `Risk.HistoricalVarBounds` proves that the tail is never empty.
- The code raises no error for an unweighable book or a missing instrument.
  These cases appear as the preconditions `Weighable` and `Covers`.

## Model

| member | source | states |
|---|---|---|
| `VarEngine.WeightsOf` | src/engine/var_engine.py:11-17 | one weight per row, each equal to quantity × price / total value; for a non-empty book the weights sum to exactly 1; with a positive total a weight is negative exactly when the position's market value is negative (a short) |
| `VarEngine.Weights` | src/engine/var_engine.py:11-17 | the `iterrows` loop yields exactly `WeightsOf`, in row order |
| `VarEngine.AddScaledColumn` | src/engine/var_engine.py:20-21 | `port_returns += w * returns[inst]` in place: every entry gains w times the matching return and nothing else changes |
| `VarEngine.PortfolioReturns` | src/engine/var_engine.py:10-23 | the in-place accumulation over instruments gives the series with one entry per step of the return table, entry t being Σᵢ wᵢ · returnsᵢ[t] (`PortfolioSeries`) |
| `VarEngine.WeightedReturnOfUniform` | src/engine/var_engine.py:20-21 | after k instruments that all return x at t, the accumulated value is x times the sum of their weights |
| `VarEngine.PortfolioSeriesOfUniformStep` | src/engine/var_engine.py:19-23 | when every instrument of a non-empty book returns x at step t, the portfolio returns x at t (weights sum to 1) |
| `Series.SumDivided` | src/engine/var_engine.py:11-17 | dividing every element by a non-zero total divides the sum by it (why the weights sum to 1) |
| `Series.SortedOrder` | src/engine/var_engine.py:27 | in an ascending sequence every element is at most every later one |
| `Series.Insert` | src/engine/var_engine.py:27 | inserting into a sorted sequence keeps it sorted and adds exactly one occurrence of the element |
| `Series.Sort` | src/engine/var_engine.py:27 | the order statistics numpy's percentile uses: sorted ascending and a permutation of the input |
| `Series.Interpolate` | src/engine/var_engine.py:27 | numpy's linear interpolation a + (b − a)·g stays between a and b for g in [0, 1] |
| `Series.InterpolateMonotone` | src/engine/var_engine.py:27 | between a ≤ b the interpolation does not decrease as g grows |
| `Series.VirtualIndex` | src/engine/var_engine.py:27 | numpy's virtual index (n − 1)·p lies in [0, n − 1] |
| `Series.VirtualIndexIsProduct` | src/engine/var_engine.py:27 | the virtual index equals (n − 1)·p |
| `Series.VirtualIndexMonotone` | src/engine/var_engine.py:27 | a larger fraction never gives a smaller virtual index |
| `Series.LowerIndex` | src/engine/var_engine.py:27 | the lower neighbour floor(h) is a valid position with floor(h) ≤ h < floor(h) + 1 |
| `Series.Fraction` | src/engine/var_engine.py:27 | the interpolation weight h − floor(h) lies in [0, 1) |
| `Series.PercentileBetweenNeighbours` | src/engine/var_engine.py:27 | on sorted data the percentile lies between the order statistics at floor(h) and floor(h) + 1 |
| `Series.PercentileWithinRange` | src/engine/var_engine.py:27 | the linear-interpolation percentile of sorted data lies between its minimum and maximum |
| `Series.PercentileAtOrderStatistic` | src/engine/var_engine.py:27 | at a whole virtual index k = (n − 1)·p the percentile is the k-th order statistic (no interpolation) |
| `Series.PercentileMonotone` | src/engine/var_engine.py:27 | on sorted data the percentile is non-decreasing in the fraction p |
| `Series.QuantileWithinSample` | src/engine/var_engine.py:27 | `np.percentile` of unsorted data lies between two observations of the data |
| `Series.QuantileMonotone` | src/engine/var_engine.py:27 | `np.percentile` is non-decreasing in the requested fraction |
| `Series.SortedArrangementExtremes` | src/engine/var_engine.py:27 | a sorted permutation of s starts with an element of s no larger than any element and ends with one no smaller |
| `Series.SortExtremes` | src/engine/var_engine.py:27 | the first and last order statistics are observations and bound every observation |
| `Series.TailAtOrBelow` | src/engine/var_engine.py:28 | the mask `pr[pr <= v]`: everything kept is at or below v and comes from the series, and every observation at or below v is kept |
| `Series.TailAtOrBelowCounts` | src/engine/var_engine.py:28 | the mask keeps each value at or below v exactly as often as it occurs in the series and no value above v (multiset of the tail), so its mean is the mean of the masked series |
| `Series.MeanBetween` | src/engine/var_engine.py:28 | a mean lies between any lower and upper bound of its elements |
| `Series.TailMeanBounds` | src/engine/var_engine.py:28 | if any observation is at or below v, the tail is non-empty and its mean lies between the series minimum and v |
| `Risk.HistoricalVarBounds` | src/engine/var_engine.py:25-29 | VaR lies between two observations of the series; the ES tail is never empty; ES ≤ VaR; ES is at least the series minimum |
| `Risk.ValueAtRiskMonotone` | src/engine/var_engine.py:27 | a higher confidence never gives a higher (less negative) VaR |
| `Risk.HistoricalVarOfConstant` | src/engine/var_engine.py:25-29 | on a constant series x, VaR = ES = x (the all-zero scenario gives 0 and 0) |
| `Risk.RollingVarWithinWindow` | src/engine/var_engine.py:53-58 | once a full window ends at step t, entry t is defined, equals the historical VaR of that window alone, and lies between two observations inside the window pr[t − window + 1..t] |
| `Risk.RollingVarOfPrefix` | src/engine/var_engine.py:55-58 | a trailing window only looks back: the rolling VaR of the first k steps is the first k entries of the rolling VaR of the whole series |
| `Risk.BacktestVarSpec` | src/engine/var_engine.py:61-68 | one flag per step; step t is a breach iff a full window ends at t and pr[t] is strictly below that window's VaR (a missing VaR never breaches); the breach count is the size of the set of breach steps, at most len − window + 1 (0 when no window is full) |
| `Series.CountTrueIsCardinality` | src/engine/var_engine.py:66 | the sum of a boolean mask equals the number of positions holding true |
| `Series.CountTrueAfterFalsePrefix` | src/engine/var_engine.py:66 | a mask whose first k flags are false has at most len − k true flags |
| `Series.CumProdStep` | src/engine/var_engine.py:126 | `cumprod` starts with its first factor and multiplies in one factor per step |
| `Series.CumProdPositive` | src/engine/var_engine.py:126 | a running product of positive factors stays positive |
| `Risk.CumulativeReturnsStep` | src/engine/var_engine.py:124-127 | cum[0] = 1 + pr[0] and cum[t] = cum[t − 1] · (1 + pr[t]) |
| `Series.CumMaxAt` | src/engine/var_engine.py:131 | entry t of `cummax` is at least every element up to t and equals one of them |
| `Risk.DrawdownNonPositive` | src/engine/var_engine.py:129-133 | when every return exceeds −100 %, the running peak is positive, every drawdown is ≤ 0, and a drawdown is 0 exactly where the curve stands at its running peak |
| `Decomposition.DotLinear` | src/engine/var_engine.py:111 | a dot product is linear in its first argument: if c = a + x·b entry by entry then c·v = a·v + x·(b·v) |
| `Decomposition.DotZero` | src/engine/var_engine.py:111 | the dot product with the zero vector is 0 |
| `Decomposition.AssociativityUpTo` | src/engine/var_engine.py:111-113 | over the first n rows, w · (cov @ w) equals (w.T @ cov) · w |
| `Decomposition.Associativity` | src/engine/var_engine.py:111-113 | w · (cov @ w) equals (w.T @ cov) · w for every square matrix, symmetric or not |
| `Decomposition.SumOfProducts` | src/engine/var_engine.py:115 | the sum of the elementwise products w ⊙ v is the dot product w · v |
| `Decomposition.EulerIdentity` | src/engine/var_engine.py:107-115 | with s > 0 and s² = wᵀΣw, the contributions w ⊙ (Σw)/s sum to s |
| `Decomposition.SortedDescendingOrder` | src/engine/var_engine.py:122 | in a sequence sorted by decreasing value no value exceeds an earlier one |
| `Decomposition.InsertDescending` | src/engine/var_engine.py:122 | inserting into a descending sequence keeps it descending and adds exactly that pair |
| `Decomposition.SortDescending` | src/engine/var_engine.py:122 | `sort_values(ascending=False)`: a permutation of the labelled contributions, in non-increasing order |
| `Decomposition.SortDescendingSum` | src/engine/var_engine.py:122 | sorting leaves the total of the contributions unchanged |
| `VarEngine.ComponentVar` | src/engine/var_engine.py:95-122 | one contribution per instrument, labelled by instrument id, a permutation of w ⊙ (Σw)/s with every value at least every later one, summing to s (Euler identity) |
| `VarEngine.HistoricalVar` | src/engine/var_engine.py:25-29 | the engine's VaR/ES are those of its portfolio series, with ES ≤ VaR |
| `VarEngine.RollingVar` | src/engine/var_engine.py:53-59 | the engine's rolling VaR is that of its portfolio series, one entry per step |
| `VarEngine.BacktestVar` | src/engine/var_engine.py:61-68 | the engine's backtest is that of its portfolio series; one flag per step; the count equals the number of true flags |
| `VarEngine.CumulativeReturns` | src/engine/var_engine.py:124-127 | the engine's cumulative curve is that of its portfolio series, one entry per step |
| `VarEngine.Drawdown` | src/engine/var_engine.py:129-133 | the engine's drawdown is that of its portfolio series, one entry per step |

## Left out

- `monte_carlo_var` (src/engine/var_engine.py:31-38) is left out because it
  draws from `np.random.normal`. Its VaR and ES step on the draws is the same
  computation as `historical_var`, which is `Risk.HistoricalVar` applied to
  the sample.
- `parametric_var` (src/engine/var_engine.py:40-51) is left out because it
  rests on `norm.ppf`, `norm.pdf` and a standard deviation (a square root).
  None of these is exact arithmetic.
- The first `component_var` (src/engine/var_engine.py:70-93) is left out. The
  second definition of the same name shadows it, so it is dead code.
- The sample covariance `returns.cov()` is not computed. It is an input
  matrix whose rows and columns are assumed, not required, to follow the
  book's row order.
- The square root `np.sqrt(portfolio_variance)` is an input `s` with `s > 0`
  and `s * s` equal to the variance.
- IEEE-754 rounding, NaN and infinity propagation are not modelled, and
  neither is pandas' label-based index alignment. The model works over exact
  reals and positions. A division by zero or an out-of-range percentile
  becomes a precondition.
- An empty return series is excluded wherever a percentile is taken
  (`|pr| > 0` on `Risk.HistoricalVar` and `Series.Quantile`,
  `e.table.steps > 0` on `VarEngine.HistoricalVar`). `np.percentile` gives
  no VaR for it. Rolling windows are never empty because `window >= 1`.
- Duplicate instrument ids are excluded (`DistinctIds`). With a repeated id
  the source's weights dict would keep only the last row's weight.
- A window of 0 is excluded (`window >= 1`). pandas accepts it but gives no
  percentile there.
- `Decomposition.SortDescending`: its contract states only "sorted and a
  permutation". pandas' default sort is not stable, so the order among equal
  contributions is unspecified; the model fixes one of the allowed orders.
- The dashboard (`src/dashboard/app.py`, `src/dashboard/plots.py`) is not part
  of this model. It only renders results.
- The data loader (`src/data/loader.py`) is not part of this model. It does a
  network download and a CSV read, and its `pct_change().dropna()` step is
  tied to that I/O.
- The Black–Scholes helper (`src/engine/greeks.py`) is not part of this
  model. It is floating-point code unrelated to the engine.

/**
 * The VaR engine: an immutable pair of a position book and a table of
 * per-instrument returns. Each engine operation derives the market-value
 * weights, aggregates the portfolio return series and hands it to the risk
 * measures of module Risk; the component decomposition uses the weights
 * directly with a covariance matrix supplied by the caller.
 */
module VarEngine {
  import opened Series
  import Risk
  import Decomposition

  /** One row of the position book; a negative quantity is a short position. */
  datatype Position = Position(instrumentId: string, quantity: real, currentPrice: real)

  /** Per-instrument return columns on a common index of `steps` periods. */
  datatype ReturnTable = ReturnTable(steps: nat, columns: map<string, seq<real>>)

  datatype Engine = Engine(portfolio: seq<Position>, table: ReturnTable)

  function MarketValue(p: Position): real
  {
    p.quantity * p.currentPrice
  }

  function MarketValues(ps: seq<Position>): (v: seq<real>)
    ensures |v| == |ps|
  {
    seq(|ps|, i requires 0 <= i < |ps| => MarketValue(ps[i]))
  }

  /** Total market value of the book, the sum of quantity * price. */
  function TotalValue(ps: seq<Position>): real
  {
    Sum(MarketValues(ps))
  }

  /**
   * The weights can be formed: an empty book divides by nothing, any other
   * book needs a non-zero total value.
   */
  ghost predicate Weighable(ps: seq<Position>)
  {
    ps == [] || TotalValue(ps) != 0.0
  }

  ghost predicate DistinctIds(ps: seq<Position>)
  {
    forall i, j :: 0 <= i < j < |ps| ==> ps[i].instrumentId != ps[j].instrumentId
  }

  /** Every position has a return column on the table's common index. */
  ghost predicate Covers(ps: seq<Position>, table: ReturnTable)
  {
    forall i :: 0 <= i < |ps| ==>
      ps[i].instrumentId in table.columns && |table.columns[ps[i].instrumentId]| == table.steps
  }

  ghost predicate WellFormed(e: Engine)
  {
    Weighable(e.portfolio) && DistinctIds(e.portfolio) && Covers(e.portfolio, e.table)
  }

  /**
   * Weight of each position: its market value over the total. The weights of
   * a non-empty book sum to exactly 1, and with a positive total a weight is
   * negative exactly for a position of negative market value (a short).
   */
  function WeightsOf(ps: seq<Position>): (w: seq<real>)
    requires Weighable(ps)
    ensures |w| == |ps|
    ensures ps != [] ==> Sum(w) == 1.0
    ensures TotalValue(ps) > 0.0 ==>
      forall i :: 0 <= i < |ps| ==> (w[i] < 0.0 <==> MarketValue(ps[i]) < 0.0)
  {
    var total := TotalValue(ps);
    var w := seq(|ps|, i requires 0 <= i < |ps| => MarketValue(ps[i]) / total);
    if ps == [] then w
    else
      assert w == seq(|ps|, i requires 0 <= i < |ps| => MarketValues(ps)[i] / total);
      SumDivided(MarketValues(ps), total);
      assert Sum(MarketValues(ps)) / total == 1.0;
      w
  }

  /** The weights loop: one entry per row of the book, in row order. */
  method Weights(ps: seq<Position>) returns (w: seq<real>)
    requires Weighable(ps)
    ensures w == WeightsOf(ps)
  {
    var total := TotalValue(ps);
    w := [];
    for i := 0 to |ps|
      invariant w == WeightsOf(ps)[..i]
    {
      w := w + [MarketValue(ps[i]) / total];
    }
  }

  /** The return columns of the book's instruments, in row order. */
  function Columns(e: Engine): (cols: seq<seq<real>>)
    requires Covers(e.portfolio, e.table)
    ensures |cols| == |e.portfolio|
    ensures forall i :: 0 <= i < |cols| ==> |cols[i]| == e.table.steps
  {
    seq(|e.portfolio|, i requires 0 <= i < |e.portfolio| => e.table.columns[e.portfolio[i].instrumentId])
  }

  /** Sum over the first k instruments of weight times return at step t. */
  function WeightedReturn(w: seq<real>, cols: seq<seq<real>>, k: nat, t: nat): real
    requires k <= |w| == |cols|
    requires forall i :: 0 <= i < |cols| ==> t < |cols[i]|
  {
    if k == 0 then 0.0 else WeightedReturn(w, cols, k - 1, t) + w[k - 1] * cols[k - 1][t]
  }

  /** The portfolio return series: at each step, the weighted sum of the instrument returns. */
  function PortfolioSeries(e: Engine): (pr: seq<real>)
    requires WellFormed(e)
    ensures |pr| == e.table.steps
  {
    var w := WeightsOf(e.portfolio);
    var cols := Columns(e);
    seq(e.table.steps, t requires 0 <= t < e.table.steps => WeightedReturn(w, cols, |cols|, t))
  }

  /** When the first k instruments all return x at step t, they contribute x times their total weight. */
  lemma {:induction false} WeightedReturnOfUniform(w: seq<real>, cols: seq<seq<real>>, k: nat, t: nat, x: real)
    requires k <= |w| == |cols|
    requires forall i :: 0 <= i < |cols| ==> t < |cols[i]|
    requires forall i :: 0 <= i < k ==> cols[i][t] == x
    ensures WeightedReturn(w, cols, k, t) == x * Sum(w[..k])
  {
    if k > 0 {
      WeightedReturnOfUniform(w, cols, k - 1, t, x);
      assert w[..k][..k - 1] == w[..k - 1];
    }
  }

  /**
   * Because the weights sum to 1, a step at which every instrument of a
   * non-empty book returns x is a step at which the portfolio returns x.
   */
  lemma PortfolioSeriesOfUniformStep(e: Engine, t: nat, x: real)
    requires WellFormed(e) && e.portfolio != [] && t < e.table.steps
    requires forall i :: 0 <= i < |e.portfolio| ==> e.table.columns[e.portfolio[i].instrumentId][t] == x
    ensures PortfolioSeries(e)[t] == x
  {
    var w := WeightsOf(e.portfolio);
    WeightedReturnOfUniform(w, Columns(e), |w|, t, x);
    assert w[..|w|] == w;
  }

  /** One instrument's term of the aggregation: acc += x * column, in place. */
  method AddScaledColumn(acc: array<real>, x: real, column: seq<real>)
    requires |column| == acc.Length
    modifies acc
    ensures forall t :: 0 <= t < acc.Length ==> acc[t] == old(acc[t]) + x * column[t]
  {
    for t := 0 to acc.Length
      invariant forall u :: 0 <= u < t ==> acc[u] == old(acc[u]) + x * column[u]
      invariant forall u :: t <= u < acc.Length ==> acc[u] == old(acc[u])
    {
      acc[t] := acc[t] + x * column[t];
    }
  }

  /**
   * _portfolio_returns: start from a zero series on the table's index and add
   * weight times return column, instrument by instrument, in place.
   */
  method PortfolioReturns(e: Engine) returns (pr: seq<real>)
    requires WellFormed(e)
    ensures pr == PortfolioSeries(e)
  {
    var ps := e.portfolio;
    var steps := e.table.steps;
    var w := Weights(ps);
    var cols := Columns(e);
    var acc := new real[steps](_ => 0.0);
    for i := 0 to |ps|
      invariant forall t :: 0 <= t < steps ==> acc[t] == WeightedReturn(w, cols, i, t)
    {
      AddScaledColumn(acc, w[i], cols[i]);
    }
    pr := acc[..];
  }

  /** historical_var: VaR and ES of the portfolio return series. */
  method HistoricalVar(e: Engine, confidence: real) returns (r: Risk.VarEs)
    requires WellFormed(e) && e.table.steps > 0 && 0.0 <= confidence <= 1.0
    ensures r == Risk.HistoricalVar(PortfolioSeries(e), confidence)
    ensures r.expectedShortfall <= r.valueAtRisk
  {
    var pr := PortfolioReturns(e);
    r := Risk.HistoricalVar(pr, confidence);
    Risk.HistoricalVarBounds(pr, confidence);
  }

  /** rolling_var: the rolling VaR of the portfolio return series. */
  method RollingVar(e: Engine, window: nat, confidence: real) returns (r: seq<Option<real>>)
    requires WellFormed(e) && window >= 1 && 0.0 <= confidence <= 1.0
    ensures |r| == e.table.steps
    ensures r == Risk.RollingVar(PortfolioSeries(e), window, confidence)
  {
    var pr := PortfolioReturns(e);
    r := Risk.RollingVar(pr, window, confidence);
  }

  /** backtest_var: rolling VaR, breach flags and breach count of the portfolio. */
  method BacktestVar(e: Engine, confidence: real, window: nat) returns (r: Risk.Backtest)
    requires WellFormed(e) && window >= 1 && 0.0 <= confidence <= 1.0
    ensures r == Risk.BacktestVar(PortfolioSeries(e), confidence, window)
    ensures |r.breaches| == e.table.steps
    ensures r.breachCount == |set t | 0 <= t < e.table.steps && r.breaches[t]|
  {
    var pr := PortfolioReturns(e);
    var rolling := RollingVar(e, window, confidence);
    var flags := Risk.Breaches(pr, rolling);
    r := Risk.Backtest(rolling, flags, CountTrue(flags));
    Risk.BacktestVarSpec(pr, confidence, window);
  }

  /** cumulative_returns: the compounded curve of the portfolio return series. */
  method CumulativeReturns(e: Engine) returns (r: seq<real>)
    requires WellFormed(e)
    ensures r == Risk.CumulativeReturns(PortfolioSeries(e))
    ensures |r| == e.table.steps
  {
    var pr := PortfolioReturns(e);
    r := Risk.CumulativeReturns(pr);
  }

  /** drawdown: the drawdown of the compounded curve from its running peak. */
  method Drawdown(e: Engine) returns (r: seq<real>)
    requires WellFormed(e)
    requires forall t :: 0 <= t < e.table.steps ==>
      CumMax(Risk.CumulativeReturns(PortfolioSeries(e)))[t] != 0.0
    ensures r == Risk.Drawdown(PortfolioSeries(e))
    ensures |r| == e.table.steps
  {
    var pr := PortfolioReturns(e);
    r := Risk.Drawdown(pr);
  }

  function Ids(ps: seq<Position>): (ids: seq<string>)
    ensures |ids| == |ps|
  {
    seq(|ps|, i requires 0 <= i < |ps| => ps[i].instrumentId)
  }

  /**
   * component_var: the Euler contributions of the book's instruments to the
   * portfolio volatility s, labelled by instrument and sorted from largest to
   * smallest. The covariance matrix's rows and columns follow the book's row
   * order, and s is the positive square root of the variance.
   */
  method ComponentVar(ps: seq<Position>, cov: seq<seq<real>>, s: real) returns (contrib: seq<(string, real)>)
    requires Weighable(ps) && DistinctIds(ps)
    requires Decomposition.IsSquare(cov, |ps|)
    requires s > 0.0 && s * s == Decomposition.Variance(WeightsOf(ps), cov)
    ensures |contrib| == |ps|
    ensures multiset(contrib)
      == multiset(Decomposition.Labelled(Ids(ps), Decomposition.Components(WeightsOf(ps), cov, s)))
    ensures forall i, j :: 0 <= i < j < |contrib| ==> contrib[i].1 >= contrib[j].1
    ensures Sum(Decomposition.Values(contrib)) == s
  {
    var w := Weights(ps);
    var components := Decomposition.Components(w, cov, s);
    var labelled := Decomposition.Labelled(Ids(ps), components);
    contrib := Decomposition.SortDescending(labelled);
    Decomposition.EulerIdentity(w, cov, s);
    Decomposition.SortDescendingSum(labelled);
    assert Decomposition.Values(labelled) == components;
    forall i, j | 0 <= i < j < |contrib|
      ensures contrib[i].1 >= contrib[j].1
    {
      Decomposition.SortedDescendingOrder(contrib, i, j);
    }
  }
}

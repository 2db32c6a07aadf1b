/**
 * The risk measures the engine derives from a portfolio return series:
 * historical VaR and expected shortfall, rolling VaR, the breach backtest,
 * the compounded cumulative return and the drawdown from its running peak.
 * Each is a function of the series alone.
 */
module Risk {
  import opened Series

  /** A VaR threshold (a signed return, typically negative) and its expected shortfall. */
  datatype VarEs = VarEs(valueAtRisk: real, expectedShortfall: real)

  /** Historical VaR: the (1 - confidence) percentile of the series. */
  function ValueAtRisk(pr: seq<real>, confidence: real): real
    requires |pr| > 0 && 0.0 <= confidence <= 1.0
  {
    Quantile(pr, 1.0 - confidence)
  }

  /** Expected shortfall at threshold v: the mean of the observations at or below v. */
  function ExpectedShortfall(pr: seq<real>, v: real): real
    requires |TailAtOrBelow(pr, v)| > 0
  {
    Mean(TailAtOrBelow(pr, v))
  }

  /** historical_var: the VaR of the series and the ES at that VaR. */
  function HistoricalVar(pr: seq<real>, confidence: real): VarEs
    requires |pr| > 0 && 0.0 <= confidence <= 1.0
  {
    var v := ValueAtRisk(pr, confidence);
    QuantileWithinSample(pr, 1.0 - confidence);
    VarEs(v, ExpectedShortfall(pr, v))
  }

  /**
   * The threshold lies between two observations, the tail is never empty, and
   * ES lies between the worst observation and VaR.
   */
  lemma HistoricalVarBounds(pr: seq<real>, confidence: real)
    requires |pr| > 0 && 0.0 <= confidence <= 1.0
    ensures var r := HistoricalVar(pr, confidence);
      && (exists i :: 0 <= i < |pr| && pr[i] <= r.valueAtRisk)
      && (exists j :: 0 <= j < |pr| && r.valueAtRisk <= pr[j])
      && |TailAtOrBelow(pr, r.valueAtRisk)| > 0
      && r.expectedShortfall <= r.valueAtRisk
      && (forall i :: 0 <= i < |pr| ==> Sort(pr)[0] <= pr[i])
      && Sort(pr)[0] in pr && Sort(pr)[0] <= r.expectedShortfall
  {
    var v := ValueAtRisk(pr, confidence);
    QuantileWithinSample(pr, 1.0 - confidence);
    TailMeanBounds(pr, v);
    SortExtremes(pr);
  }

  /** A higher confidence never gives a higher (less negative) VaR. */
  lemma ValueAtRiskMonotone(pr: seq<real>, c1: real, c2: real)
    requires |pr| > 0 && 0.0 <= c1 <= c2 <= 1.0
    ensures ValueAtRisk(pr, c2) <= ValueAtRisk(pr, c1)
  {
    QuantileMonotone(pr, 1.0 - c2, 1.0 - c1);
  }

  /** On a constant series both VaR and ES equal that constant. */
  lemma HistoricalVarOfConstant(pr: seq<real>, x: real, confidence: real)
    requires |pr| > 0 && 0.0 <= confidence <= 1.0
    requires forall t :: 0 <= t < |pr| ==> pr[t] == x
    ensures HistoricalVar(pr, confidence) == VarEs(x, x)
  {
    var r := HistoricalVar(pr, confidence);
    QuantileWithinSample(pr, 1.0 - confidence);
    assert r.valueAtRisk == x;
    var tail := TailAtOrBelow(pr, x);
    assert forall k :: 0 <= k < |tail| ==> tail[k] == x;
    MeanBetween(tail, x, x);
  }

  /**
   * The rolling entry at step t: missing before the first full window, then
   * the (1 - confidence) percentile of the window pr[t - window + 1..t].
   */
  function WindowVar(pr: seq<real>, t: nat, window: nat, confidence: real): Option<real>
    requires t < |pr| && window >= 1 && 0.0 <= confidence <= 1.0
  {
    if t + 1 < window then None else Some(ValueAtRisk(pr[t + 1 - window..t + 1], confidence))
  }

  /** Rolling VaR over a trailing window (pandas' rolling(window).apply): one entry per step. */
  function RollingVar(pr: seq<real>, window: nat, confidence: real): (r: seq<Option<real>>)
    requires window >= 1 && 0.0 <= confidence <= 1.0
    ensures |r| == |pr|
  {
    seq(|pr|, t requires 0 <= t < |pr| => WindowVar(pr, t, window, confidence))
  }

  /**
   * Once a full window ends at step t, entry t is the historical VaR of that
   * window alone and lies between two observations inside the window.
   */
  lemma RollingVarWithinWindow(pr: seq<real>, window: nat, confidence: real, t: nat)
    requires window >= 1 && 0.0 <= confidence <= 1.0 && window - 1 <= t < |pr|
    ensures RollingVar(pr, window, confidence)[t].Some?
    ensures var v := RollingVar(pr, window, confidence)[t].value;
      && v == HistoricalVar(pr[t + 1 - window..t + 1], confidence).valueAtRisk
      && (exists i :: t + 1 - window <= i <= t && pr[i] <= v)
      && (exists j :: t + 1 - window <= j <= t && v <= pr[j])
  {
    var w := pr[t + 1 - window..t + 1];
    QuantileWithinSample(w, 1.0 - confidence);
    var v := Quantile(w, 1.0 - confidence);
    var i :| 0 <= i < |w| && w[i] <= v;
    var j :| 0 <= j < |w| && v <= w[j];
    assert pr[t + 1 - window + i] == w[i];
    assert pr[t + 1 - window + j] == w[j];
  }

  /**
   * A window only looks back: the rolling VaR of a prefix of the series is
   * the matching prefix of the rolling VaR of the whole series.
   */
  lemma RollingVarOfPrefix(pr: seq<real>, k: nat, window: nat, confidence: real)
    requires k <= |pr| && window >= 1 && 0.0 <= confidence <= 1.0
    ensures RollingVar(pr[..k], window, confidence) == RollingVar(pr, window, confidence)[..k]
  {
    forall t | 0 <= t < k
      ensures RollingVar(pr[..k], window, confidence)[t] == RollingVar(pr, window, confidence)[t]
    {
      if t + 1 >= window {
        assert pr[..k][t + 1 - window..t + 1] == pr[t + 1 - window..t + 1];
      }
    }
  }

  /** Breach flags: true where the threshold is defined and the realised return is strictly below it. */
  function Breaches(pr: seq<real>, thresholds: seq<Option<real>>): (b: seq<bool>)
    requires |pr| == |thresholds|
    ensures |b| == |pr|
  {
    seq(|pr|, t requires 0 <= t < |pr| => thresholds[t].Some? && pr[t] < thresholds[t].value)
  }

  /** The backtest's rolling VaR series, its breach flags and the number of breaches. */
  datatype Backtest = Backtest(rollingVar: seq<Option<real>>, breaches: seq<bool>, breachCount: nat)

  function BacktestVar(pr: seq<real>, confidence: real, window: nat): Backtest
    requires window >= 1 && 0.0 <= confidence <= 1.0
  {
    var rolling := RollingVar(pr, window, confidence);
    var flags := Breaches(pr, rolling);
    Backtest(rolling, flags, CountTrue(flags))
  }

  /**
   * A step is a breach exactly when a full window precedes it and its return
   * is strictly below that window's VaR; the count is the number of breach
   * steps, so at most the number of steps with a full window.
   */
  lemma BacktestVarSpec(pr: seq<real>, confidence: real, window: nat)
    requires window >= 1 && 0.0 <= confidence <= 1.0
    ensures var r := BacktestVar(pr, confidence, window);
      && |r.rollingVar| == |pr| && |r.breaches| == |pr|
      && (forall t :: 0 <= t < |pr| ==>
            (r.breaches[t] <==> t + 1 >= window && pr[t] < ValueAtRisk(pr[t + 1 - window..t + 1], confidence)))
      && r.breachCount == |set t | 0 <= t < |pr| && r.breaches[t]|
      && (window - 1 <= |pr| ==> r.breachCount <= |pr| - (window - 1))
      && (window - 1 > |pr| ==> r.breachCount == 0)
  {
    var r := BacktestVar(pr, confidence, window);
    forall t | 0 <= t < |pr|
      ensures r.breaches[t] <==> t + 1 >= window && pr[t] < ValueAtRisk(pr[t + 1 - window..t + 1], confidence)
    {
      assert r.rollingVar[t] == WindowVar(pr, t, window, confidence);
    }
    CountTrueIsCardinality(r.breaches);
    var k := if window - 1 <= |pr| then window - 1 else |pr|;
    CountTrueAfterFalsePrefix(r.breaches, k);
  }

  /** The gross returns 1 + pr[t]. */
  function Growth(pr: seq<real>): (g: seq<real>)
    ensures |g| == |pr|
  {
    seq(|pr|, t requires 0 <= t < |pr| => 1.0 + pr[t])
  }

  /** Compounded cumulative return, (1 + pr).cumprod(). */
  function CumulativeReturns(pr: seq<real>): (r: seq<real>)
    ensures |r| == |pr|
  {
    CumProd(Growth(pr))
  }

  /** The curve starts at 1 + pr[0] and compounds one period's gross return per step. */
  lemma CumulativeReturnsStep(pr: seq<real>, t: nat)
    requires t < |pr|
    ensures CumulativeReturns(pr)[t]
      == if t == 0 then 1.0 + pr[0] else CumulativeReturns(pr)[t - 1] * (1.0 + pr[t])
  {
    CumProdStep(Growth(pr), t);
  }

  /**
   * Drawdown from the running peak of the cumulative curve. The division by
   * the peak is undefined where the peak is zero, so such a series is excluded.
   */
  function Drawdown(pr: seq<real>): (d: seq<real>)
    requires forall t :: 0 <= t < |pr| ==> CumMax(CumulativeReturns(pr))[t] != 0.0
    ensures |d| == |pr|
  {
    var cumulative := CumulativeReturns(pr);
    var peak := CumMax(cumulative);
    seq(|pr|, t requires 0 <= t < |pr| => (cumulative[t] - peak[t]) / peak[t])
  }

  /**
   * When every return exceeds -100%, the running peak is positive, every
   * drawdown is at most zero, and a drawdown is zero exactly at a step where
   * the curve stands at its running peak.
   */
  lemma DrawdownNonPositive(pr: seq<real>)
    requires forall t :: 0 <= t < |pr| ==> pr[t] > -1.0
    ensures forall t :: 0 <= t < |pr| ==> CumMax(CumulativeReturns(pr))[t] > 0.0
    ensures forall t :: 0 <= t < |pr| ==> Drawdown(pr)[t] <= 0.0
    ensures forall t :: 0 <= t < |pr| ==>
      (Drawdown(pr)[t] == 0.0 <==> CumulativeReturns(pr)[t] == CumMax(CumulativeReturns(pr))[t])
  {
    var cumulative := CumulativeReturns(pr);
    var peak := CumMax(cumulative);
    CumProdPositive(Growth(pr));
    forall t | 0 <= t < |pr|
      ensures 0.0 < cumulative[t] <= peak[t]
    {
      CumMaxAt(cumulative, t);
    }
    forall t | 0 <= t < |pr|
      ensures Drawdown(pr)[t] <= 0.0
      ensures Drawdown(pr)[t] == 0.0 <==> cumulative[t] == peak[t]
    {
      var d := cumulative[t] - peak[t];
      assert Drawdown(pr)[t] == d / peak[t];
      assert d / peak[t] <= 0.0 by {
        assert d <= 0.0 && peak[t] > 0.0;
      }
    }
  }
}

/**
 * The Augmented Dickey-Fuller primitive as the analysis uses it
 * (`adfuller(series, maxlag=9, regression='c', autolag='AIC')`), the lag
 * difference `s.diff(j)[j:]`, and the differencing escalation applied to one
 * regressor.
 */
module Adf {
  import opened Wrappers

  /** The parts of an `adfuller` result the analysis reads: `result[0]`, `result[1]` and `result[4]['5%']`. */
  datatype AdfResult = AdfResult(statistic: real, pvalue: real, critical5: real)

  /** The ADF oracle; `None` when `adfuller` raises (for example on a too-short or constant series). */
  type AdfOracle = seq<real> -> Option<AdfResult>

  /** The regressor rule: the statistic is at or below the 5% critical value. */
  predicate RejectsUnitRoot(res: AdfResult) {
    res.statistic <= res.critical5
  }

  /**
   * `s.diff(j)[j:]`: pandas leaves the first `j` entries undefined and the
   * slice drops them; a series no longer than `j` leaves nothing.
   */
  function LagDiff(s: seq<real>, j: nat): (r: seq<real>)
    ensures |r| == if j <= |s| then |s| - j else 0
    ensures forall i :: 0 <= i < |r| ==> r[i] == s[i + j] - s[i]
    decreases |s|
  {
    if |s| <= j then [] else [s[j] - s[0]] + LagDiff(s[1..], j)
  }

  /** The last difference order `for j in range(1, 3)` tries. */
  const MaxOrder: nat := 2

  /**
   * The series tested at step `j`: the raw column, then `temp.diff(j)[j:]`
   * applied to the previous step's series, so each step differences the one before.
   */
  function Stage(s: seq<real>, j: nat): seq<real>
    decreases j
  {
    if j == 0 then s else LagDiff(Stage(s, j - 1), j)
  }

  /** Step 1 is the plain first difference. */
  lemma FirstStage(s: seq<real>)
    ensures |Stage(s, 1)| == if 1 <= |s| then |s| - 1 else 0
    ensures forall i :: 0 <= i < |Stage(s, 1)| ==> Stage(s, 1)[i] == s[i + 1] - s[i]
  {
  }

  /**
   * Step 2 is the lag-2 difference of the first difference, three entries
   * shorter than the column: `s[i+3] - s[i+2] - s[i+1] + s[i]`, which is not
   * the second-order difference `s[i+2] - 2 s[i+1] + s[i]`.
   */
  lemma SecondStage(s: seq<real>)
    ensures |Stage(s, 2)| == if 3 <= |s| then |s| - 3 else 0
    ensures forall i :: 0 <= i < |Stage(s, 2)| ==> Stage(s, 2)[i] == s[i + 3] - s[i + 2] - s[i + 1] + s[i]
  {
    var d1 := LagDiff(s, 1);
    var d2 := LagDiff(d1, 2);
    assert Stage(s, 2) == d2 by {
      assert Stage(s, 1) == d1;
    }
    forall i | 0 <= i < |d2|
      ensures d2[i] == s[i + 3] - s[i + 2] - s[i + 1] + s[i]
    {
      assert d2[i] == d1[i + 2] - d1[i];
      assert d1[i + 2] == s[i + 3] - s[i + 2];
      assert d1[i] == s[i + 1] - s[i];
    }
  }

  /** The outcome for one regressor: stationary at difference order 0, 1 or 2, or failed. */
  datatype Outcome = Stationary(order: nat, result: AdfResult) | Fails

  /** What the escalation does from step `j` on; `None` when `adfuller` raises. */
  function EscalateFrom(adf: AdfOracle, s: seq<real>, j: nat): Option<Outcome>
    decreases MaxOrder + 1 - j
  {
    if j > MaxOrder then Some(Fails)
    else match adf(Stage(s, j))
      case None => None
      case Some(res) =>
        if RejectsUnitRoot(res) then Some(Stationary(j, res)) else EscalateFrom(adf, s, j + 1)
  }

  /** The verdict for one regressor column, trying the level first. */
  function Escalate(adf: AdfOracle, s: seq<real>): Option<Outcome> {
    EscalateFrom(adf, s, 0)
  }

  /** Step `k` was tested and did not pass. */
  predicate StageFails(adf: AdfOracle, s: seq<real>, k: nat) {
    adf(Stage(s, k)).Some? && !RejectsUnitRoot(adf(Stage(s, k)).value)
  }

  /** Every step from `lo` up to but excluding `hi` was tested and failed. */
  predicate FailBetween(adf: AdfOracle, s: seq<real>, lo: nat, hi: nat) {
    forall k: nat :: lo <= k < hi ==> StageFails(adf, s, k)
  }

  lemma {:induction false} EscalateFromPass(adf: AdfOracle, s: seq<real>, j: nat, d: nat, res: AdfResult)
    requires j <= MaxOrder + 1
    ensures EscalateFrom(adf, s, j) == Some(Stationary(d, res)) <==>
              (j <= d <= MaxOrder && FailBetween(adf, s, j, d)
               && adf(Stage(s, d)) == Some(res) && RejectsUnitRoot(res))
    decreases MaxOrder + 1 - j
  {
    if j <= MaxOrder {
      EscalateFromPass(adf, s, j + 1, d, res);
      if !StageFails(adf, s, j) {
        assert d > j ==> !FailBetween(adf, s, j, d);
      }
    }
  }

  lemma {:induction false} EscalateFromFails(adf: AdfOracle, s: seq<real>, j: nat)
    requires j <= MaxOrder + 1
    ensures EscalateFrom(adf, s, j) == Some(Fails) <==> FailBetween(adf, s, j, MaxOrder + 1)
    decreases MaxOrder + 1 - j
  {
    if j <= MaxOrder {
      EscalateFromFails(adf, s, j + 1);
      if !StageFails(adf, s, j) {
        assert !FailBetween(adf, s, j, MaxOrder + 1);
      }
    }
  }

  lemma {:induction false} EscalateFromRaises(adf: AdfOracle, s: seq<real>, j: nat)
    requires j <= MaxOrder + 1
    ensures EscalateFrom(adf, s, j).None? <==>
              exists d :: j <= d <= MaxOrder && FailBetween(adf, s, j, d) && adf(Stage(s, d)).None?
    decreases MaxOrder + 1 - j
  {
    if j <= MaxOrder {
      EscalateFromRaises(adf, s, j + 1);
      if adf(Stage(s, j)).None? {
        assert FailBetween(adf, s, j, j) && adf(Stage(s, j)).None?;
      } else if !StageFails(adf, s, j) {
        assert forall d :: j < d ==> !FailBetween(adf, s, j, d);
      } else {
        assert forall d :: j < d ==> FailBetween(adf, s, j, d) == FailBetween(adf, s, j + 1, d);
      }
    }
  }

  /**
   * The escalation stops at the first step that passes: it reports order `d`
   * exactly when steps before `d` were tested and failed and step `d` passed.
   */
  lemma FirstPassWins(adf: AdfOracle, s: seq<real>, d: nat, res: AdfResult)
    ensures Escalate(adf, s) == Some(Stationary(d, res)) <==>
              (d <= MaxOrder && FailBetween(adf, s, 0, d)
               && adf(Stage(s, d)) == Some(res) && RejectsUnitRoot(res))
  {
    EscalateFromPass(adf, s, 0, d, res);
  }

  /** The `for`/`else` branch: the regressor fails exactly when all three steps were tested and failed. */
  lemma FailsWhenNoStagePasses(adf: AdfOracle, s: seq<real>)
    ensures Escalate(adf, s) == Some(Fails) <==> StageFails(adf, s, 0) && StageFails(adf, s, 1) && StageFails(adf, s, 2)
  {
    EscalateFromFails(adf, s, 0);
  }

  /** `adfuller` raising at a step that the escalation reaches aborts the test. */
  lemma RaisesWhenReachedStageRaises(adf: AdfOracle, s: seq<real>)
    ensures Escalate(adf, s).None? <==>
              (adf(Stage(s, 0)).None?
               || (StageFails(adf, s, 0) && adf(Stage(s, 1)).None?)
               || (StageFails(adf, s, 0) && StageFails(adf, s, 1) && adf(Stage(s, 2)).None?))
  {
    EscalateFromRaises(adf, s, 0);
    if StageFails(adf, s, 0) && adf(Stage(s, 1)).None? {
      assert FailBetween(adf, s, 0, 1);
    }
    if StageFails(adf, s, 0) && StageFails(adf, s, 1) && adf(Stage(s, 2)).None? {
      assert FailBetween(adf, s, 0, 2);
    }
    if Escalate(adf, s).None? {
      var d :| 0 <= d <= MaxOrder && FailBetween(adf, s, 0, d) && adf(Stage(s, d)).None?;
      if d == 2 {
        assert StageFails(adf, s, 0) && StageFails(adf, s, 1);
      } else if d == 1 {
        assert StageFails(adf, s, 0);
      }
    }
  }

  /** A regressor that passes after one difference is never reported at order 2. */
  lemma DiffOneBeforeDiffTwo(adf: AdfOracle, s: seq<real>, res: AdfResult)
    requires StageFails(adf, s, 0) && adf(Stage(s, 1)) == Some(res) && RejectsUnitRoot(res)
    ensures Escalate(adf, s) == Some(Stationary(1, res))
  {
    FirstPassWins(adf, s, 1, res);
  }
}

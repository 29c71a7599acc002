/**
 * `Cointegration_test`: one ADF run on the residuals of the fitted model.
 * Unlike the regressor test, the verdict follows the p-value.
 */
module Cointegration {
  import opened Wrappers
  import opened Adf

  /** The significance level the residual p-value is compared with. */
  const ResidualLevel: real := 0.05

  /** The ADF result on the residuals and whether it shows cointegration. */
  datatype Verdict = Verdict(result: AdfResult, cointegrated: bool)

  /** The verdict; `None` when `adfuller` raises on the residual series. */
  function CointegrationTest(adf: AdfOracle, resid: seq<real>): (r: Option<Verdict>)
    ensures r.None? <==> adf(resid).None?
    ensures r.Some? ==> r.value.result == adf(resid).value
    ensures r.Some? ==> (r.value.cointegrated <==> r.value.result.pvalue <= ResidualLevel)
  {
    match adf(resid)
    case None => None
    case Some(res) => Some(Verdict(res, res.pvalue <= ResidualLevel))
  }

  /** The verdict depends on the p-value alone: the statistic and critical value do not enter it. */
  lemma VerdictIgnoresStatistic(adf: AdfOracle, resid: seq<real>, adf': AdfOracle, resid': seq<real>)
    requires adf(resid).Some? && adf'(resid').Some?
    requires adf(resid).value.pvalue == adf'(resid').value.pvalue
    ensures CointegrationTest(adf, resid).value.cointegrated == CointegrationTest(adf', resid').value.cointegrated
  {
  }

  /** A residual series whose statistic clears the 5% critical value yet fails on its p-value. */
  lemma RulesDisagree(resid: seq<real>)
    ensures var adf: AdfOracle := _ => Some(AdfResult(-3.5, 0.2, -2.9));
            RejectsUnitRoot(adf(resid).value) && !CointegrationTest(adf, resid).value.cointegrated
  {
  }
}

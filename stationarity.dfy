/**
 * `ADF_test`: every regressor of the fitted model except the first is tested
 * for a unit root on its raw column, then on successive lag differences,
 * stopping at the first pass. Verdicts are returned as data.
 */
module Stationarity {
  import opened Wrappers
  import opened Adf
  import opened PyOrder

  /** The name statsmodels gives the constant term of `y ~ ... + 1`. */
  const InterceptName: Name := "Intercept"

  /** The keys of `model.params` for a formula with these regressors: the intercept first, then the terms in order. */
  function ParamNames(terms: seq<Name>): seq<Name> {
    [InterceptName] + terms
  }

  /** `model.params.keys()[2:]`; Python slicing past the end gives an empty list. */
  function TestedNames(params: seq<Name>): (tested: seq<Name>)
    ensures |tested| == if |params| <= 2 then 0 else |params| - 2
    ensures forall k :: 0 <= k < |tested| ==> tested[k] == params[k + 2]
  {
    if |params| <= 2 then [] else params[2..]
  }

  /** The intercept and the first selected regressor are skipped; every later regressor is tested, in order. */
  lemma TestedSkipsFirstRegressor(terms: seq<Name>)
    ensures TestedNames(ParamNames(terms)) == if terms == [] then [] else terms[1..]
  {
    if terms != [] {
      assert ParamNames(terms)[2..] == terms[1..];
    }
  }

  /** The verdict for one tested variable. */
  datatype VariableReport = VariableReport(name: Name, outcome: Outcome)

  /** Why `ADF_test` stopped early. */
  datatype TestError =
    | MissingColumn(name: Name)      // `data[i]` raises `KeyError`
    | AdfRaises(name: Name)          // `adfuller` raises on a series of this variable

  /** The body of the outer loop for one column: level test, then `diff(1)`, then `diff(2)` of that. */
  method TestVariable(series: seq<real>, adf: AdfOracle) returns (r: Option<Outcome>)
    ensures r == Escalate(adf, series)
  {
    var temp := series;
    var result := adf(temp);
    if result.None? {
      return None;
    }
    if RejectsUnitRoot(result.value) {
      return Some(Stationary(0, result.value));
    }
    var passed := false;
    var j := 1;
    while j < MaxOrder + 1
      invariant 1 <= j <= MaxOrder + 1
      invariant temp == Stage(series, j - 1)
      invariant EscalateFrom(adf, series, j) == Escalate(adf, series)
      decreases MaxOrder + 1 - j
    {
      temp := LagDiff(temp, j);
      result := adf(temp);
      if result.None? {
        return None;
      }
      if RejectsUnitRoot(result.value) {
        r := Some(Stationary(j, result.value));
        passed := true;
        break;
      }
      j := j + 1;
    }
    if !passed {
      r := Some(Fails);
    }
  }

  /** An error names the first tested variable that could not be tested. */
  predicate Testable(data: map<Name, seq<real>>, adf: AdfOracle, name: Name) {
    name in data && Escalate(adf, data[name]).Some?
  }

  function ErrorFor(data: map<Name, seq<real>>, name: Name): TestError {
    if name in data then AdfRaises(name) else MissingColumn(name)
  }

  /**
   * `ADF_test(data, model)` with `params` the keys of `model.params`: one
   * verdict per tested name, in order, or the error of the first name that
   * cannot be tested.
   */
  method AdfTest(data: map<Name, seq<real>>, params: seq<Name>, adf: AdfOracle) returns (r: Result<seq<VariableReport>, TestError>)
    ensures var names := TestedNames(params);
            r.Ok? <==> forall k :: 0 <= k < |names| ==> Testable(data, adf, names[k])
    ensures var names := TestedNames(params);
            r.Ok? ==> |r.value| == |names|
                      && forall k :: 0 <= k < |names| ==>
                           r.value[k].name == names[k]
                           && Escalate(adf, data[names[k]]) == Some(r.value[k].outcome)
    ensures var names := TestedNames(params);
            r.Err? ==> exists k :: 0 <= k < |names|
                                   && (forall i :: 0 <= i < k ==> Testable(data, adf, names[i]))
                                   && !Testable(data, adf, names[k])
                                   && r.error == ErrorFor(data, names[k])
  {
    var names := TestedNames(params);
    var reports: seq<VariableReport> := [];
    var i := 0;
    while i < |names|
      invariant 0 <= i <= |names|
      invariant |reports| == i
      invariant forall k :: 0 <= k < i ==> Testable(data, adf, names[k])
      invariant forall k :: 0 <= k < i ==>
                  reports[k].name == names[k] && Escalate(adf, data[names[k]]) == Some(reports[k].outcome)
    {
      var name := names[i];
      if name !in data {
        return Err(MissingColumn(name));
      }
      var outcome := TestVariable(data[name], adf);
      if outcome.None? {
        return Err(AdfRaises(name));
      }
      reports := reports + [VariableReport(name, outcome.value)];
      i := i + 1;
    }
    return Ok(reports);
  }
}

# Stepwise OLS, ADF escalation and cointegration verdict

A Dafny model of the control logic of `Stress_testing.py`, a script for a bank
stress-testing study. The script picks regressors by greedy forward stepwise
OLS selection. It then tests each selected regressor for a unit root with the
Augmented Dickey-Fuller (ADF) test, retrying on differenced series. Last, it
decides cointegration from an ADF test on the regression residuals.

The statistics library is replaced by two oracles, passed as function-typed
parameters:

- `Stepwise.Ols`, `(selected, candidate) -> Fit(rsquaredAdj, pvalue)`, stands for
  `smf.ols(formula, data).fit()` with terms `selected + [candidate]` plus an intercept.
  It returns the adjusted R-squared and the candidate's own p-value.
- `Adf.AdfOracle`, `series -> Option<AdfResult(statistic, pvalue, critical5)>`, stands
  for `adfuller(series, maxlag=9, regression='c', autolag='AIC')`. `None` means the
  call raises, for example on a too-short or constant series.

Scores, statistics and p-values are exact `real`s.

Modules:

- `PyOrder` (`pyorder.dfy`): the column-name type `Name` and Python's `<` on strings. The sort at line 20 uses it to break ties between equal scores by comparing names.
- `Stepwise` (`stepwise.dfy`): `forward_selected`.
  - `ForwardSelected` is the imperative loop, over `remaining`, `selected`, `currentScore` and `bestNewScore`.
  - `ScoreRemaining` is the inner `for` loop that scores the candidates.
  - `SortPop` gives the element that `sort()` followed by `pop()` returns.
  - `Best`, `Round` and `Run` are the ghost specification: the winner of a round, one loop body, and `n` guarded iterations.
  - The method is proved equal to `Run` after `rounds` rounds.
- `Adf` (`adf.dfy`): the ADF result, the regressor pass rule `statistic <= critical5`, and the lag difference `LagDiff`, which is `s.diff(j)[j:]`.
  - `Stage(s, j)` is the series tested at step `j`.
  - `Escalate` is the reference definition of the escalation.
- `Stationarity` (`stationarity.dfy`): `ADF_test`. `TestVariable` is the inner loop with its `break` and its `for`/`else`. `AdfTest` is the outer loop over `model.params.keys()[2:]`.
- `Cointegration` (`cointegration.dfy`): the residual verdict of `Cointegration_test`.
- `Wrappers` (`wrappers.dfy`): `Option` and `Result`.

Behaviour the model follows from the code:

- **Stall.** At line 11 the loop continues only while `current_score == best_new_score`. Suppose a round is rejected and its best score equals the current score exactly. Then the round changes nothing and the loop never ends. `ForwardSelected` does not loop for ever: it returns `Stalled(state)` with a proof that the guard holds and that a round leaves the state unchanged. `StallNeverExits` shows that every number of further rounds stays there, and `ForwardSelected` carries this back to the start state: every run of at least `rounds` rounds ends in the stalled state. So the loop stops at the first rejected round only when that round's best score differs from the current score. This can happen on the first round, for example, when the best adjusted R-squared is exactly `0.0` (`ZeroBestScoreStalls`).
- **Cumulative differencing.** At line 42, `temp = temp.diff(j)[j:]` differences the already differenced series. Step 2 is therefore the lag-2 difference of the first difference. It has three fewer entries than the column, and entry `i` is `s[i+3] - s[i+2] - s[i+1] + s[i]` (`SecondStage`). Step 2 is not the second-order difference `s[i+2] - 2 s[i+1] + s[i]`. The model follows the code.
- **Missing response.** A response missing from the columns makes `remaining.remove(response)` raise `KeyError`. The model returns `MissingResponse`.
- **Regressors tested.** `ADF_test` tests `model.params.keys()[2:]`. That skips the intercept and also the first selected regressor.
- **Errors.** A tested name missing from the data (`KeyError`) or an `adfuller` failure ends `ADF_test`. The model returns the error of the first such name.

## Model

| member | source | states |
|---|---|---|
| `PyOrder.StrLessTrichotomous` | Stress_testing.py:20 | Python string order is total: two names are equal or one sorts first |
| `PyOrder.StrLessTransitive` | Stress_testing.py:20 | Python string order is transitive |
| `Stepwise.ScoredLeAntisymmetric` | Stress_testing.py:19-20 | two `(score, candidate, pvalue)` tuples that each sort no later than the other are the same tuple |
| `Stepwise.BestUnique` | Stress_testing.py:19-21 | a round has at most one winner, since candidate names are unique |
| `Stepwise.Best` | Stress_testing.py:19-21 | the winner is a remaining candidate whose tuple is the lexicographic maximum over all remaining candidates |
| `Stepwise.ScoreRemaining` | Stress_testing.py:12-19 | every remaining candidate, and nothing else, gets exactly one entry holding its score and p-value from the fit of `selected + [candidate]` |
| `Stepwise.SortPop` | Stress_testing.py:20-21 | the entry popped after sorting is in the list and no entry sorts after it |
| `Stepwise.InitialPartition` | Stress_testing.py:7-10 | at the start, `remaining` is the columns minus the response, `selected` is empty, and the score is 0 |
| `Stepwise.RoundKeepsPartition` | Stress_testing.py:22-25 | a round keeps `selected` free of duplicates and disjoint from `remaining`; their union stays the columns minus the response; the score stays non-negative, and positive once something is selected |
| `Stepwise.AcceptedRound` | Stress_testing.py:22-25 | an accepted round moves the winner from `remaining` to the end of `selected`, its p-value is at most 0.05, and the score strictly rises |
| `Stepwise.RejectedRound` | Stress_testing.py:11-25 | a rejected round leaves `remaining`, `selected` and the current score unchanged; the loop goes on exactly when the round's best score equals the current score, and then the state is unchanged |
| `Stepwise.StallNeverExits` | Stress_testing.py:11 | from a state with the guard true that a round does not change, any number of further rounds leaves the state as it is |
| `Stepwise.RunGrowsSelection` | Stress_testing.py:11-25 | over any number of rounds the partition invariant holds and `selected` only grows at its end (acceptance order); the score never falls, and it rises exactly when terms were added |
| `Stepwise.FirstRejectionSelectsNothing` | Stress_testing.py:10-27 | if the first round rejects, the final formula has no regressor (intercept only) |
| `Stepwise.PartitionBound` | Stress_testing.py:7-24 | the number of selected terms never exceeds the number of columns minus one |
| `Stepwise.RunOneMore` | Stress_testing.py:11 | when the guard holds after `n` rounds, round `n + 1` is one more loop body |
| `Stepwise.RunAdd` | Stress_testing.py:11 | running `a` rounds and then `b` more is running `a + b` rounds |
| `Stepwise.StalledForever` | Stress_testing.py:11-25 | once the loop reaches a stall after `k` rounds, every run of `k` or more rounds ends in that same state |
| `Stepwise.ZeroBestScoreStalls` | Stress_testing.py:10-25 | for any OLS oracle, when the first round's best adjusted R-squared is exactly 0.0, that round is rejected with `best_new_score == current_score` and the loop never leaves the start state |
| `Stepwise.RoundStep` | Stress_testing.py:21-25 | given the popped entry, a round accepts by moving the winner and setting both scores to its score, and rejects by setting only `best_new_score` |
| `Stepwise.BestOfRound` | Stress_testing.py:12-21 | the popped entry is the round's winner together with its own score and p-value |
| `Stepwise.PlayRound` | Stress_testing.py:12-25 | the loop body turns the four loop variables into exactly the state `Round` gives; a round that appends nothing and leaves the scores equal changes nothing |
| `Stepwise.PartitionSize` | Stress_testing.py:7-24 | `selected` and `remaining` together hold each candidate column exactly once |
| `Stepwise.RoundsBound` | Stress_testing.py:11-25 | one round per accepted term plus at most one rejected round while candidates remain is at most the number of candidate columns |
| `Stepwise.SelectionFacts` | Stress_testing.py:7-25 | a state reached after `rounds` rounds keeps the partition, selects at most the number of columns minus one, and `rounds` is at most the number of candidate columns |
| `Stepwise.ForwardSelected` | Stress_testing.py:6-29 | a missing response is reported if and only if it is absent; otherwise the final state is `Run` after the rounds taken, the partition invariant holds and no more terms are selected than the number of columns minus one; the number of rounds never exceeds the number of candidate columns; `Finished` means the guard is false, and `Stalled` means the guard holds and a round changes nothing, so every run of at least that many rounds from the start ends in that state and the loop never ends |
| `Adf.LagDiff` | Stress_testing.py:42 | `s.diff(j)[j:]` is `j` entries shorter than `s` (empty when `s` has at most `j` entries) and entry `i` is `s[i+j] - s[i]` |
| `Adf.FirstStage` | Stress_testing.py:41-42 | the first escalation step tests the first difference, one entry shorter than the column |
| `Adf.SecondStage` | Stress_testing.py:41-42 | the second escalation step tests a series three entries shorter than the column, with entry `i` equal to `s[i+3] - s[i+2] - s[i+1] + s[i]` |
| `Adf.FirstPassWins` | Stress_testing.py:36-50 | the outcome is stationarity at order `d` if and only if steps `0..d-1` were tested and failed and step `d` passed with `statistic <= critical5` |
| `Adf.FailsWhenNoStagePasses` | Stress_testing.py:41-54 | the outcome is failure if and only if all three steps were tested and none passed |
| `Adf.RaisesWhenReachedStageRaises` | Stress_testing.py:36-44 | the test aborts if and only if `adfuller` raises at a step the escalation reaches |
| `Adf.DiffOneBeforeDiffTwo` | Stress_testing.py:41-50 | a variable that fails at level and passes after one difference is reported at order 1, never order 2 |
| `Stationarity.TestedNames` | Stress_testing.py:34 | the tested names are the parameter names from index 2 on, none if there are at most two |
| `Stationarity.TestedSkipsFirstRegressor` | Stress_testing.py:33-34 | for a formula with terms `t`, the tested names are `t` without its first term |
| `Stationarity.TestVariable` | Stress_testing.py:35-54 | the level, `diff(1)` and `diff(2)` loop with `break` and `for`/`else` computes exactly the reference escalation `Escalate` |
| `Stationarity.AdfTest` | Stress_testing.py:32-54 | it succeeds if and only if every tested name has a column that can be tested; then it gives one outcome per tested name, in order, equal to that column's escalation; otherwise it gives the error of the first name that cannot be tested |
| `Cointegration.CointegrationTest` | Stress_testing.py:57-68 | the verdict carries the residual ADF result and is "cointegrated" exactly when its p-value is at most 0.05; it aborts exactly when `adfuller` raises |
| `Cointegration.VerdictIgnoresStatistic` | Stress_testing.py:65 | two ADF results with the same p-value give the same verdict, whatever their statistics and critical values |
| `Cointegration.RulesDisagree` | Stress_testing.py:59-65 | a residual whose statistic clears the 5% critical value can still fail the p-value rule |

## Left out

- `main`, `pd.read_excel`, every `print` and `ADF_output` (Stress_testing.py:71-100) are input and presentation only. Verdicts are returned as data.
- The OLS numerics behind `model.rsquared_adj` and `model.pvalues` are an oracle parameter. The OLS oracle is assumed never to raise. In Python, `smf.ols(...).fit()` or `model.pvalues[candidate]` can raise, for example on a column name the formula parser cannot read or on a categorical column whose terms are renamed.
- The final refit at Stress_testing.py:26-28 is left out. The fitted model is represented by its term list `final.selected`. Its parameter names are `Stationarity.ParamNames` of that list, and its residuals are passed to `CointegrationTest` as a sequence.
- The internals of `adfuller` are an oracle parameter: AIC lag selection, `maxlag=9`, critical-value tables. The 1% and 10% critical values are left out because the analysis reads only the 5% value.
- Formula strings (`"{} ~ {} + 1".format`) are left out. A formula is its ordered term list.
- Set iteration order of `remaining` is left out. `ScoreRemaining` takes the candidates in an arbitrary order, and the sort makes the winner independent of it.
- The in-place `sort()` of `scores_with_candidates` is left out. `SortPop` computes the element that `sort()` followed by `pop()` returns, the maximum. The rest of the sorted list is discarded by the source.
- IEEE floating point, including NaN comparisons, is left out. Scores are exact reals.
- The source prints the reports of the variables tested before an error. `AdfTest` returns only the error.
- `Stepwise.ForwardSelected`: it does not run the Python loop for ever at a stall. It stops and reports `Stalled` with the proof that the state is a fixpoint of the guarded loop body.

/**
 * Greedy forward stepwise selection (`forward_selected`). Each round fits the
 * response on the already selected terms plus one remaining candidate, keeps
 * the candidate whose `(score, name, p-value)` triple sorts last, and accepts
 * it only when its adjusted R-squared beats the current score and its own
 * p-value is at most 0.05. The OLS fits are an oracle.
 */
module Stepwise {
  import opened PyOrder

  /** What the OLS fit of `response ~ selected + [candidate] + 1` reports. */
  datatype Fit = Fit(rsquaredAdj: real, pvalue: real)

  /** The OLS oracle: `fit(selected, candidate)` describes the fit whose terms are `selected + [candidate]`. */
  type Ols = (seq<Name>, Name) -> Fit

  /** The significance gate of the acceptance rule. */
  const SignificanceLevel: real := 0.05

  /** One entry of `scores_with_candidates`. */
  datatype Scored = Scored(score: real, candidate: Name, pvalue: real)

  /** Python's `<=` on `(score, candidate, pvalue)` tuples. */
  predicate ScoredLe(x: Scored, y: Scored) {
    x.score < y.score
    || (x.score == y.score
        && (StrLess(x.candidate, y.candidate)
            || (x.candidate == y.candidate && x.pvalue <= y.pvalue)))
  }

  lemma ScoredLeTotal(x: Scored, y: Scored)
    ensures ScoredLe(x, y) || ScoredLe(y, x)
  {
    StrLessTrichotomous(x.candidate, y.candidate);
  }

  lemma ScoredLeTransitive(x: Scored, y: Scored, z: Scored)
    requires ScoredLe(x, y) && ScoredLe(y, z)
    ensures ScoredLe(x, z)
  {
    if x.score == y.score == z.score && StrLess(x.candidate, y.candidate) && StrLess(y.candidate, z.candidate) {
      StrLessTransitive(x.candidate, y.candidate, z.candidate);
    }
  }

  lemma ScoredLeAntisymmetric(x: Scored, y: Scored)
    requires ScoredLe(x, y) && ScoredLe(y, x)
    ensures x == y
  {
    if StrLess(x.candidate, y.candidate) {
      StrLessAsymmetric(x.candidate, y.candidate);
    }
    if StrLess(y.candidate, x.candidate) {
      StrLessAsymmetric(y.candidate, x.candidate);
    }
  }

  /** The entry a round records for `candidate`. */
  function ScoreOf(fit: Ols, selected: seq<Name>, candidate: Name): Scored {
    var f := fit(selected, candidate);
    Scored(f.rsquaredAdj, candidate, f.pvalue)
  }

  /** The names a list of entries mentions. */
  function Candidates(scores: seq<Scored>): set<Name> {
    set k | 0 <= k < |scores| :: scores[k].candidate
  }

  /** `w` is the candidate whose entry is the largest of the round. */
  ghost predicate IsBest(fit: Ols, selected: seq<Name>, remaining: set<Name>, w: Name) {
    w in remaining
    && forall c :: c in remaining ==> ScoredLe(ScoreOf(fit, selected, c), ScoreOf(fit, selected, w))
  }

  /** At most one candidate of a round is the best: candidate names are unique. */
  lemma BestUnique(fit: Ols, selected: seq<Name>, remaining: set<Name>, v: Name, w: Name)
    requires IsBest(fit, selected, remaining, v) && IsBest(fit, selected, remaining, w)
    ensures v == w
  {
    ScoredLeAntisymmetric(ScoreOf(fit, selected, v), ScoreOf(fit, selected, w));
  }

  lemma BestOfLarger(fit: Ols, selected: seq<Name>, remaining: set<Name>, c: Name, w: Name)
    requires c in remaining && IsBest(fit, selected, remaining - {c}, w)
    ensures var pick := if ScoredLe(ScoreOf(fit, selected, c), ScoreOf(fit, selected, w)) then w else c;
            IsBest(fit, selected, remaining, pick)
  {
    var sc, sw := ScoreOf(fit, selected, c), ScoreOf(fit, selected, w);
    ScoredLeTotal(sc, sw);
    if !ScoredLe(sc, sw) {
      forall x | x in remaining
        ensures ScoredLe(ScoreOf(fit, selected, x), sc)
      {
        if x != c {
          ScoredLeTransitive(ScoreOf(fit, selected, x), sw, sc);
        }
      }
    }
  }

  /** The candidate that `sort()` followed by `pop()` leaves in `best_candidate`. */
  ghost function Best(fit: Ols, selected: seq<Name>, remaining: set<Name>): (w: Name)
    requires remaining != {}
    ensures IsBest(fit, selected, remaining, w)
    decreases remaining
  {
    var c :| c in remaining;
    if remaining == {c} then c
    else
      var w := Best(fit, selected, remaining - {c});
      BestOfLarger(fit, selected, remaining, c, w);
      if ScoredLe(ScoreOf(fit, selected, c), ScoreOf(fit, selected, w)) then w else c
  }

  /** The loop variables of `forward_selected`. */
  datatype State = State(remaining: set<Name>, selected: seq<Name>, currentScore: real, bestNewScore: real)

  function ColumnSet(columns: seq<Name>): set<Name> {
    set k | 0 <= k < |columns| :: columns[k]
  }

  /** The state before the first round. */
  function Initial(columns: seq<Name>, response: Name): State {
    State(ColumnSet(columns) - {response}, [], 0.0, 0.0)
  }

  /** The `while` guard. */
  predicate Continues(st: State) {
    st.remaining != {} && st.currentScore == st.bestNewScore
  }

  /** The winner of the round run from `st` passes the acceptance rule. */
  ghost predicate Accepts(fit: Ols, st: State)
    requires st.remaining != {}
  {
    var s := ScoreOf(fit, st.selected, Best(fit, st.selected, st.remaining));
    st.currentScore < s.score && s.pvalue <= SignificanceLevel
  }

  /** One execution of the loop body. */
  ghost function Round(fit: Ols, st: State): State
    requires st.remaining != {}
  {
    var w := Best(fit, st.selected, st.remaining);
    var s := ScoreOf(fit, st.selected, w);
    if st.currentScore < s.score && s.pvalue <= SignificanceLevel then
      State(st.remaining - {w}, st.selected + [w], s.score, s.score)
    else
      State(st.remaining, st.selected, st.currentScore, s.score)
  }

  /** The loop body's update, given the popped entry of the round. */
  lemma RoundStep(fit: Ols, st: State, bestNewScore: real, bestCandidate: Name, thePvalue: real)
    requires st.remaining != {}
    requires bestCandidate == Best(fit, st.selected, st.remaining)
    requires ScoreOf(fit, st.selected, bestCandidate) == Scored(bestNewScore, bestCandidate, thePvalue)
    ensures Round(fit, st) ==
              if st.currentScore < bestNewScore && thePvalue <= SignificanceLevel
              then State(st.remaining - {bestCandidate}, st.selected + [bestCandidate], bestNewScore, bestNewScore)
              else State(st.remaining, st.selected, st.currentScore, bestNewScore)
  {
  }

  /** The state after at most `n` rounds, stopping early when the guard fails. */
  ghost function Run(fit: Ols, st: State, n: nat): State
    decreases n
  {
    if n == 0 || !Continues(st) then st else Run(fit, Round(fit, st), n - 1)
  }

  lemma {:induction false} RunOneMore(fit: Ols, st: State, n: nat)
    requires Continues(Run(fit, st, n))
    ensures Run(fit, st, n + 1) == Round(fit, Run(fit, st, n))
    decreases n
  {
    if n > 0 {
      assert Continues(st);
      RunOneMore(fit, Round(fit, st), n - 1);
    }
  }

  /** Running `a` rounds and then `b` more is running `a + b` rounds. */
  lemma {:induction false} RunAdd(fit: Ols, st: State, a: nat, b: nat)
    ensures Run(fit, st, a + b) == Run(fit, Run(fit, st, a), b)
    decreases a
  {
    if a > 0 && Continues(st) {
      RunAdd(fit, Round(fit, st), a - 1, b);
    }
  }

  predicate NoDuplicates(s: seq<Name>) {
    forall i, j :: 0 <= i < j < |s| ==> s[i] != s[j]
  }

  /**
   * `selected` and `remaining` split the candidate columns without overlap;
   * the score is never negative and is positive once a term is selected.
   */
  ghost predicate Partition(candidates: set<Name>, st: State) {
    && NoDuplicates(st.selected)
    && (forall k :: 0 <= k < |st.selected| ==> st.selected[k] !in st.remaining)
    && ColumnSet(st.selected) + st.remaining == candidates
    && 0.0 <= st.currentScore
    && (st.selected != [] ==> 0.0 < st.currentScore)
  }

  lemma InitialPartition(columns: seq<Name>, response: Name)
    ensures Partition(ColumnSet(columns) - {response}, Initial(columns, response))
    ensures response !in Initial(columns, response).remaining
  {
    assert ColumnSet([]) == {};
  }

  lemma RoundKeepsPartition(fit: Ols, candidates: set<Name>, st: State)
    requires st.remaining != {} && Partition(candidates, st)
    ensures Partition(candidates, Round(fit, st))
  {
    var w := Best(fit, st.selected, st.remaining);
    var st' := Round(fit, st);
    if Accepts(fit, st) {
      assert ColumnSet(st'.selected) == ColumnSet(st.selected) + {w} by {
        assert forall k :: 0 <= k < |st.selected| ==> st'.selected[k] == st.selected[k];
        assert st'.selected[|st.selected|] == w;
      }
    }
  }

  /** A rejected round leaves `remaining`, `selected` and `current_score` as they were. */
  lemma RejectedRound(fit: Ols, st: State)
    requires Continues(st) && !Accepts(fit, st)
    ensures Round(fit, st).remaining == st.remaining
    ensures Round(fit, st).selected == st.selected
    ensures Round(fit, st).currentScore == st.currentScore
    ensures Continues(Round(fit, st)) <==> Round(fit, st).bestNewScore == st.currentScore
    ensures Continues(Round(fit, st)) ==> Round(fit, st) == st
  {
  }

  /** An accepted round moves the winner from `remaining` to the end of `selected` and raises the score. */
  lemma AcceptedRound(fit: Ols, st: State)
    requires Continues(st) && Accepts(fit, st)
    ensures var w := Best(fit, st.selected, st.remaining);
            && Round(fit, st).remaining == st.remaining - {w}
            && Round(fit, st).selected == st.selected + [w]
            && st.currentScore < Round(fit, st).currentScore
            && ScoreOf(fit, st.selected, w).pvalue <= SignificanceLevel
            && Continues(Round(fit, st)) == (Round(fit, st).remaining != {})
  {
  }

  /** A state the loop body does not change, with the guard true, is never left. */
  lemma {:induction false} StallNeverExits(fit: Ols, st: State, n: nat)
    requires Continues(st) && Round(fit, st) == st
    ensures Run(fit, st, n) == st
    decreases n
  {
    if n > 0 {
      StallNeverExits(fit, st, n - 1);
    }
  }

  /** Once the loop reaches a stall after `k` rounds, every later number of rounds ends in the same state. */
  lemma StalledForever(fit: Ols, st: State, k: nat)
    requires Continues(Run(fit, st, k)) && Round(fit, Run(fit, st, k)) == Run(fit, st, k)
    ensures forall m: nat :: k <= m ==> Run(fit, st, m) == Run(fit, st, k)
  {
    forall m: nat | k <= m
      ensures Run(fit, st, m) == Run(fit, st, k)
    {
      RunAdd(fit, st, k, m - k);
      StallNeverExits(fit, Run(fit, st, k), m - k);
    }
  }

  /**
   * A first round whose best adjusted R-squared is exactly 0.0 is rejected
   * with `best_new_score == current_score`, so the loop never ends.
   */
  lemma {:induction false} ZeroBestScoreStalls(fit: Ols, columns: seq<Name>, response: Name, n: nat)
    requires ColumnSet(columns) - {response} != {}
    requires ScoreOf(fit, [], Best(fit, [], ColumnSet(columns) - {response})).score == 0.0
    ensures Continues(Initial(columns, response)) && Run(fit, Initial(columns, response), n) == Initial(columns, response)
  {
    var init := Initial(columns, response);
    assert Round(fit, init) == init;
    StallNeverExits(fit, init, n);
  }

  /** Rounds only append to `selected`, and the score rises exactly when something was appended. */
  lemma {:induction false} RunGrowsSelection(fit: Ols, candidates: set<Name>, st: State, n: nat)
    requires Partition(candidates, st)
    ensures var st' := Run(fit, st, n);
            && Partition(candidates, st')
            && st.selected <= st'.selected
            && st.currentScore <= st'.currentScore
            && (|st.selected| < |st'.selected| <==> st.currentScore < st'.currentScore)
    decreases n
  {
    if n > 0 && Continues(st) {
      RoundKeepsPartition(fit, candidates, st);
      RunGrowsSelection(fit, candidates, Round(fit, st), n - 1);
    }
  }

  /** When the first round rejects, the final formula has no regressor (intercept only). */
  lemma {:induction false} FirstRejectionSelectsNothing(fit: Ols, st: State, n: nat)
    requires Continues(st) && st.selected == [] && !Accepts(fit, st)
    ensures Run(fit, st, n).selected == []
    decreases n
  {
    if n > 0 {
      RejectedRound(fit, st);
      if Continues(Round(fit, st)) {
        FirstRejectionSelectsNothing(fit, st, n - 1);
      }
    }
  }

  lemma {:induction false} DistinctCount(s: seq<Name>)
    requires NoDuplicates(s)
    ensures |ColumnSet(s)| == |s|
    decreases |s|
  {
    if s != [] {
      var t := s[..|s| - 1];
      DistinctCount(t);
      assert ColumnSet(s) == ColumnSet(t) + {s[|s| - 1]};
    }
  }

  lemma {:induction false} ColumnSetBound(s: seq<Name>)
    ensures |ColumnSet(s)| <= |s|
    decreases |s|
  {
    if s != [] {
      var t := s[..|s| - 1];
      ColumnSetBound(t);
      assert ColumnSet(s) == ColumnSet(t) + {s[|s| - 1]};
    }
  }

  /** `selected` and `remaining` together hold each candidate exactly once. */
  lemma PartitionSize(candidates: set<Name>, st: State)
    requires Partition(candidates, st)
    ensures |st.selected| + |st.remaining| == |candidates|
  {
    DistinctCount(st.selected);
    assert ColumnSet(st.selected) * st.remaining == {};
  }

  /** One round per accepted term, plus at most one rejected round while candidates remain. */
  lemma RoundsBound(candidates: set<Name>, st: State, rounds: nat)
    requires Partition(candidates, st)
    requires rounds == |st.selected| || (rounds == |st.selected| + 1 && st.remaining != {})
    ensures rounds <= |candidates|
  {
    PartitionSize(candidates, st);
  }

  /** The number of selected terms never exceeds the number of columns other than the response. */
  lemma PartitionBound(columns: seq<Name>, response: Name, st: State)
    requires response in columns && Partition(ColumnSet(columns) - {response}, st)
    ensures |st.selected| <= |columns| - 1
  {
    DistinctCount(st.selected);
    ColumnSetBound(columns);
    assert response in ColumnSet(columns);
    assert |ColumnSet(st.selected)| <= |ColumnSet(columns) - {response}|;
  }

  /** What holds of the state the loop reaches after `rounds` rounds, one per accepted term and at most one more. */
  lemma SelectionFacts(fit: Ols, columns: seq<Name>, response: Name, st: State, rounds: nat)
    requires response in columns
    requires st == Run(fit, Initial(columns, response), rounds)
    requires rounds == |st.selected| || (rounds == |st.selected| + 1 && st.remaining != {})
    ensures Partition(ColumnSet(columns) - {response}, st)
    ensures |st.selected| <= |columns| - 1
    ensures rounds <= |ColumnSet(columns) - {response}|
  {
    var candidates := ColumnSet(columns) - {response};
    InitialPartition(columns, response);
    RunGrowsSelection(fit, candidates, Initial(columns, response), rounds);
    PartitionBound(columns, response, st);
    RoundsBound(candidates, st, rounds);
  }

  /** How the selection loop ended. */
  datatype Selection =
    | MissingResponse          // `remaining.remove(response)` raises `KeyError`
    | Finished(final: State)   // the `while` guard became false
    | Stalled(final: State)    // the guard holds and a round returns the state unchanged: the loop never ends

  lemma CandidatesAppend(scores: seq<Scored>, entry: Scored)
    ensures Candidates(scores + [entry]) == Candidates(scores) + {entry.candidate}
  {
    assert (scores + [entry])[|scores|] == entry;
    assert forall k :: 0 <= k < |scores| ==> (scores + [entry])[k] == scores[k];
  }

  /** Scores every remaining candidate, in the set's iteration order. */
  method ScoreRemaining(fit: Ols, selected: seq<Name>, remaining: set<Name>) returns (scores: seq<Scored>)
    ensures |scores| == |remaining|
    ensures Candidates(scores) == remaining
    ensures forall k :: 0 <= k < |scores| ==> scores[k] == ScoreOf(fit, selected, scores[k].candidate)
  {
    scores := [];
    var todo := remaining;
    while todo != {}
      invariant Candidates(scores) + todo == remaining && Candidates(scores) * todo == {}
      invariant |scores| + |todo| == |remaining|
      invariant forall k :: 0 <= k < |scores| ==> scores[k] == ScoreOf(fit, selected, scores[k].candidate)
      decreases todo
    {
      var candidate :| candidate in todo;
      var entry := ScoreOf(fit, selected, candidate);
      CandidatesAppend(scores, entry);
      scores := scores + [entry];
      todo := todo - {candidate};
    }
  }

  /** The entry `scores.sort()` puts last and `pop()` returns: the largest one. */
  method SortPop(scores: seq<Scored>) returns (top: Scored)
    requires scores != []
    ensures top in scores
    ensures forall k :: 0 <= k < |scores| ==> ScoredLe(scores[k], top)
  {
    top := scores[0];
    var i := 1;
    while i < |scores|
      invariant 1 <= i <= |scores|
      invariant top in scores[..i]
      invariant forall k :: 0 <= k < i ==> ScoredLe(scores[k], top)
    {
      ScoredLeTotal(scores[i], top);
      if !ScoredLe(scores[i], top) {
        forall k | 0 <= k < i
          ensures ScoredLe(scores[k], scores[i])
        {
          ScoredLeTransitive(scores[k], top, scores[i]);
        }
        top := scores[i];
      }
      i := i + 1;
    }
  }

  /** Lines 12-21 of one round: score every remaining candidate, sort, and pop the last entry. */
  method BestOfRound(fit: Ols, selected: seq<Name>, remaining: set<Name>) returns (bestNewScore: real, bestCandidate: Name, thePvalue: real)
    requires remaining != {}
    ensures bestCandidate == Best(fit, selected, remaining)
    ensures ScoreOf(fit, selected, bestCandidate) == Scored(bestNewScore, bestCandidate, thePvalue)
  {
    var scores := ScoreRemaining(fit, selected, remaining);
    var top := SortPop(scores);
    bestNewScore, bestCandidate, thePvalue := top.score, top.candidate, top.pvalue;
    assert IsBest(fit, selected, remaining, bestCandidate) by {
      forall c | c in remaining
        ensures ScoredLe(ScoreOf(fit, selected, c), ScoreOf(fit, selected, bestCandidate))
      {
        var k :| 0 <= k < |scores| && scores[k].candidate == c;
      }
    }
    BestUnique(fit, selected, remaining, bestCandidate, Best(fit, selected, remaining));
  }

  /** Lines 12-25, one execution of the loop body: find the round's winner and apply the acceptance rule. */
  method PlayRound(fit: Ols, remaining: set<Name>, selected: seq<Name>, currentScore: real, bestNewScore: real)
    returns (remaining': set<Name>, selected': seq<Name>, currentScore': real, bestNewScore': real)
    requires remaining != {} && currentScore == bestNewScore
    ensures State(remaining', selected', currentScore', bestNewScore')
            == Round(fit, State(remaining, selected, currentScore, bestNewScore))
    ensures |selected'| == |selected| && currentScore' == bestNewScore'
            ==> State(remaining', selected', currentScore', bestNewScore') == State(remaining, selected, currentScore, bestNewScore)
    ensures |selected'| == |selected| + 1 || (|selected'| == |selected| && remaining' == remaining)
  {
    var bestCandidate, thePvalue;
    bestNewScore', bestCandidate, thePvalue := BestOfRound(fit, selected, remaining);
    RoundStep(fit, State(remaining, selected, currentScore, bestNewScore), bestNewScore', bestCandidate, thePvalue);
    remaining', selected', currentScore' := remaining, selected, currentScore;
    if currentScore < bestNewScore' && thePvalue <= SignificanceLevel {
      remaining' := remaining - {bestCandidate};
      selected' := selected + [bestCandidate];
      currentScore' := bestNewScore';
    }
  }

  /**
   * `forward_selected`: the final formula's terms are `r.final.selected`, in
   * acceptance order. A stall is reported instead of looping for ever.
   */
  method ForwardSelected(columns: seq<Name>, response: Name, fit: Ols) returns (r: Selection, rounds: nat)
    ensures r.MissingResponse? <==> response !in columns
    ensures !r.MissingResponse? ==> r.final == Run(fit, Initial(columns, response), rounds)
    ensures !r.MissingResponse? ==> Partition(ColumnSet(columns) - {response}, r.final)
    ensures !r.MissingResponse? ==> |r.final.selected| <= |columns| - 1
    ensures r.Finished? ==> !Continues(r.final)
    ensures r.Stalled? ==> Continues(r.final) && Round(fit, r.final) == r.final
    ensures r.Stalled? ==> forall m: nat :: rounds <= m ==> Run(fit, Initial(columns, response), m) == r.final
    ensures !r.MissingResponse? ==> rounds <= |ColumnSet(columns) - {response}|
  {
    if response !in columns {
      return MissingResponse, 0;
    }
    var remaining := ColumnSet(columns);
    remaining := remaining - {response};
    var selected: seq<Name> := [];
    var currentScore, bestNewScore := 0.0, 0.0;
    rounds := 0;
    ghost var init := Initial(columns, response);
    assert init == State(remaining, selected, currentScore, bestNewScore);
    while remaining != {} && currentScore == bestNewScore
      invariant State(remaining, selected, currentScore, bestNewScore) == Run(fit, init, rounds)
      invariant rounds == |selected| || (rounds == |selected| + 1 && remaining != {})
      invariant currentScore == bestNewScore ==> rounds == |selected|
      decreases |remaining|, if currentScore == bestNewScore then 1 else 0
    {
      var before := |selected|;
      RunOneMore(fit, init, rounds);
      remaining, selected, currentScore, bestNewScore := PlayRound(fit, remaining, selected, currentScore, bestNewScore);
      rounds := rounds + 1;
      if |selected| == before && currentScore == bestNewScore {
        r := Stalled(State(remaining, selected, currentScore, bestNewScore));
        SelectionFacts(fit, columns, response, r.final, rounds);
        StalledForever(fit, init, rounds);
        return;
      }
    }
    r := Finished(State(remaining, selected, currentScore, bestNewScore));
    SelectionFacts(fit, columns, response, r.final, rounds);
  }
}

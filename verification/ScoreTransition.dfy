/** The order that tennis_win_prob.py puts on one provider's scores (score_transition_advances). */
module ScoreTransition {
  import opened Common
  import opened TennisChances

  datatype Score = Score(
    timestamp: Option<real>, lifecycle: string,
    setsFor: int, setsAgainst: int, gamesFor: int, gamesAgainst: int)

  function Rank(lifecycle: string): Option<nat> {
    if lifecycle == "pre" then Some(0)
    else if lifecycle == "in" then Some(1)
    else if lifecycle == "post" then Some(2)
    else None
  }

  predicate Advances(previous: Option<Score>, current: Score) {
    if previous.None? then true
    else
      var prior := previous.value;
      if Rank(prior.lifecycle).None? || Rank(current.lifecycle).None? then false
      else if Rank(current.lifecycle).value < Rank(prior.lifecycle).value then false
      else if prior.timestamp.Some?
        && (current.timestamp.None? || current.timestamp.value < prior.timestamp.value) then false
      else if prior.timestamp.Some? && current.timestamp == prior.timestamp
              && current.(timestamp := None) != prior.(timestamp := None) then false
      else if current.setsFor < prior.setsFor || current.setsAgainst < prior.setsAgainst then false
      else if (current.setsFor, current.setsAgainst) == (prior.setsFor, prior.setsAgainst)
              && (current.gamesFor < prior.gamesFor || current.gamesAgainst < prior.gamesAgainst) then false
      else true
  }

  ghost predicate Known(s: Score) { Rank(s.lifecycle).Some? }

  /** On known lifecycles, advancing is a partial order. */
  lemma AdvancesIsPartialOrder(a: Score, b: Score, c: Score)
    ensures Advances(Some(a), a) <==> Known(a)
    ensures Advances(Some(a), b) && Advances(Some(b), c) ==> Advances(Some(a), c)
    ensures Advances(Some(a), b) && Advances(Some(b), a) ==> a == b
  {
  }

  /** Neither score came back down: the sets did not fall, nor, within one set, the games. */
  ghost predicate Climbs(prior: Score, next: Score) {
    && prior.setsFor <= next.setsFor && prior.setsAgainst <= next.setsAgainst
    && (prior.setsFor == next.setsFor && prior.setsAgainst == next.setsAgainst ==>
          prior.gamesFor <= next.gamesFor && prior.gamesAgainst <= next.gamesAgainst)
  }

  /** The lifecycles that may follow one another. */
  ghost predicate Follows(prior: string, next: string) {
    || (prior == "pre" && next in {"pre", "in", "post"})
    || (prior == "in" && next in {"in", "post"})
    || (prior == "post" && next == "post")
  }

  /** Exactly when a score advances: time goes on, or it is the same score, and nothing comes back down. */
  lemma AdvancesExactly(prior: Score, next: Score)
    ensures Advances(None, next)
    ensures Advances(Some(prior), next)
       <==> Follows(prior.lifecycle, next.lifecycle) && Climbs(prior, next)
            && (prior.timestamp.Some? ==>
                  next.timestamp.Some? && (prior.timestamp.value < next.timestamp.value || prior == next))
  {
  }

  // ---------- Play advances ----------

  /** What the provider reports of a standing. */
  function Reported(timestamp: Option<real>, s: Standing): Score {
    Score(timestamp, "in", s.setsFor, s.setsAgainst, s.gamesFor, s.gamesAgainst)
  }

  lemma {:induction false} PlayClimbs(needed: nat, s: Standing, points: seq<bool>, timestamp: Option<real>,
                                      later: Option<real>)
    ensures Climbs(Reported(timestamp, s), Reported(later, Played(needed, s, points)))
    decreases |points|
  {
    if points != [] && FateOf(needed, s) == Undecided {
      PlayClimbs(needed, AfterPoint(s, points[0]), points[1..], timestamp, later);
    }
  }

  /** Whatever points are played between two reports, won sets included, the later report advances on the earlier. */
  lemma PlayAdvances(needed: nat, s: Standing, points: seq<bool>, timestamp: Option<real>, later: Option<real>)
    requires timestamp.Some? ==> later.Some? && timestamp.value < later.value
    ensures Advances(Some(Reported(timestamp, s)), Reported(later, Played(needed, s, points)))
  {
    PlayClimbs(needed, s, points, timestamp, later);
    AdvancesExactly(Reported(timestamp, s), Reported(later, Played(needed, s, points)));
  }

  // ---------- Chains of reports ----------

  ghost predicate AcceptedChain(scores: seq<Score>) {
    forall i :: 0 < i < |scores| ==> Advances(Some(scores[i - 1]), scores[i])
  }

  /** Over every accepted chain, each score advances on all before it. */
  lemma {:induction false} ChainAdvances(scores: seq<Score>, i: nat, j: nat)
    requires AcceptedChain(scores) && i < j < |scores|
    ensures Advances(Some(scores[i]), scores[j])
  {
    if i + 1 < j {
      ChainAdvances(scores, i, j - 1);
      AdvancesIsPartialOrder(scores[i], scores[j - 1], scores[j]);
    }
  }

  /** A score that has been left never returns. */
  lemma NoReturn(scores: seq<Score>, i: nat, k: nat, j: nat)
    requires AcceptedChain(scores) && i < k < j < |scores| && scores[i] == scores[j]
    ensures scores[k] == scores[i]
  {
    ChainAdvances(scores, i, k);
    ChainAdvances(scores, k, j);
    AdvancesIsPartialOrder(scores[i], scores[k], scores[j]);
  }
}

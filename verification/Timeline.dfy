/**
  Progression between polls of a match timeline
  (inci_tennis_adapters/sportradar_trial_v3.py).  Times are nonnegative nanoseconds.
*/
module Timeline {
  import opened Common

  datatype Event = Event(
    id: nat, eventType: string, wallNs: nat,
    homeScore: Option<nat>, awayScore: Option<nat>,
    competitor: Option<string>, server: Option<string>, result: Option<string>,
    firstServeFault: Option<bool>, period: Option<nat>, periodName: Option<string>, reason: Option<string>,
    updated: bool, updatedWallNs: Option<nat>)

  datatype Score = Score(
    status: string, matchStatus: Option<string>,
    setsHome: Option<nat>, setsAway: Option<nat>, gamesHome: Option<nat>, gamesAway: Option<nat>,
    pointsHome: string, pointsAway: string, serving: Option<string>, inTiebreak: Option<bool>)

  datatype Snapshot = Snapshot(matchId: string, generatedWallNs: nat, score: Score, events: seq<Event>)

  datatype Progress = Unchanged | ScoreChanged | Advanced | Corrected | CorrectedAndAdvanced

  datatype TimelineError = TimelineGap | UnmarkedCorrection | OrderInvalid

  // ---------- Reading one timeline ----------

  ghost predicate Ascending(events: seq<Event>) {
    forall i, j :: 0 <= i < j < |events| ==> events[i].id < events[j].id
  }

  /** The event-order loop: it passes exactly the timelines whose ids strictly ascend. */
  method CheckOrder(events: seq<Event>) returns (r: Result<(), TimelineError>)
    ensures r == Ok(()) <==> Ascending(events)
    ensures r.Err? ==> r.error == OrderInvalid
  {
    var previousId: int := -1;
    for i := 0 to |events|
      invariant Ascending(events[..i])
      invariant previousId == if i == 0 then -1 else events[i - 1].id
    {
      if events[i].id <= previousId {
        return Err(OrderInvalid);
      }
      previousId := events[i].id;
    }
    assert events[..|events|] == events;
    return Ok(());
  }

  // ---------- One poll after another ----------

  /** `updated_wall_ns or event_wall_ns`: a revision time of zero counts as none. */
  function RevisionTime(e: Event): nat {
    if e.updatedWallNs.Some? && e.updatedWallNs.value != 0 then e.updatedWallNs.value else e.wallNs
  }

  /** A changed event must be marked as updated, strictly later than its last revision. */
  predicate MarkedRevision(prior: Event, next: Event) {
    next.updated && next.updatedWallNs.Some? && next.updatedWallNs.value > RevisionTime(prior)
  }

  /** The first `n` pairs of the zip: Ok says whether any was corrected. */
  function ScanPairs(prior: seq<Event>, next: seq<Event>, n: nat): Result<bool, TimelineError>
    requires n <= |prior| <= |next|
  {
    if n == 0 then Ok(false)
    else
      var before := ScanPairs(prior, next, n - 1);
      if before.Err? then before
      else if prior[n - 1].id != next[n - 1].id then Err(TimelineGap)
      else if prior[n - 1] == next[n - 1] then before
      else if !MarkedRevision(prior[n - 1], next[n - 1]) then Err(UnmarkedCorrection)
      else Ok(true)
  }

  function Progression(previous: Snapshot, current: Snapshot): Result<Progress, TimelineError> {
    if previous.matchId != current.matchId || current.generatedWallNs < previous.generatedWallNs
       || |current.events| < |previous.events| then Err(TimelineGap)
    else
      var scan := ScanPairs(previous.events, current.events, |previous.events|);
      if scan.Err? then Err(scan.error)
      else if AppendsBackwards(previous.events, current.events) then Err(TimelineGap)
      else Ok(Classify(scan.value, previous, current))
  }

  predicate AppendsBackwards(prior: seq<Event>, next: seq<Event>) {
    |next| > |prior| > 0 && next[|prior|].id <= prior[|prior| - 1].id
  }

  function Classify(corrected: bool, previous: Snapshot, current: Snapshot): Progress {
    var advanced := |current.events| > |previous.events|;
    if corrected && advanced then CorrectedAndAdvanced
    else if corrected then Corrected
    else if advanced then Advanced
    else if current.score != previous.score then ScoreChanged
    else Unchanged
  }

  method ValidateTimelineProgression(previous: Snapshot, current: Snapshot) returns (r: Result<Progress, TimelineError>)
    ensures r == Progression(previous, current)
  {
    if previous.matchId != current.matchId || current.generatedWallNs < previous.generatedWallNs
       || |current.events| < |previous.events| {
      return Err(TimelineGap);
    }
    var corrected := false;
    for i := 0 to |previous.events|
      invariant ScanPairs(previous.events, current.events, i) == Ok(corrected)
    {
      var prior, next := previous.events[i], current.events[i];
      if prior.id != next.id {
        ScanStops(previous.events, current.events, i + 1, |previous.events|);
        return Err(TimelineGap);
      }
      if prior != next {
        if !MarkedRevision(prior, next) {
          ScanStops(previous.events, current.events, i + 1, |previous.events|);
          return Err(UnmarkedCorrection);
        }
        corrected := true;
      }
    }
    if AppendsBackwards(previous.events, current.events) { return Err(TimelineGap); }
    return Ok(Classify(corrected, previous, current));
  }

  lemma {:induction false} ScanStops(prior: seq<Event>, next: seq<Event>, i: nat, n: nat)
    requires i <= n <= |prior| <= |next| && ScanPairs(prior, next, i).Err?
    ensures ScanPairs(prior, next, n) == ScanPairs(prior, next, i)
  {
    if i < n { ScanStops(prior, next, i, n - 1); }
  }

  // ---------- What an accepted poll promises ----------

  /** When the event was last revised: a revision time of zero is none. */
  function Since(e: Event): nat {
    match e.updatedWallNs
    case None => e.wallNs
    case Some(at) => if at > 0 then at else e.wallNs
  }

  /** The event is unchanged, or marked as updated later than it was last revised. */
  predicate Revises(prior: Event, next: Event) {
    && prior.id == next.id
    && (prior == next || (next.updated && next.updatedWallNs.Some? && Since(prior) < next.updatedWallNs.value))
  }

  /** Same match, not older and with no event missing. */
  predicate SameFeed(a: Snapshot, b: Snapshot) {
    a.matchId == b.matchId && a.generatedWallNs <= b.generatedWallNs && |a.events| <= |b.events|
  }

  ghost predicate Extends(prior: seq<Event>, next: seq<Event>) {
    |prior| <= |next| && forall i :: 0 <= i < |prior| ==> Revises(prior[i], next[i])
  }

  lemma {:induction false} ScanMeaning(prior: seq<Event>, next: seq<Event>, n: nat)
    requires n <= |prior| <= |next|
    ensures ScanPairs(prior, next, n).Ok? <==> forall i :: 0 <= i < n ==> Revises(prior[i], next[i])
    ensures ScanPairs(prior, next, n).Ok? ==> (ScanPairs(prior, next, n).value <==> prior[..n] != next[..n])
  {
    if n > 0 {
      ScanMeaning(prior, next, n - 1);
      assert prior[..n] == prior[..n - 1] + [prior[n - 1]] && next[..n] == next[..n - 1] + [next[n - 1]];
    }
  }

  lemma {:induction false} ScanError(prior: seq<Event>, next: seq<Event>, n: nat)
    requires n <= |prior| <= |next|
    ensures ScanPairs(prior, next, n).Err? ==> ScanPairs(prior, next, n).error in {TimelineGap, UnmarkedCorrection}
    ensures ScanPairs(prior, next, n) == Err(UnmarkedCorrection) <==> exists i :: UnmarkedAt(prior, next, n, i)
  {
    if n > 0 {
      ScanError(prior, next, n - 1);
      ScanMeaning(prior, next, n - 1);
      ScanMeaning(prior, next, n);
      if ScanPairs(prior, next, n) == Err(UnmarkedCorrection) {
        if ScanPairs(prior, next, n - 1).Err? {
          var i :| UnmarkedAt(prior, next, n - 1, i);
          assert UnmarkedAt(prior, next, n, i);
        } else {
          assert UnmarkedAt(prior, next, n, n - 1);
        }
      }
      if i: nat :| UnmarkedAt(prior, next, n, i) {
        if i < n - 1 { assert UnmarkedAt(prior, next, n - 1, i); }
      }
    }
  }

  /** The first pair that is no revision is at `i`, and is of the same event. */
  ghost predicate UnmarkedAt(prior: seq<Event>, next: seq<Event>, n: nat, i: nat) {
    && i < n <= |prior| <= |next|
    && prior[i].id == next[i].id && !Revises(prior[i], next[i])
    && forall k :: 0 <= k < i ==> Revises(prior[k], next[k])
  }

  /** A poll is refused as an unmarked correction exactly when one comes before any gap; otherwise as a gap. */
  lemma RefusedPoll(a: Snapshot, b: Snapshot)
    ensures var r := Progression(a, b);
      && (r.Err? ==> r.error in {TimelineGap, UnmarkedCorrection})
      && (r == Err(UnmarkedCorrection) <==>
            SameFeed(a, b) && exists i :: UnmarkedAt(a.events, b.events, |a.events|, i))
  {
    if |a.events| <= |b.events| { ScanError(a.events, b.events, |a.events|); }
  }

  /** Exactly when a poll is accepted after another, and what its class says. */
  lemma AcceptedPoll(a: Snapshot, b: Snapshot)
    ensures Progression(a, b).Ok? <==>
              && SameFeed(a, b) && Extends(a.events, b.events)
              && (0 < |a.events| < |b.events| ==> a.events[|a.events| - 1].id < b.events[|a.events|].id)
    ensures Progression(a, b).Ok? ==>
              var p := Progression(a, b).value;
              && (p in {Corrected, CorrectedAndAdvanced} <==> !(a.events <= b.events))
              && (p in {Advanced, CorrectedAndAdvanced} <==> |a.events| < |b.events|)
              && (p == Unchanged <==> a.events == b.events && a.score == b.score)
  {
    if |a.events| <= |b.events| {
      ScanMeaning(a.events, b.events, |a.events|);
      assert a.events[..|a.events|] == a.events;
    }
  }

  /** A revision's own time is strictly later than that of what it revises. */
  lemma RevisionIsLater(prior: Event, next: Event)
    requires Revises(prior, next) && prior != next
    ensures Since(next) > Since(prior)
  {
  }

  /** The first poll against the last is accepted too. */
  lemma ProgressionTransitive(a: Snapshot, b: Snapshot, c: Snapshot)
    requires Progression(a, b).Ok? && Progression(b, c).Ok?
    ensures Progression(a, c).Ok?
  {
    AcceptedPoll(a, b);
    AcceptedPoll(b, c);
    AcceptedPoll(a, c);
    forall i | 0 <= i < |a.events| ensures Revises(a.events[i], c.events[i]) {
    }
  }

  // ---------- Chains of polls ----------

  ghost predicate AcceptedChain(polls: seq<Snapshot>) {
    forall k :: 0 < k < |polls| ==> Progression(polls[k - 1], polls[k]).Ok?
  }

  lemma {:induction false} ChainAccepts(polls: seq<Snapshot>, i: nat, j: nat)
    requires AcceptedChain(polls) && i < j < |polls|
    ensures Progression(polls[i], polls[j]).Ok?
  {
    if i + 1 < j {
      ChainAccepts(polls, i, j - 1);
      ProgressionTransitive(polls[i], polls[j - 1], polls[j]);
    }
  }

  function Ids(events: seq<Event>): seq<nat> {
    seq(|events|, i requires 0 <= i < |events| => events[i].id)
  }

  /** Over every chain of accepted polls, event ids only extend a fixed prefix. */
  lemma ChainExtendsIds(polls: seq<Snapshot>, i: nat, j: nat)
    requires AcceptedChain(polls) && i < j < |polls|
    ensures Ids(polls[i].events) <= Ids(polls[j].events)
  {
    ChainAccepts(polls, i, j);
    AcceptedPoll(polls[i], polls[j]);
  }

  /** Each change to an event strictly raises its revision time. */
  lemma ChainRaisesRevision(polls: seq<Snapshot>, i: nat, j: nat, e: nat)
    requires AcceptedChain(polls) && i < j < |polls| && e < |polls[i].events|
    ensures e < |polls[j].events|
    ensures polls[i].events[e] != polls[j].events[e] ==>
              Since(polls[i].events[e]) < Since(polls[j].events[e])
  {
    ChainAccepts(polls, i, j);
    AcceptedPoll(polls[i], polls[j]);
    if polls[i].events[e] != polls[j].events[e] {
      RevisionIsLater(polls[i].events[e], polls[j].events[e]);
    }
  }

  /** So a version that has been replaced never returns. */
  lemma NoOldVersionReturns(polls: seq<Snapshot>, i: nat, k: nat, j: nat, e: nat)
    requires AcceptedChain(polls) && i < k < j < |polls| && e < |polls[i].events|
    ensures e < |polls[k].events| && e < |polls[j].events|
    ensures polls[i].events[e] == polls[j].events[e] ==> polls[k].events[e] == polls[i].events[e]
  {
    ChainRaisesRevision(polls, i, k, e);
    ChainRaisesRevision(polls, k, j, e);
  }
}

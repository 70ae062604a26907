/**
  Tennis scores: the reachability filter of inci_tennis_adapters/sportradar_tennis_v3.py and
  the point machine of inci_tennis_expert/tennis_score.py.
*/
module TennisScore {
  import opened Common

  datatype Side = Home | Away

  datatype Format = BestOfThree | BestOfFive

  datatype Points = Love | Fifteen | Thirty | Forty | Advantage

  datatype Status = Scheduled | Live | Suspended | Ended | Cancelled

  datatype Termination = NotEnded | Natural | Walkover | Retirement | Cancellation

  datatype SetScore = SetScore(home: nat, away: nat, tiebreakHome: Option<nat>, tiebreakAway: Option<nat>)

  datatype Snapshot = Snapshot(
    format: Format, status: Status, termination: Termination, winner: Option<Side>, retired: Option<Side>,
    sets: seq<SetScore>, gamesHome: nat, gamesAway: nat, pointsHome: Points, pointsAway: Points,
    inTiebreak: bool, tiebreakHome: nat, tiebreakAway: nat, tiebreakFirst: Option<Side>, server: Option<Side>)

  // ---------- What the contract demands of a snapshot ----------

  predicate ValidSet(s: SetScore) { s.tiebreakHome.None? <==> s.tiebreakAway.None? }

  predicate ValidScore(s: Snapshot) {
    && (forall i :: 0 <= i < |s.sets| ==> ValidSet(s.sets[i]))
    && (s.pointsHome == Advantage ==> s.pointsAway == Forty)
    && (s.pointsAway == Advantage ==> s.pointsHome == Forty)
    && (if s.inTiebreak then s.pointsHome == Love && s.pointsAway == Love
        else s.tiebreakHome == 0 && s.tiebreakAway == 0 && s.tiebreakFirst.None?)
  }

  predicate ValidStatus(s: Snapshot) {
    match s.status
    case Scheduled => s.termination == NotEnded && s.winner.None? && s.retired.None?
    case Live => s.termination == NotEnded && s.winner.None? && s.retired.None?
    case Suspended => s.termination == NotEnded && s.winner.None? && s.retired.None?
    case Ended =>
      (s.termination in {Natural, Walkover} && s.winner.Some? && s.retired.None?)
      || (s.termination == Retirement && s.winner.Some? && s.retired.Some? && s.winner != s.retired)
    case Cancelled => s.termination == Cancellation && s.winner.None? && s.retired.None? && s.server.None?
  }

  // ---------- The filter ----------

  function Opposite(side: Side): Side { if side.Home? then Away else Home }

  function CompletedSetWinner(s: SetScore): Option<Side> {
    if s.tiebreakHome.None? then
      if (s.home == 6 && s.away <= 4) || (s.home == 7 && s.away == 5) then Some(Home)
      else if (s.away == 6 && s.home <= 4) || (s.away == 7 && s.home == 5) then Some(Away)
      else None
    else if s.tiebreakAway.None? then None
    else
      var h, a := s.tiebreakHome.value, s.tiebreakAway.value;
      if (s.home, s.away) == (7, 6) && h >= 7 && h - a >= 2 then Some(Home)
      else if (s.home, s.away) == (6, 7) && a >= 7 && a - h >= 2 then Some(Away)
      else None
  }

  predicate TiebreakWon(home: int, away: int) {
    (home >= 7 && home - away >= 2) || (away >= 7 && away - home >= 2)
  }

  predicate NormalSetWon(home: int, away: int) {
    (home >= 6 && home - away >= 2) || (away >= 6 && away - home >= 2)
  }

  function TiebreakServer(first: Side, completedPoints: nat): Side {
    if completedPoints == 0 then first
    else if (completedPoints - 1) / 2 % 2 == 0 then Opposite(first)
    else first
  }

  function RequiredSets(format: Format): nat { if format.BestOfThree? then 2 else 3 }

  function Wins(sets: seq<SetScore>, side: Side): nat {
    if sets == [] then 0
    else
      var n := |sets| - 1;
      Wins(sets[..n], side) + (if CompletedSetWinner(sets[n]) == Some(side) then 1 else 0)
  }

  /** A valid prefix of sets carries the side that clinched with its last set, if any; None is invalid. */
  function CompletedPrefix(sets: seq<SetScore>, required: nat): Option<Option<Side>> {
    if sets == [] then Some(None)
    else
      var n := |sets| - 1;
      var winner := CompletedSetWinner(sets[n]);
      if CompletedPrefix(sets[..n], required) != Some(None) || winner.None? then None
      else Some(if Wins(sets, winner.value) == required then winner else None)
  }

  /** The completed-set scan with its counters. */
  method ScanCompletedSets(sets: seq<SetScore>, required: nat) returns (prefixValid: bool, clinching: Option<Side>)
    ensures prefixValid <==> CompletedPrefix(sets, required).Some?
    ensures prefixValid ==> CompletedPrefix(sets, required) == Some(clinching)
  {
    hide CompletedSetWinner;
    var homeSets, awaySets := 0, 0;
    clinching := None;
    prefixValid := true;
    for index := 0 to |sets|
      invariant prefixValid && CompletedPrefix(sets[..index], required) == Some(clinching)
      invariant homeSets == Wins(sets[..index], Home) && awaySets == Wins(sets[..index], Away)
      invariant clinching.Some? ==> index == |sets|
    {
      assert sets[..index + 1][..index] == sets[..index];
      var winner := CompletedSetWinner(sets[index]);
      if winner.None? || clinching.Some? {
        InvalidPrefix(sets, index + 1, required);
        prefixValid := false;
        break;
      }
      if winner.value.Home? {
        homeSets := homeSets + 1;
        if homeSets == required { clinching := Some(Home); }
      } else {
        awaySets := awaySets + 1;
        if awaySets == required { clinching := Some(Away); }
      }
      if clinching.Some? && index != |sets| - 1 {
        assert sets[..index + 2][..index + 1] == sets[..index + 1];
        InvalidPrefix(sets, index + 2, required);
        prefixValid := false;
        break;
      }
    }
    assert sets[..|sets|] == sets;
  }

  lemma {:induction false} InvalidPrefix(sets: seq<SetScore>, k: nat, required: nat)
    requires k <= |sets| && CompletedPrefix(sets[..k], required).None?
    ensures CompletedPrefix(sets, required).None?
  {
    if k == |sets| {
      assert sets[..k] == sets;
    } else {
      assert sets[..|sets| - 1][..k] == sets[..k];
      InvalidPrefix(sets[..|sets| - 1], k, required);
    }
  }

  predicate ZeroScore(s: Snapshot) {
    && s.sets == [] && s.gamesHome == 0 && s.gamesAway == 0 && s.pointsHome == Love && s.pointsAway == Love
    && !s.inTiebreak && s.tiebreakHome == 0 && s.tiebreakAway == 0 && s.tiebreakFirst.None?
  }

  /** The score of a match still to be decided, given what the scan found. */
  predicate IncompleteReachable(s: Snapshot, prefix: Option<Option<Side>>) {
    var active := s.status in {Live, Suspended};
    && prefix == Some(None)
    && if s.inTiebreak then
         && s.gamesHome == 6 && s.gamesAway == 6 && s.pointsHome == Love && s.pointsAway == Love
         && s.tiebreakFirst.Some? && !TiebreakWon(s.tiebreakHome, s.tiebreakAway)
         && s.server
            == (if active then Some(TiebreakServer(s.tiebreakFirst.value, s.tiebreakHome + s.tiebreakAway)) else None)
       else
         && s.gamesHome <= 6 && s.gamesAway <= 6 && (s.gamesHome, s.gamesAway) != (6, 6)
         && !NormalSetWon(s.gamesHome, s.gamesAway)
         && (active <==> s.server.Some?)
  }

  predicate ReachableGiven(s: Snapshot, prefix: Option<Option<Side>>) {
    match s.status
    case Scheduled => ZeroScore(s) && s.server.None?
    case Live => IncompleteReachable(s, prefix)
    case Suspended => IncompleteReachable(s, prefix)
    case Cancelled => IncompleteReachable(s, prefix)
    case Ended =>
      match s.termination
      case Walkover => ZeroScore(s) && s.server.None?
      case Retirement => IncompleteReachable(s, prefix)
      case Natural =>
        && prefix.Some? && prefix.value.Some? && s.winner == prefix.value
        && s.gamesHome == 0 && s.gamesAway == 0 && s.pointsHome == Love && s.pointsAway == Love
        && !s.inTiebreak && s.tiebreakHome == 0 && s.tiebreakAway == 0 && s.tiebreakFirst.None? && s.server.None?
      case _ => false
  }

  predicate Reachable(s: Snapshot) {
    ReachableGiven(s, CompletedPrefix(s.sets, RequiredSets(s.format)))
  }

  /** `_snapshot_reachable`. */
  method SnapshotReachable(s: Snapshot) returns (r: bool)
    ensures r <==> Reachable(s)
  {
    var prefixValid, clinching := ScanCompletedSets(s.sets, RequiredSets(s.format));
    r := ReachableGiven(s, if prefixValid then Some(clinching) else None);
  }

  // ---------- The point machine ----------

  /** `_set_wins`, one side at a time: more games take the set, anything else is the away side's. */
  function SetWins(sets: seq<SetScore>, side: Side): nat {
    if sets == [] then 0
    else
      var last := sets[|sets| - 1];
      var winner := if last.home > last.away then Home else Away;
      SetWins(sets[..|sets| - 1], side) + (if winner == side then 1 else 0)
  }

  function MatchWinner(sets: seq<SetScore>, required: nat): Option<Side> {
    if SetWins(sets, Home) == required then Some(Home)
    else if SetWins(sets, Away) == required then Some(Away)
    else None
  }

  /** The score when a set has just ended: the match is over, or the next set starts at love. */
  function AfterSets(format: Format, sets: seq<SetScore>, winner: Option<Side>, nextServer: Side): Snapshot {
    if winner.Some? then
      Snapshot(format, Ended, Natural, winner, None, sets, 0, 0, Love, Love, false, 0, 0, None, None)
    else
      Snapshot(format, Live, NotEnded, None, None, sets, 0, 0, Love, Love, false, 0, 0, None, Some(nextServer))
  }

  function CompleteSet(s: Snapshot, setScore: SetScore, nextServer: Side): Snapshot {
    var sets := s.sets + [setScore];
    AfterSets(s.format, sets, MatchWinner(sets, RequiredSets(s.format)), nextServer)
  }

  /** The winner's next call against the opponent's, or None for the game. */
  function NextCall(own: Points, opponent: Points): Option<(Points, Points)> {
    if own == Advantage then None
    else if opponent == Advantage then Some((Forty, Forty))
    else if own == Forty then if opponent == Forty then Some((Advantage, Forty)) else None
    else if own == Love then Some((Fifteen, opponent))
    else if own == Fifteen then Some((Thirty, opponent))
    else Some((Forty, opponent))
  }

  function WinGame(s: Snapshot, winner: Side): Snapshot
    requires s.server.Some?
  {
    var home := s.gamesHome + (if winner.Home? then 1 else 0);
    var away := s.gamesAway + (if winner.Away? then 1 else 0);
    var nextServer := Opposite(s.server.value);
    if NormalSetWon(home, away) then CompleteSet(s, SetScore(home, away, None, None), nextServer)
    else if home == 6 && away == 6 then
      s.(gamesHome := home, gamesAway := away, pointsHome := Love, pointsAway := Love, inTiebreak := true,
         tiebreakHome := 0, tiebreakAway := 0, tiebreakFirst := Some(nextServer), server := Some(nextServer))
    else s.(gamesHome := home, gamesAway := away, pointsHome := Love, pointsAway := Love, server := Some(nextServer))
  }

  function TiebreakPoint(s: Snapshot, winner: Side): Snapshot
    requires s.tiebreakFirst.Some?
  {
    var home := s.tiebreakHome + (if winner.Home? then 1 else 0);
    var away := s.tiebreakAway + (if winner.Away? then 1 else 0);
    if TiebreakWon(home, away) then
      CompleteSet(s, SetScore(if winner.Home? then 7 else 6, if winner.Home? then 6 else 7, Some(home), Some(away)),
                  Opposite(s.tiebreakFirst.value))
    else
      s.(tiebreakHome := home, tiebreakAway := away,
         server := Some(TiebreakServer(s.tiebreakFirst.value, home + away)))
  }

  /** `_advance_score`. */
  function AdvanceScore(s: Snapshot, winner: Side): Snapshot
    requires s.server.Some? && (s.inTiebreak ==> s.tiebreakFirst.Some?)
  {
    if s.inTiebreak then TiebreakPoint(s, winner)
    else
      var own := if winner.Home? then s.pointsHome else s.pointsAway;
      var opponent := if winner.Home? then s.pointsAway else s.pointsHome;
      match NextCall(own, opponent)
      case None => WinGame(s, winner)
      case Some((own, opponent)) =>
        if winner.Home? then s.(pointsHome := own, pointsAway := opponent)
        else s.(pointsHome := opponent, pointsAway := own)
  }

  // ---------- The rules of tennis, by counting ----------

  /** Rule 5a: what two counts of points won in an unfinished standard game are called. */
  function Call(own: nat, opponent: nat): Points {
    if own >= 4 && own > opponent then Advantage
    else if own >= 3 then Forty
    else if own == 2 then Thirty
    else if own == 1 then Fifteen
    else Love
  }

  /** Rule 5a: a game needs four points and a lead of two. */
  predicate GameWon(own: nat, opponent: nat) { own >= 4 && own >= opponent + 2 }

  /** The words follow the counts: the game is won exactly when rule 5a says so. */
  lemma CallsFollowCounts(own: nat, opponent: nat)
    requires !GameWon(own, opponent) && !GameWon(opponent, own)
    ensures NextCall(Call(own, opponent), Call(opponent, own))
         == if GameWon(own + 1, opponent) then None else Some((Call(own + 1, opponent), Call(opponent, own + 1)))
  {
  }

  function Rival(side: Side): Side {
    match side
    case Home => Away
    case Away => Home
  }

  /** Rule 5b: the first server serves one point, then the players alternate two at a time. */
  function ServerByTurns(first: Side, completedPoints: nat): Side {
    if completedPoints == 0 then first
    else if completedPoints % 2 == 1 then Rival(ServerByTurns(first, completedPoints - 1))
    else ServerByTurns(first, completedPoints - 1)
  }

  lemma {:induction false} TiebreakServerFollowsTurns(first: Side, n: nat)
    ensures TiebreakServer(first, n) == ServerByTurns(first, n)
  {
    if n > 0 {
      TiebreakServerFollowsTurns(first, n - 1);
      if n % 2 == 0 {
        assert (n - 1) / 2 == (n - 2) / 2;
      } else if n > 1 {
        assert (n - 1) / 2 == (n - 2) / 2 + 1;
      }
    }
  }
}

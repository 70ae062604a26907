/**
  Which scores legal play reaches, against which scores the filter lets through.

  Play starts at love with either player serving and goes on point by point. A snapshot of any status is
  playable exactly when the filter passes it and its tie-break scores are final.
*/
module TennisPlay {
  import opened Common
  import opened TennisScore

  // ---------- Runs of points ----------

  function Start(format: Format, server: Side): Snapshot {
    InGame(format, [], 0, 0, Love, Love, server)
  }

  /** The point machine is ready for a point. */
  predicate Ready(s: Snapshot) { s.status == Live && s.server.Some? && (s.inTiebreak ==> s.tiebreakFirst.Some?) }

  /** A point after the end of the match is refused and changes nothing. */
  function Point(s: Snapshot, winner: Side): Snapshot {
    if Ready(s) then AdvanceScore(s, winner) else s
  }

  function Play(format: Format, server: Side, points: seq<Side>): Snapshot {
    if points == [] then Start(format, server)
    else Point(Play(format, server, points[..|points| - 1]), points[|points| - 1])
  }

  /** Some sequence of points leads here. */
  ghost predicate Played(s: Snapshot) {
    exists format: Format, server: Side, points: seq<Side> :: Play(format, server, points) == s
  }

  /** A tie-break stops at its first lead of two: at seven points, or at exactly two more. */
  predicate FinalSet(s: SetScore) {
    s.tiebreakHome.Some? && s.tiebreakAway.Some? ==>
      var h, a := s.tiebreakHome.value, s.tiebreakAway.value;
      h == a + 2 || a == h + 2 || (h == 7 && a < 7) || (a == 7 && h < 7)
  }

  ghost predicate FinalSets(sets: seq<SetScore>) {
    forall i :: 0 <= i < |sets| ==> FinalSet(sets[i])
  }

  ghost predicate ValidSets(sets: seq<SetScore>) {
    forall i :: 0 <= i < |sets| ==> ValidSet(sets[i])
  }

  /** A match under way or naturally over, as the contract and the filter accept it, with final tie-breaks. */
  ghost predicate Accepted(s: Snapshot) {
    && (s.status == Live || (s.status == Ended && s.termination == Natural))
    && ValidStatus(s) && ValidScore(s) && Reachable(s) && FinalSets(s.sets)
  }

  // ---------- The three shapes of such a match ----------

  /** A score within a standard game. */
  function InGame(format: Format, sets: seq<SetScore>, home: nat, away: nat, ph: Points, pa: Points,
                  server: Side): Snapshot
  {
    Snapshot(format, Live, NotEnded, None, None, sets, home, away, ph, pa, false, 0, 0, None, Some(server))
  }

  /** The same by the calls of the winner of the next point and of the opponent. */
  function InGameFor(winner: Side, format: Format, sets: seq<SetScore>, home: nat, away: nat,
                     own: Points, opponent: Points, server: Side): Snapshot {
    InGame(format, sets, home, away, if winner.Home? then own else opponent,
           if winner.Home? then opponent else own, server)
  }

  function InTiebreak(format: Format, sets: seq<SetScore>, home: nat, away: nat, first: Side): Snapshot {
    Snapshot(format, Live, NotEnded, None, None, sets, 6, 6, Love, Love, true, home, away, Some(first),
             Some(TiebreakServer(first, home + away)))
  }

  /** How the match goes on when set `x` ends. */
  function AfterSet(format: Format, sets: seq<SetScore>, x: SetScore, nextServer: Side): Snapshot {
    AfterSets(format, sets + [x], MatchWinner(sets + [x], RequiredSets(format)), nextServer)
  }

  function Plus(n: nat, side: Side, winner: Side): nat { if side == winner then n + 1 else n }

  /** A won tie-break as a completed set. */
  function TiebreakSet(winner: Side, home: nat, away: nat): SetScore {
    SetScore(if winner.Home? then 7 else 6, if winner.Home? then 6 else 7, Some(home), Some(away))
  }

  predicate OpenGames(home: nat, away: nat) {
    home <= 6 && away <= 6 && (home, away) != (6, 6) && !NormalSetWon(home, away)
  }

  predicate LegalCalls(own: Points, opponent: Points) {
    (own == Advantage ==> opponent == Forty) && (opponent == Advantage ==> own == Forty)
  }

  /** The completed sets leave the match open. */
  ghost predicate OpenSets(format: Format, sets: seq<SetScore>) {
    ValidSets(sets) && FinalSets(sets) && CompletedPrefix(sets, RequiredSets(format)) == Some(None)
  }

  lemma GameAccepted(format: Format, sets: seq<SetScore>, home: nat, away: nat, ph: Points, pa: Points, server: Side)
    requires OpenSets(format, sets) && OpenGames(home, away) && LegalCalls(ph, pa)
    ensures Accepted(InGame(format, sets, home, away, ph, pa, server))
  {
  }

  lemma TiebreakAccepted(format: Format, sets: seq<SetScore>, home: nat, away: nat, first: Side)
    requires OpenSets(format, sets) && !TiebreakWon(home, away)
    ensures Accepted(InTiebreak(format, sets, home, away, first))
  {
  }

  /** An accepted live score outside a tie-break has the game shape. */
  lemma GameShape(s: Snapshot)
    requires Accepted(s) && s.status == Live && !s.inTiebreak
    ensures s.server.Some? && OpenSets(s.format, s.sets)
    ensures OpenGames(s.gamesHome, s.gamesAway) && LegalCalls(s.pointsHome, s.pointsAway)
    ensures s == InGame(s.format, s.sets, s.gamesHome, s.gamesAway, s.pointsHome, s.pointsAway, s.server.value)
  {
    hide CompletedPrefix, FinalSets;
  }

  /** Within a tie-break it has the tie-break shape. */
  lemma TiebreakShape(s: Snapshot)
    requires Accepted(s) && s.status == Live && s.inTiebreak
    ensures s.tiebreakFirst.Some? && OpenSets(s.format, s.sets) && !TiebreakWon(s.tiebreakHome, s.tiebreakAway)
    ensures s == InTiebreak(s.format, s.sets, s.tiebreakHome, s.tiebreakAway, s.tiebreakFirst.value)
  {
    hide CompletedPrefix, FinalSets;
  }

  // ---------- What a point does to each shape ----------

  lemma PointInGame(winner: Side, format: Format, sets: seq<SetScore>, home: nat, away: nat,
                    own: Points, opponent: Points, server: Side)
    ensures AdvanceScore(InGameFor(winner, format, sets, home, away, own, opponent, server), winner)
         == match NextCall(own, opponent)
            case Some((own', opponent')) => InGameFor(winner, format, sets, home, away, own', opponent', server)
            case None => WinGame(InGameFor(winner, format, sets, home, away, own, opponent, server), winner)
  {
    hide WinGame, NextCall;
  }

  lemma WonGame(format: Format, sets: seq<SetScore>, home: nat, away: nat, ph: Points, pa: Points, server: Side,
                winner: Side)
    ensures var (h, a) := (Plus(home, Home, winner), Plus(away, Away, winner));
            WinGame(InGame(format, sets, home, away, ph, pa, server), winner)
            == (if NormalSetWon(h, a) then AfterSet(format, sets, SetScore(h, a, None, None), Opposite(server))
                else if h == 6 && a == 6 then InTiebreak(format, sets, 0, 0, Opposite(server))
                else InGame(format, sets, h, a, Love, Love, Opposite(server)))
  {
    hide MatchWinner, NormalSetWon, AfterSets;
  }

  lemma PointInTiebreak(format: Format, sets: seq<SetScore>, home: nat, away: nat, first: Side, winner: Side)
    ensures var (h, a) := (Plus(home, Home, winner), Plus(away, Away, winner));
            AdvanceScore(InTiebreak(format, sets, home, away, first), winner)
            == (if TiebreakWon(h, a) then AfterSet(format, sets, TiebreakSet(winner, h, a), Opposite(first))
                else InTiebreak(format, sets, h, a, first))
  {
    hide WinGame, NextCall, MatchWinner, AfterSets, TiebreakWon;
  }

  // ---------- Play stays within the filter ----------

  lemma WinnerHasMoreGames(x: SetScore)
    requires CompletedSetWinner(x).Some?
    ensures CompletedSetWinner(x) == Some(if x.home > x.away then Home else Away)
  {
  }

  /** The scan's counters and the machine's agree on open matches, where neither side has enough sets. */
  lemma {:induction false} UndecidedSets(sets: seq<SetScore>, required: nat)
    requires required > 0 && CompletedPrefix(sets, required) == Some(None)
    ensures Wins(sets, Home) == SetWins(sets, Home) < required
    ensures Wins(sets, Away) == SetWins(sets, Away) < required
  {
    if sets != [] {
      WinnerHasMoreGames(sets[|sets| - 1]);
      UndecidedSets(sets[..|sets| - 1], required);
    }
  }

  lemma CompletedPrefixExtends(sets: seq<SetScore>, x: SetScore, required: nat)
    requires required > 0 && CompletedPrefix(sets, required) == Some(None) && CompletedSetWinner(x).Some?
    ensures CompletedPrefix(sets + [x], required) == Some(MatchWinner(sets + [x], required))
  {
    var more := sets + [x];
    assert more[..|more| - 1] == sets;
    WinnerHasMoreGames(x);
    UndecidedSets(sets, required);
  }

  lemma AfterSetsAccepted(format: Format, sets: seq<SetScore>, winner: Option<Side>, nextServer: Side)
    requires ValidSets(sets) && FinalSets(sets) && CompletedPrefix(sets, RequiredSets(format)) == Some(winner)
    ensures Accepted(AfterSets(format, sets, winner, nextServer))
  {
  }

  lemma AfterSetAccepted(format: Format, sets: seq<SetScore>, x: SetScore, nextServer: Side)
    requires OpenSets(format, sets) && ValidSet(x) && FinalSet(x) && CompletedSetWinner(x).Some?
    ensures Accepted(AfterSet(format, sets, x, nextServer))
  {
    var more, required := sets + [x], RequiredSets(format);
    CompletedPrefixExtends(sets, x, required);
    AfterSetsAccepted(format, more, MatchWinner(more, required), nextServer);
  }

  /** The machine ends a normal set only at 6-0 to 6-4 or 7-5. */
  lemma NormalSetEnds(home: nat, away: nat, winner: Side)
    requires OpenGames(home, away) && NormalSetWon(Plus(home, Home, winner), Plus(away, Away, winner))
    ensures CompletedSetWinner(SetScore(Plus(home, Home, winner), Plus(away, Away, winner), None, None)) == Some(winner)
  {
  }

  /** It ends a tie-break at its first lead of two from seven points on. */
  lemma TiebreakEnds(home: nat, away: nat, winner: Side)
    requires !TiebreakWon(home, away) && TiebreakWon(Plus(home, Home, winner), Plus(away, Away, winner))
    ensures var x := TiebreakSet(winner, Plus(home, Home, winner), Plus(away, Away, winner));
            CompletedSetWinner(x) == Some(winner) && FinalSet(x)
  {
  }

  lemma CallsStayLegal(own: Points, opponent: Points)
    requires LegalCalls(own, opponent) && NextCall(own, opponent).Some?
    ensures LegalCalls(NextCall(own, opponent).value.0, NextCall(own, opponent).value.1)
  {
  }

  lemma GamePointAccepted(winner: Side, format: Format, sets: seq<SetScore>, home: nat, away: nat,
                          own: Points, opponent: Points, server: Side)
    requires OpenSets(format, sets) && OpenGames(home, away) && LegalCalls(own, opponent)
    ensures Accepted(AdvanceScore(InGameFor(winner, format, sets, home, away, own, opponent, server), winner))
  {
    hide Accepted, AdvanceScore, WinGame, OpenSets, OpenGames, NextCall;
    PointInGame(winner, format, sets, home, away, own, opponent, server);
    var next := NextCall(own, opponent);
    if next.Some? {
      CallsStayLegal(own, opponent);
      var (own', opponent') := next.value;
      GameAccepted(format, sets, home, away, if winner.Home? then own' else opponent',
                   if winner.Home? then opponent' else own', server);
    } else {
      GameWonAccepted(winner, format, sets, home, away, if winner.Home? then own else opponent,
                      if winner.Home? then opponent else own, server);
    }
  }

  lemma GameWonAccepted(winner: Side, format: Format, sets: seq<SetScore>, home: nat, away: nat, ph: Points, pa: Points,
                        server: Side)
    requires OpenSets(format, sets) && OpenGames(home, away)
    ensures Accepted(WinGame(InGame(format, sets, home, away, ph, pa, server), winner))
  {
    hide Accepted, WinGame, OpenSets;
    WonGame(format, sets, home, away, ph, pa, server, winner);
    var h, a := Plus(home, Home, winner), Plus(away, Away, winner);
    if NormalSetWon(h, a) {
      NormalSetEnds(home, away, winner);
      AfterSetAccepted(format, sets, SetScore(h, a, None, None), Opposite(server));
    } else if h == 6 && a == 6 {
      TiebreakAccepted(format, sets, 0, 0, Opposite(server));
    } else {
      GameAccepted(format, sets, h, a, Love, Love, Opposite(server));
    }
  }

  lemma TiebreakPointAccepted(format: Format, sets: seq<SetScore>, home: nat, away: nat, first: Side, winner: Side)
    requires OpenSets(format, sets) && !TiebreakWon(home, away)
    ensures Accepted(AdvanceScore(InTiebreak(format, sets, home, away, first), winner))
  {
    hide Accepted, AdvanceScore, OpenSets;
    PointInTiebreak(format, sets, home, away, first, winner);
    var h, a := Plus(home, Home, winner), Plus(away, Away, winner);
    if TiebreakWon(h, a) {
      TiebreakEnds(home, away, winner);
      AfterSetAccepted(format, sets, TiebreakSet(winner, h, a), Opposite(first));
    } else {
      TiebreakAccepted(format, sets, h, a, first);
    }
  }

  /** One more point keeps an accepted match accepted; in particular the machine never raises on its own states. */
  lemma AdvanceAccepted(s: Snapshot, winner: Side)
    requires Accepted(s) && s.status == Live
    ensures Ready(s) && Accepted(AdvanceScore(s, winner))
  {
    if s.inTiebreak { TiebreakShape(s); } else { GameShape(s); }
    hide Accepted, AdvanceScore, OpenSets, OpenGames, LegalCalls, TiebreakWon;
    if s.inTiebreak {
      TiebreakPointAccepted(s.format, s.sets, s.tiebreakHome, s.tiebreakAway, s.tiebreakFirst.value, winner);
    } else {
      GamePointAccepted(winner, s.format, s.sets, s.gamesHome, s.gamesAway,
                        if winner.Home? then s.pointsHome else s.pointsAway,
                        if winner.Home? then s.pointsAway else s.pointsHome, s.server.value);
    }
  }

  /** Every state reached by playing any sequence of points passes contract and filter. */
  lemma {:induction false} PlayAccepted(format: Format, server: Side, points: seq<Side>)
    ensures Accepted(Play(format, server, points))
  {
    if points == [] {
      GameAccepted(format, [], 0, 0, Love, Love, server);
    } else {
      hide Accepted, AdvanceScore;
      var before := Play(format, server, points[..|points| - 1]);
      PlayAccepted(format, server, points[..|points| - 1]);
      if before.status == Live {
        AdvanceAccepted(before, points[|points| - 1]);
      }
    }
  }

  lemma InterruptionAccepted(s: Snapshot, status: Status, termination: Termination, winner: Option<Side>,
                             retired: Option<Side>)
    requires Accepted(s) && s.status == Live
    requires status == Suspended || status == Cancelled || (status == Ended && termination == Retirement)
    ensures Reachable(s.(status := status, termination := termination, winner := winner, retired := retired,
                         server := if status == Suspended then s.server else None))
  {
  }

  /** So does every such match suspended, cancelled or ended by a retirement. */
  lemma InterruptedPlayAccepted(format: Format, server: Side, points: seq<Side>, retired: Side)
    requires Play(format, server, points).status == Live
    ensures var s := Play(format, server, points);
            && Reachable(s.(status := Suspended))
            && Reachable(s.(status := Cancelled, termination := Cancellation, server := None))
            && Reachable(s.(status := Ended, termination := Retirement, winner := Some(Opposite(retired)),
                            retired := Some(retired), server := None))
  {
    var s := Play(format, server, points);
    PlayAccepted(format, server, points);
    InterruptionAccepted(s, Suspended, s.termination, s.winner, s.retired);
    InterruptionAccepted(s, Cancelled, Cancellation, s.winner, s.retired);
    InterruptionAccepted(s, Ended, Retirement, Some(Opposite(retired)), Some(retired));
  }

  // ---------- Every accepted score can be played ----------

  /** A set of states that holds the starts and all that points lead to. */
  ghost predicate ClosedUnderPlay(reach: Snapshot -> bool) {
    && (forall format: Format, server: Side :: reach(Start(format, server)))
    && (forall s: Snapshot, winner: Side :: reach(s) && Ready(s) ==> reach(AdvanceScore(s, winner)))
  }

  /** The love scores of a set, whoever serves, are reached. */
  ghost predicate SetOpens(reach: Snapshot -> bool, format: Format, sets: seq<SetScore>) {
    forall server: Side :: reach(InGame(format, sets, 0, 0, Love, Love, server))
  }

  lemma CallReached(reach: Snapshot -> bool, winner: Side, format: Format, sets: seq<SetScore>, home: nat, away: nat,
                    own: Points, opponent: Points, server: Side)
    requires ClosedUnderPlay(reach)
    requires reach(InGameFor(winner, format, sets, home, away, own, opponent, server))
    requires NextCall(own, opponent).Some?
    ensures var (own', opponent') := NextCall(own, opponent).value;
            reach(InGameFor(winner, format, sets, home, away, own', opponent', server))
  {
    PointInGame(winner, format, sets, home, away, own, opponent, server);
    assert reach(AdvanceScore(InGameFor(winner, format, sets, home, away, own, opponent, server), winner));
  }

  /** A game to love. */
  lemma GameReached(reach: Snapshot -> bool, winner: Side, format: Format, sets: seq<SetScore>, home: nat, away: nat,
                    server: Side)
    requires ClosedUnderPlay(reach) && reach(InGame(format, sets, home, away, Love, Love, server))
    ensures reach(WinGame(InGameFor(winner, format, sets, home, away, Forty, Love, server), winner))
  {
    CallReached(reach, winner, format, sets, home, away, Love, Love, server);
    CallReached(reach, winner, format, sets, home, away, Fifteen, Love, server);
    CallReached(reach, winner, format, sets, home, away, Thirty, Love, server);
    PointInGame(winner, format, sets, home, away, Forty, Love, server);
    assert reach(AdvanceScore(InGameFor(winner, format, sets, home, away, Forty, Love, server), winner));
  }

  /** Winning a game to love, by its outcome. */
  lemma GameOutcomeReached(reach: Snapshot -> bool, winner: Side, format: Format, sets: seq<SetScore>, home: nat,
                           away: nat, server: Side)
    requires ClosedUnderPlay(reach) && reach(InGame(format, sets, home, away, Love, Love, server))
    ensures var (h, a) := (Plus(home, Home, winner), Plus(away, Away, winner));
            reach(if NormalSetWon(h, a) then AfterSet(format, sets, SetScore(h, a, None, None), Opposite(server))
                  else if h == 6 && a == 6 then InTiebreak(format, sets, 0, 0, Opposite(server))
                  else InGame(format, sets, h, a, Love, Love, Opposite(server)))
  {
    GameReached(reach, winner, format, sets, home, away, server);
    WonGame(format, sets, home, away, if winner.Home? then Forty else Love,
            if winner.Home? then Love else Forty, server, winner);
  }

  lemma {:induction false} GamesReached(reach: Snapshot -> bool, format: Format, sets: seq<SetScore>, home: nat,
                                        away: nat, server: Side)
    requires ClosedUnderPlay(reach) && SetOpens(reach, format, sets) && OpenGames(home, away)
    ensures reach(InGame(format, sets, home, away, Love, Love, server))
    decreases home + away
  {
    if home + away > 0 {
      if home >= away {
        GamesReached(reach, format, sets, home - 1, away, Opposite(server));
        GameOutcomeReached(reach, Home, format, sets, home - 1, away, Opposite(server));
      } else {
        GamesReached(reach, format, sets, home, away - 1, Opposite(server));
        GameOutcomeReached(reach, Away, format, sets, home, away - 1, Opposite(server));
      }
    }
  }

  lemma TiebreakPointReached(reach: Snapshot -> bool, format: Format, sets: seq<SetScore>, home: nat, away: nat,
                             first: Side, winner: Side)
    requires ClosedUnderPlay(reach) && reach(InTiebreak(format, sets, home, away, first))
    ensures var (h, a) := (Plus(home, Home, winner), Plus(away, Away, winner));
            reach(if TiebreakWon(h, a) then AfterSet(format, sets, TiebreakSet(winner, h, a), Opposite(first))
                  else InTiebreak(format, sets, h, a, first))
  {
    PointInTiebreak(format, sets, home, away, first, winner);
    assert reach(AdvanceScore(InTiebreak(format, sets, home, away, first), winner));
  }

  lemma {:induction false} TiebreakReached(reach: Snapshot -> bool, format: Format, sets: seq<SetScore>, home: nat,
                                           away: nat, first: Side)
    requires ClosedUnderPlay(reach) && SetOpens(reach, format, sets) && !TiebreakWon(home, away)
    ensures reach(InTiebreak(format, sets, home, away, first))
    decreases home + away
  {
    if home + away == 0 {
      GamesReached(reach, format, sets, 5, 6, Opposite(first));
      GameOutcomeReached(reach, Home, format, sets, 5, 6, Opposite(first));
    } else if home >= away {
      TiebreakReached(reach, format, sets, home - 1, away, first);
      TiebreakPointReached(reach, format, sets, home - 1, away, first, Home);
    } else {
      TiebreakReached(reach, format, sets, home, away - 1, first);
      TiebreakPointReached(reach, format, sets, home, away - 1, first, Away);
    }
  }

  /** Any final set score can end a set that opens. */
  lemma SetReached(reach: Snapshot -> bool, format: Format, sets: seq<SetScore>, x: SetScore, nextServer: Side)
    requires ClosedUnderPlay(reach) && SetOpens(reach, format, sets)
    requires ValidSet(x) && FinalSet(x) && CompletedSetWinner(x).Some?
    ensures reach(AfterSet(format, sets, x, nextServer))
  {
    hide AfterSet, ClosedUnderPlay, SetOpens;
    var winner, server := CompletedSetWinner(x).value, Opposite(nextServer);
    if x.tiebreakHome.None? {
      var h, a := (if winner.Home? then x.home - 1 else x.home), (if winner.Home? then x.away else x.away - 1);
      GamesReached(reach, format, sets, h, a, server);
      GameOutcomeReached(reach, winner, format, sets, h, a, server);
      assert x == SetScore(x.home, x.away, None, None);
    } else {
      var home, away := x.tiebreakHome.value, x.tiebreakAway.value;
      var h, a := (if winner.Home? then home - 1 else home), (if winner.Home? then away else away - 1);
      TiebreakReached(reach, format, sets, h, a, server);
      TiebreakPointReached(reach, format, sets, h, a, server, winner);
      assert x == TiebreakSet(winner, home, away);
    }
  }

  /** After every open list of final set scores the next set opens. */
  lemma {:induction false} SetsOpen(reach: Snapshot -> bool, format: Format, sets: seq<SetScore>)
    requires ClosedUnderPlay(reach) && OpenSets(format, sets)
    ensures SetOpens(reach, format, sets)
  {
    if sets == [] {
      forall server: Side ensures reach(InGame(format, [], 0, 0, Love, Love, server)) {
        assert reach(Start(format, server));
      }
    } else {
      var n := |sets| - 1;
      SetsOpen(reach, format, sets[..n]);
      UndecidedSets(sets, RequiredSets(format));
      assert sets[..n] + [sets[n]] == sets;
      forall server: Side ensures reach(InGame(format, sets, 0, 0, Love, Love, server)) {
        SetReached(reach, format, sets[..n], sets[n], server);
        assert AfterSet(format, sets[..n], sets[n], server) == InGame(format, sets, 0, 0, Love, Love, server);
      }
    }
  }

  function CallRank(p: Points): nat {
    match p case Love => 0 case Fifteen => 1 case Thirty => 2 case Forty => 3 case Advantage => 4
  }

  function CallBefore(p: Points): Points {
    match p case Love => Love case Fifteen => Love case Thirty => Fifteen case Forty => Thirty case Advantage => Forty
  }

  lemma NextCallAfter(own: Points, opponent: Points)
    requires LegalCalls(own, opponent) && own != Love && CallRank(own) >= CallRank(opponent)
    ensures LegalCalls(CallBefore(own), opponent)
    ensures NextCall(CallBefore(own), opponent) == Some((own, opponent))
    ensures CallRank(CallBefore(own)) < CallRank(own)
  {
  }

  /** Within an open game every pair of legal calls is reached. */
  lemma {:induction false} CallsReached(reach: Snapshot -> bool, format: Format, sets: seq<SetScore>, home: nat,
                                        away: nat, ph: Points, pa: Points, server: Side)
    requires ClosedUnderPlay(reach) && SetOpens(reach, format, sets) && OpenGames(home, away) && LegalCalls(ph, pa)
    ensures reach(InGame(format, sets, home, away, ph, pa, server))
    decreases CallRank(ph) + CallRank(pa)
  {
    if ph == Love && pa == Love {
      GamesReached(reach, format, sets, home, away, server);
    } else if CallRank(ph) >= CallRank(pa) {
      NextCallAfter(ph, pa);
      CallsReached(reach, format, sets, home, away, CallBefore(ph), pa, server);
      CallReached(reach, Home, format, sets, home, away, CallBefore(ph), pa, server);
    } else {
      NextCallAfter(pa, ph);
      CallsReached(reach, format, sets, home, away, ph, CallBefore(pa), server);
      CallReached(reach, Away, format, sets, home, away, CallBefore(pa), ph, server);
    }
  }

  lemma EndReached(reach: Snapshot -> bool, s: Snapshot)
    requires ClosedUnderPlay(reach) && Accepted(s) && s.status == Ended
    ensures reach(s)
  {
    var n := |s.sets| - 1;
    var before, last := s.sets[..n], s.sets[n];
    assert before + [last] == s.sets;
    assert OpenSets(s.format, before);
    SetsOpen(reach, s.format, before);
    SetReached(reach, s.format, before, last, Home);
    CompletedPrefixExtends(before, last, RequiredSets(s.format));
    assert AfterSet(s.format, before, last, Home) == s;
  }

  /** Every set of states closed under play holds every accepted score. */
  lemma AcceptedReached(reach: Snapshot -> bool, s: Snapshot)
    requires ClosedUnderPlay(reach) && Accepted(s)
    ensures reach(s)
  {
    if s.status == Live {
      if s.inTiebreak { TiebreakShape(s); } else { GameShape(s); }
      hide Accepted, ClosedUnderPlay, SetOpens, OpenSets, OpenGames, LegalCalls, TiebreakWon;
      SetsOpen(reach, s.format, s.sets);
      if s.inTiebreak {
        TiebreakReached(reach, s.format, s.sets, s.tiebreakHome, s.tiebreakAway, s.tiebreakFirst.value);
      } else {
        CallsReached(reach, s.format, s.sets, s.gamesHome, s.gamesAway, s.pointsHome, s.pointsAway, s.server.value);
      }
    } else {
      EndReached(reach, s);
    }
  }

  lemma PlayedIsClosed()
    ensures ClosedUnderPlay((s: Snapshot) => Played(s))
  {
    forall format: Format, server: Side ensures Played(Start(format, server)) {
      assert Play(format, server, []) == Start(format, server);
    }
    forall s: Snapshot, winner: Side | Played(s) && Ready(s) ensures Played(AdvanceScore(s, winner)) {
      var format: Format, server: Side, points: seq<Side> :| Play(format, server, points) == s;
      var more := points + [winner];
      assert more[..|more| - 1] == points;
      assert Play(format, server, more) == AdvanceScore(s, winner);
    }
  }

  lemma RunningOrOver(s: Snapshot)
    requires ValidStatus(s) && ValidScore(s)
    requires s.status == Live || (s.status == Ended && s.termination == Natural)
    ensures Played(s) <==> Reachable(s) && FinalSets(s.sets)
  {
    hide Reachable, FinalSets, ClosedUnderPlay;
    if Played(s) {
      var format: Format, server: Side, points: seq<Side> :| Play(format, server, points) == s;
      PlayAccepted(format, server, points);
    }
    if Reachable(s) && FinalSets(s.sets) {
      PlayedIsClosed();
      AcceptedReached(s => Played(s), s);
    }
  }

  // ---------- Interrupted and unplayed matches ----------

  /** `s` is the live match `t` with another status: only a suspended match keeps its server. */
  ghost predicate Interrupts(t: Snapshot, s: Snapshot) {
    && t.status == Live
    && s == t.(status := s.status, termination := s.termination, winner := s.winner, retired := s.retired,
               server := if s.status == Suspended then t.server else None)
  }

  /** Some match that is reached was interrupted in `s`. */
  ghost predicate Interrupted(reached: Snapshot -> bool, s: Snapshot) { exists t :: reached(t) && Interrupts(t, s) }

  /** `s` is the first score of some match, with nobody serving. */
  ghost predicate Unplayed(s: Snapshot) { exists server: Side :: Interrupts(Start(s.format, server), s) }

  /**
    What the status calls for: a live or naturally ended match is reached itself, a suspended, cancelled or
    retired one interrupts a match that is reached, and a scheduled one or a walkover is not played at all.
  */
  ghost predicate Playable(reached: Snapshot -> bool, s: Snapshot) {
    match s.status
    case Scheduled => Unplayed(s)
    case Live => reached(s)
    case Suspended => Interrupted(reached, s)
    case Cancelled => Interrupted(reached, s)
    case Ended =>
      if s.termination == Natural then reached(s)
      else if s.termination == Retirement then Interrupted(reached, s)
      else Unplayed(s)
  }

  /** The match as it was before it stopped. */
  function Resumed(s: Snapshot): Snapshot {
    var next := if s.tiebreakFirst.Some? then TiebreakServer(s.tiebreakFirst.value, s.tiebreakHome + s.tiebreakAway)
                else Home;
    s.(status := Live, termination := NotEnded, winner := None, retired := None,
       server := if s.status == Suspended then s.server else Some(next))
  }

  lemma ResumedAccepted(s: Snapshot)
    requires ValidStatus(s) && ValidScore(s) && Reachable(s) && FinalSets(s.sets)
    requires s.status in {Suspended, Cancelled} || s.termination == Retirement
    ensures Accepted(Resumed(s)) && Interrupts(Resumed(s), s)
  {
    hide CompletedPrefix, FinalSets, TiebreakServer;
  }

  lemma InterruptedIsReachable(t: Snapshot, s: Snapshot)
    requires Accepted(t) && Interrupts(t, s)
    requires s.status in {Suspended, Cancelled} || (s.status == Ended && s.termination == Retirement)
    ensures Reachable(s) && FinalSets(s.sets)
  {
    InterruptionAccepted(t, s.status, s.termination, s.winner, s.retired);
  }

  lemma InterruptedExactly(s: Snapshot)
    requires ValidStatus(s) && ValidScore(s)
    requires s.status in {Suspended, Cancelled} || (s.status == Ended && s.termination == Retirement)
    ensures Interrupted(t => Played(t), s) <==> Reachable(s) && FinalSets(s.sets)
  {
    hide Reachable, FinalSets, Accepted, Play, ClosedUnderPlay, Interrupts, ValidScore;
    if t :| Played(t) && Interrupts(t, s) {
      var format: Format, server: Side, points: seq<Side> :| Play(format, server, points) == t;
      PlayAccepted(format, server, points);
      InterruptedIsReachable(t, s);
    }
    if Reachable(s) && FinalSets(s.sets) {
      ResumedAccepted(s);
      PlayedIsClosed();
      AcceptedReached(t => Played(t), Resumed(s));
    }
  }

  lemma UnplayedExactly(s: Snapshot)
    requires ValidStatus(s) && ValidScore(s)
    requires s.status == Scheduled || (s.status == Ended && s.termination == Walkover)
    ensures Unplayed(s) <==> Reachable(s) && FinalSets(s.sets)
  {
    var server := Home;
    if Reachable(s) { assert Interrupts(Start(s.format, server), s); }
  }

  /**
    A snapshot that the contract allows is playable, whatever its status, if and only if the filter passes it
    and its tie-break scores are final.
  */
  lemma FilterIsPlay(s: Snapshot)
    requires ValidStatus(s) && ValidScore(s)
    ensures Playable(t => Played(t), s) <==> Reachable(s) && FinalSets(s.sets)
  {
    hide Reachable, FinalSets, Interrupted, Unplayed, Played, ValidScore;
    if s.status == Live || s.termination == Natural {
      RunningOrOver(s);
    } else if s.status in {Suspended, Cancelled} || s.termination == Retirement {
      InterruptedExactly(s);
    } else {
      UnplayedExactly(s);
    }
  }

  lemma LongTiebreakPasses(s: Snapshot)
    requires ValidStatus(s) && ValidScore(s) && s.sets == [SetScore(7, 6, Some(20), Some(3))]
    requires s.status in {Live, Suspended, Cancelled} || s.termination == Retirement
    requires IncompleteReachable(s, Some(None))
    ensures Reachable(s) && !Playable(t => Played(t), s)
  {
    var x := s.sets[0];
    assert s.sets[..0] == [] && CompletedSetWinner(x) == Some(Home);
    assert Wins([], Home) == 0 && Wins(s.sets, Home) == 1;
    assert CompletedPrefix(s.sets, RequiredSets(s.format)) == Some(None);
    assert !FinalSet(s.sets[0]);
    hide Playable, Reachable, ValidStatus, ValidScore, FinalSet, IncompleteReachable;
    FilterIsPlay(s);
  }

  /** The filter alone is weaker than play, whatever the status: it passes a tie-break won 20-3. */
  lemma FilterPassesUnplayableTiebreak()
    ensures var s := InGame(BestOfThree, [SetScore(7, 6, Some(20), Some(3))], 0, 0, Love, Love, Home);
      forall stopped ::
        stopped in {s, s.(status := Suspended), s.(status := Cancelled, termination := Cancellation, server := None),
                    s.(status := Ended, termination := Retirement, winner := Some(Home), retired := Some(Away),
                       server := None)}
        ==> ValidStatus(stopped) && ValidScore(stopped) && Reachable(stopped) && !Playable(t => Played(t), stopped)
  {
    hide Reachable, Playable;
    var s := InGame(BestOfThree, [SetScore(7, 6, Some(20), Some(3))], 0, 0, Love, Love, Home);
    LongTiebreakPasses(s);
    LongTiebreakPasses(s.(status := Suspended));
    LongTiebreakPasses(s.(status := Cancelled, termination := Cancellation, server := None));
    LongTiebreakPasses(s.(status := Ended, termination := Retirement, winner := Some(Home), retired := Some(Away),
                          server := None));
  }
}

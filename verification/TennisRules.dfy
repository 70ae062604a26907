/**
  Play as the ITF Rules of Tennis tell it, by counting points, games and sets (rules 5a, 5b, 6b and 7), and the
  proof that over every sequence of points the point machine shows exactly what the counts say.
*/
module TennisRules {
  import opened Common
  import opened TennisScore
  import opened TennisPlay

  /**
    The counts of a match: its completed sets, the games of the current set and the points of the current
    game or tie-break. `first` serves the game, or serves first in the tie-break.
  */
  datatype Tally = Tally(format: Format, sets: seq<SetScore>, home: nat, away: nat, ph: nat, pa: nat, first: Side,
                         winner: Option<Side>)

  // ---------- The rules ----------

  /** Rule 6b: at six games all a tie-break is played. */
  predicate InBreak(t: Tally) { t.home == 6 && t.away == 6 }

  /** Rule 5b: seven points win the tie-break, with a lead of two. */
  predicate BreakWon(own: nat, opponent: nat) { own >= 7 && own >= opponent + 2 }

  /** Rule 6b: six games win the set, with a lead of two. */
  predicate GamesWin(own: nat, opponent: nat) { own >= 6 && own >= opponent + 2 }

  /** Rule 7: two sets of three, or three of five, win the match. */
  function SetsToWin(format: Format): nat {
    match format
    case BestOfThree => 2
    case BestOfFive => 3
  }

  function Own(side: Side, home: nat, away: nat): nat { if side.Home? then home else away }

  /** The sets in which the side has more games. */
  function SetsOf(sets: seq<SetScore>, side: Side): nat {
    if sets == [] then 0
    else
      var last := sets[|sets| - 1];
      SetsOf(sets[..|sets| - 1], side)
      + (if Own(side, last.home, last.away) > Own(Rival(side), last.home, last.away) then 1 else 0)
  }

  function EndSet(t: Tally, side: Side, x: SetScore): Tally {
    var sets := t.sets + [x];
    Tally(t.format, sets, 0, 0, 0, 0, Rival(t.first),
          if SetsOf(sets, side) == SetsToWin(t.format) then Some(side) else None)
  }

  function EndGame(t: Tally, side: Side): Tally {
    var home, away := Plus(t.home, Home, side), Plus(t.away, Away, side);
    if GamesWin(Own(side, home, away), Own(Rival(side), home, away)) then
      EndSet(t, side, SetScore(home, away, None, None))
    else t.(home := home, away := away, ph := 0, pa := 0, first := Rival(t.first))
  }

  /** One point to the side; a point after the end of the match changes nothing. */
  function Score(t: Tally, side: Side): Tally {
    var ph, pa := Plus(t.ph, Home, side), Plus(t.pa, Away, side);
    var own, opponent := Own(side, ph, pa), Own(Rival(side), ph, pa);
    if t.winner.Some? then t
    else if InBreak(t) then
      if BreakWon(own, opponent) then EndSet(t, side, TiebreakSet(side, ph, pa)) else t.(ph := ph, pa := pa)
    else if GameWon(own, opponent) then EndGame(t, side)
    else t.(ph := ph, pa := pa)
  }

  function Counted(format: Format, server: Side, points: seq<Side>): Tally {
    if points == [] then Tally(format, [], 0, 0, 0, 0, server, None)
    else Score(Counted(format, server, points[..|points| - 1]), points[|points| - 1])
  }

  // ---------- What the counts show ----------

  /** The scoreboard: rule 5a calls the points of a game, and rule 5b says who serves in a tie-break. */
  function Show(t: Tally): Snapshot {
    if t.winner.Some? then
      Snapshot(t.format, Ended, Natural, t.winner, None, t.sets, 0, 0, Love, Love, false, 0, 0, None, None)
    else if InBreak(t) then
      Snapshot(t.format, Live, NotEnded, None, None, t.sets, 6, 6, Love, Love, true, t.ph, t.pa, Some(t.first),
               Some(ServerByTurns(t.first, t.ph + t.pa)))
    else
      Snapshot(t.format, Live, NotEnded, None, None, t.sets, t.home, t.away, Call(t.ph, t.pa), Call(t.pa, t.ph),
               false, 0, 0, None, Some(t.first))
  }

  /** No completed set is level, and while the match is open nothing in it has been won yet. */
  ghost predicate Open(t: Tally) {
    && (forall x :: x in t.sets ==> x.home != x.away)
    && (t.winner.None? ==>
          && SetsOf(t.sets, Home) < RequiredSets(t.format) && SetsOf(t.sets, Away) < RequiredSets(t.format)
          && !GamesWin(t.home, t.away) && !GamesWin(t.away, t.home)
          && (InBreak(t) ==> !BreakWon(t.ph, t.pa) && !BreakWon(t.pa, t.ph))
          && (!InBreak(t) ==> !GameWon(t.ph, t.pa) && !GameWon(t.pa, t.ph)))
  }

  lemma {:induction false} SetsAgree(sets: seq<SetScore>, side: Side)
    requires forall x :: x in sets ==> x.home != x.away
    ensures SetsOf(sets, side) == SetWins(sets, side)
  {
    if sets != [] { SetsAgree(sets[..|sets| - 1], side); }
  }

  lemma OneMoreSet(sets: seq<SetScore>, x: SetScore, side: Side)
    ensures SetsOf(sets + [x], side)
         == SetsOf(sets, side) + (if Own(side, x.home, x.away) > Own(Opposite(side), x.home, x.away) then 1 else 0)
  {
    var more := sets + [x];
    assert more[..|more| - 1] == sets;
  }

  /** Ending a set by counting is what the machine shows after it. */
  lemma SetShown(t: Tally, side: Side, x: SetScore)
    requires Open(t) && t.winner.None? && Own(side, x.home, x.away) > Own(Opposite(side), x.home, x.away)
    ensures Open(EndSet(t, side, x))
    ensures Show(EndSet(t, side, x)) == AfterSet(t.format, t.sets, x, Opposite(t.first))
  {
    hide SetsOf, SetWins;
    var sets := t.sets + [x];
    OneMoreSet(t.sets, x, Home);
    OneMoreSet(t.sets, x, Away);
    assert forall y :: y in sets ==> y.home != y.away;
    SetsAgree(sets, Home);
    SetsAgree(sets, Away);
  }

  lemma BreakShown(t: Tally, side: Side)
    requires Open(t) && t.winner.None? && InBreak(t)
    ensures Open(Score(t, side)) && Show(Score(t, side)) == Point(Show(t), side)
  {
    var ph, pa := Plus(t.ph, Home, side), Plus(t.pa, Away, side);
    BreakBoard(t);
    PointInTiebreak(t.format, t.sets, t.ph, t.pa, t.first, side);
    hide SetsOf, AdvanceScore, EndSet, AfterSet, InTiebreak, Show;
    if BreakWon(Own(side, ph, pa), Own(Opposite(side), ph, pa)) {
      SetShown(t, side, TiebreakSet(side, ph, pa));
    } else {
      BreakBoard(t.(ph := ph, pa := pa));
    }
  }

  lemma BreakBoard(t: Tally)
    requires t.winner.None? && InBreak(t)
    ensures Show(t) == InTiebreak(t.format, t.sets, t.ph, t.pa, t.first) && Ready(Show(t))
  {
    TiebreakServerFollowsTurns(t.first, t.ph + t.pa);
  }

  lemma GameShown(t: Tally, side: Side)
    requires Open(t) && t.winner.None? && !InBreak(t)
    ensures Open(EndGame(t, side))
    ensures Show(EndGame(t, side)) == WinGame(Show(t), side)
  {
    var home, away := Plus(t.home, Home, side), Plus(t.away, Away, side);
    hide SetsOf, EndSet, AfterSet, WinGame;
    WonGame(t.format, t.sets, t.home, t.away, Call(t.ph, t.pa), Call(t.pa, t.ph), t.first, side);
    if GamesWin(Own(side, home, away), Own(Opposite(side), home, away)) {
      SetShown(t, side, SetScore(home, away, None, None));
    }
  }

  lemma PointShown(t: Tally, side: Side)
    requires Open(t) && t.winner.None? && !InBreak(t)
    ensures Open(Score(t, side)) && Show(Score(t, side)) == Point(Show(t), side)
  {
    hide SetsOf, EndGame, WinGame, NextCall, Call;
    var own, opponent := Own(side, t.ph, t.pa), Own(Opposite(side), t.ph, t.pa);
    CallsFollowCounts(own, opponent);
    PointInGame(side, t.format, t.sets, t.home, t.away, Call(own, opponent), Call(opponent, own), t.first);
    if GameWon(own + 1, opponent) { GameShown(t, side); }
  }

  /** Over every sequence of points, the point machine shows what counting by the rules gives. */
  lemma {:induction false} PlayIsCounting(format: Format, server: Side, points: seq<Side>)
    ensures Open(Counted(format, server, points))
    ensures Show(Counted(format, server, points)) == Play(format, server, points)
  {
    if points != [] {
      var before := Counted(format, server, points[..|points| - 1]);
      PlayIsCounting(format, server, points[..|points| - 1]);
      hide Score, Show, Open, Point, InBreak;
      ScoreShown(before, points[|points| - 1]);
    }
  }

  lemma ScoreShown(t: Tally, side: Side)
    requires Open(t)
    ensures Open(Score(t, side)) && Show(Score(t, side)) == Point(Show(t), side)
  {
    if t.winner.None? {
      hide Score, Show, Open, Point;
      if InBreak(t) { BreakShown(t, side); } else { PointShown(t, side); }
    }
  }

  /** Some sequence of points, counted by the rules, shows this. */
  ghost predicate Shown(s: Snapshot) {
    exists format: Format, server: Side, points: seq<Side> :: Show(Counted(format, server, points)) == s
  }

  lemma ShownIsPlayed(s: Snapshot)
    ensures Shown(s) <==> Played(s)
  {
    hide Show, Counted, Play;
    if format: Format, server: Side, points: seq<Side> :| Show(Counted(format, server, points)) == s {
      PlayIsCounting(format, server, points);
      assert Play(format, server, points) == s;
    }
    if Played(s) {
      var format: Format, server: Side, points: seq<Side> :| Play(format, server, points) == s;
      PlayIsCounting(format, server, points);
      assert Show(Counted(format, server, points)) == s;
    }
  }

  /**
    Whatever its status, a snapshot is playable by counting exactly when the filter passes it with final tie-breaks.
  */
  lemma FilterIsCounting(s: Snapshot)
    requires ValidStatus(s) && ValidScore(s)
    ensures Playable(t => Shown(t), s) <==> Reachable(s) && FinalSets(s.sets)
  {
    hide Shown, Played, Reachable, FinalSets, ValidStatus, ValidScore, Interrupts, Unplayed;
    FilterIsPlay(s);
    forall t ensures Shown(t) <==> Played(t) { ShownIsPlayed(t); }
  }
}

/**
  What the probabilities of tennis_win_prob.py are: the weight of the sequences of independent points that win the
  match, when points, games and sets are counted as the rules of tennis do. At six games all one more game decides
  the set, as the source has it.
*/
module TennisChances {
  import opened Common
  import opened TennisWinProb

  // ---------- A match, counted point by point ----------

  datatype Standing = Standing(setsFor: int, setsAgainst: int, gamesFor: nat, gamesAgainst: nat, own: nat,
                               opponent: nat)

  datatype Fate = Won | Lost | Undecided

  /** Four points and a lead of two. */
  predicate GameOver(own: nat, opponent: nat) { own >= 4 && own >= opponent + 2 }

  /** Six games and a lead of two, or seven against six. */
  predicate SetOver(own: nat, opponent: nat) { (own >= 6 && own >= opponent + 2) || (own == 7 && opponent == 6) }

  function FateOf(needed: nat, s: Standing): Fate {
    if s.setsFor >= needed then Won else if s.setsAgainst >= needed then Lost else Undecided
  }

  function AfterGame(s: Standing, mine: bool): Standing {
    var games, others := (if mine then s.gamesFor + 1 else s.gamesFor),
                         (if mine then s.gamesAgainst else s.gamesAgainst + 1);
    if SetOver(games, others) then Standing(s.setsFor + 1, s.setsAgainst, 0, 0, 0, 0)
    else if SetOver(others, games) then Standing(s.setsFor, s.setsAgainst + 1, 0, 0, 0, 0)
    else Standing(s.setsFor, s.setsAgainst, games, others, 0, 0)
  }

  function AfterPoint(s: Standing, mine: bool): Standing {
    var own, opponent := (if mine then s.own + 1 else s.own), (if mine then s.opponent else s.opponent + 1);
    if GameOver(own, opponent) then AfterGame(s, true)
    else if GameOver(opponent, own) then AfterGame(s, false)
    else s.(own := own, opponent := opponent)
  }

  /** The standing after the points; those after the end of the match change nothing. */
  function Played(needed: nat, s: Standing, points: seq<bool>): Standing
    decreases |points|
  {
    if points == [] || FateOf(needed, s) != Undecided then s
    else Played(needed, AfterPoint(s, points[0]), points[1..])
  }

  // ---------- The weight of sequences of points ----------

  function Led(first: bool, all: seq<seq<bool>>): seq<seq<bool>> {
    if all == [] then [] else [[first] + all[0]] + Led(first, all[1..])
  }

  /** All sequences of `n` points. */
  function AllPoints(n: nat): seq<seq<bool>> {
    if n == 0 then [[]] else Led(true, AllPoints(n - 1)) + Led(false, AllPoints(n - 1))
  }

  function PointWeight(p: real, mine: bool): real { if mine then p else 1.0 - p }

  /** The probability of the sequence when each point is won with probability `p`, independently. */
  function Weight(p: real, points: seq<bool>): real {
    if points == [] then 1.0 else Times(PointWeight(p, points[0]), Weight(p, points[1..]))
  }

  /** The weight of those sequences that lead from the standing to the fate. */
  function WeightOf(p: real, needed: nat, s: Standing, all: seq<seq<bool>>, fate: Fate): real {
    if all == [] then 0.0
    else (if FateOf(needed, Played(needed, s, all[0])) == fate then Weight(p, all[0]) else 0.0)
         + WeightOf(p, needed, s, all[1..], fate)
  }

  /** The same, one point at a time. */
  function Chance(p: real, needed: nat, s: Standing, n: nat, fate: Fate): real
    decreases n
  {
    if FateOf(needed, s) != Undecided || n == 0 then if FateOf(needed, s) == fate then 1.0 else 0.0
    else
      Mix(p, Chance(p, needed, AfterPoint(s, true), n - 1, fate), Chance(p, needed, AfterPoint(s, false), n - 1, fate))
  }

  lemma {:induction false} WeightsAdd(p: real, needed: nat, s: Standing, a: seq<seq<bool>>, b: seq<seq<bool>>,
                                      fate: Fate)
    ensures WeightOf(p, needed, s, a + b, fate) == WeightOf(p, needed, s, a, fate) + WeightOf(p, needed, s, b, fate)
  {
    hide Played, Weight;
    if a == [] {
      assert a + b == b;
    } else {
      assert (a + b)[1..] == a[1..] + b;
      WeightsAdd(p, needed, s, a[1..], b, fate);
    }
  }

  lemma TimesAdds(x: real, y: real, z: real)
    ensures Times(x, y + z) == Times(x, y) + Times(x, z) && Times(x, 0.0) == 0.0 && Times(x, 1.0) == x
  {
  }

  lemma {:induction false} WeightLed(p: real, needed: nat, s: Standing, first: bool, all: seq<seq<bool>>, fate: Fate)
    requires FateOf(needed, s) == Undecided
    ensures WeightOf(p, needed, s, Led(first, all), fate)
         == Times(PointWeight(p, first), WeightOf(p, needed, AfterPoint(s, first), all, fate))
  {
    hide AfterPoint, FateOf, Times, PointWeight;
    var w := PointWeight(p, first);
    if all == [] {
      TimesAdds(w, 0.0, 0.0);
    } else {
      WeightLed(p, needed, s, first, all[1..], fate);
      var points := [first] + all[0];
      assert points[1..] == all[0] && Led(first, all)[1..] == Led(first, all[1..]);
      var fits := FateOf(needed, Played(needed, AfterPoint(s, first), all[0])) == fate;
      TimesAdds(w, if fits then Weight(p, all[0]) else 0.0,
                WeightOf(p, needed, AfterPoint(s, first), all[1..], fate));
    }
  }

  lemma {:induction false} DecidedStays(p: real, needed: nat, s: Standing, all: seq<seq<bool>>, fate: Fate)
    requires FateOf(needed, s) != Undecided
    ensures WeightOf(p, needed, s, all, fate) == if FateOf(needed, s) == fate then Total(p, all) else 0.0
  {
    hide Weight;
    if all != [] { DecidedStays(p, needed, s, all[1..], fate); }
  }

  function Total(p: real, all: seq<seq<bool>>): real {
    if all == [] then 0.0 else Weight(p, all[0]) + Total(p, all[1..])
  }

  lemma {:induction false} TotalAdds(p: real, a: seq<seq<bool>>, b: seq<seq<bool>>)
    ensures Total(p, a + b) == Total(p, a) + Total(p, b)
  {
    hide Weight;
    if a == [] {
      assert a + b == b;
    } else {
      assert (a + b)[1..] == a[1..] + b;
      TotalAdds(p, a[1..], b);
    }
  }

  lemma {:induction false} TotalLed(p: real, first: bool, all: seq<seq<bool>>)
    ensures Total(p, Led(first, all)) == Times(PointWeight(p, first), Total(p, all))
  {
    hide Times, PointWeight;
    var w := PointWeight(p, first);
    if all == [] {
      TimesAdds(w, 0.0, 0.0);
    } else {
      TotalLed(p, first, all[1..]);
      assert ([first] + all[0])[1..] == all[0] && Led(first, all)[1..] == Led(first, all[1..]);
      TimesAdds(w, Weight(p, all[0]), Total(p, all[1..]));
    }
  }

  lemma {:induction false} WholeIsOne(p: real, n: nat)
    ensures Total(p, AllPoints(n)) == 1.0
  {
    if n > 0 {
      var all := AllPoints(n - 1);
      WholeIsOne(p, n - 1);
      hide Total, Led, AllPoints;
      TotalAdds(p, Led(true, all), Led(false, all));
      TotalLed(p, true, all);
      TotalLed(p, false, all);
      assert AllPoints(n) == Led(true, all) + Led(false, all) by { AllUnfold(n); }
    }
  }

  lemma AllUnfold(n: nat)
    ensures n > 0 ==> AllPoints(n) == Led(true, AllPoints(n - 1)) + Led(false, AllPoints(n - 1))
    ensures AllPoints(0) == [[]]
  {
  }

  lemma {:induction false} WeightIsChance(p: real, needed: nat, s: Standing, n: nat, fate: Fate)
    ensures WeightOf(p, needed, s, AllPoints(n), fate) == Chance(p, needed, s, n, fate)
    decreases n
  {
    hide AfterPoint, FateOf, AllPoints, Led, WeightOf, Mix;
    AllUnfold(n);
    if FateOf(needed, s) != Undecided {
      DecidedStays(p, needed, s, AllPoints(n), fate);
      WholeIsOne(p, n);
    } else if n == 0 {
      NoPoints(p, needed, s, fate);
    } else {
      var all := AllPoints(n - 1);
      WeightIsChance(p, needed, AfterPoint(s, true), n - 1, fate);
      WeightIsChance(p, needed, AfterPoint(s, false), n - 1, fate);
      WeightsAdd(p, needed, s, Led(true, all), Led(false, all), fate);
      WeightLed(p, needed, s, true, all, fate);
      WeightLed(p, needed, s, false, all, fate);
      MixIs(p, WeightOf(p, needed, AfterPoint(s, true), all, fate),
            WeightOf(p, needed, AfterPoint(s, false), all, fate));
    }
  }

  lemma MixIs(p: real, x: real, y: real)
    ensures Mix(p, x, y) == Times(PointWeight(p, true), x) + Times(PointWeight(p, false), y)
  {
  }

  lemma NoPoints(p: real, needed: nat, s: Standing, fate: Fate)
    requires FateOf(needed, s) == Undecided
    ensures WeightOf(p, needed, s, [[]], fate) == if fate == Undecided then 1.0 else 0.0
  {
    var none: seq<seq<bool>> := [[]];
    assert none[1..] == [] && none[0] == [];
  }

  // ---------- Each value is the mean of the values after the next point, game or set ----------

  lemma MixOfMixes(p: real, x: real, y: real, win: real, lose: real)
    ensures Mix(p, Mix(x, win, lose), Mix(y, win, lose)) == Mix(Mix(p, x, y), win, lose)
    ensures Mix(1.0, win, lose) == win && Mix(0.0, win, lose) == lose && Mix(x, 1.0, 0.0) == x
  {
    var d, e := win - lose, x - y;
    MixIsShift(x, win, lose);
    MixIsShift(y, win, lose);
    MixIsShift(p, x, y);
    MixIsShift(p, Mix(x, win, lose), Mix(y, win, lose));
    MixIsShift(Mix(p, x, y), win, lose);
    ProductOf(x, -y, d);
    ProductOf(y, p * e, d);
    assert p * (e * d) == (p * e) * d;
  }

  lemma MixIsShift(p: real, win: real, lose: real)
    ensures Mix(p, win, lose) == lose + p * (win - lose)
  {
  }

  lemma ProductOf(x: real, y: real, z: real)
    ensures (x + y) * z == x * z + y * z
  {
  }

  lemma DeuceIsMean(p: real)
    ensures Deuce(p) == Mix(p, Mix(p, 1.0, Deuce(p)), Mix(p, Deuce(p), 0.0))
  {
    var q, d := 1.0 - p, Deuce(p);
    assert p * p >= 0.0 && q * q >= 0.0;
    assert p * p + q * q > 0.0 by { if p == 0.0 { assert q * q == 1.0; } }
    assert d * (p * p + q * q) == p * p;
    assert p * p + q * q + 2.0 * (p * q) == 1.0;
    calc {
      Mix(p, Mix(p, 1.0, d), Mix(p, d, 0.0));
    ==
      p * (p + q * d) + q * (p * d);
    ==
      p * p + 2.0 * (p * q) * d;
    ==
      d * (p * p + q * q) + d * (2.0 * (p * q));
    ==
      d;
    }
  }

  /** At every live score of a game, deuce and beyond included; a game that is over is worth one or zero. */
  lemma GameIsMean(p: real, a: nat, b: nat)
    ensures GameOver(a, b) ==> GameFrom(p, a, b) == 1.0
    ensures GameOver(b, a) ==> GameFrom(p, a, b) == 0.0
    ensures !GameOver(a, b) && !GameOver(b, a) ==>
              GameFrom(p, a, b) == Mix(p, GameFrom(p, a + 1, b), GameFrom(p, a, b + 1))
  {
    hide Deuce, Mix;
    DeuceIsMean(p);
  }

  /** At every live score of a set, six games all included; a set that is over is worth one or zero. */
  lemma SetIsMean(g: real, a: nat, b: nat)
    requires a <= 7 && b <= 7 && !(a == 7 && b == 7)
    ensures SetOver(a, b) ==> SetFrom(g, a, b) == 1.0
    ensures SetOver(b, a) ==> SetFrom(g, a, b) == 0.0
    ensures !SetOver(a, b) && !SetOver(b, a) ==>
              a < 7 && b < 7 && SetFrom(g, a, b) == Mix(g, SetFrom(g, a + 1, b), SetFrom(g, a, b + 1))
  {
    hide Mix;
    MixOfMixes(g, g, g, 1.0, 0.0);
  }

  /** Neither side has won the set or the game. */
  predicate Playing(s: Standing) {
    && !SetOver(s.gamesFor, s.gamesAgainst) && !SetOver(s.gamesAgainst, s.gamesFor) && s.gamesFor <= 6
    && s.gamesAgainst <= 6 && !GameOver(s.own, s.opponent) && !GameOver(s.opponent, s.own)
  }

  lemma StillPlaying(s: Standing, mine: bool)
    requires Playing(s)
    ensures Playing(AfterGame(s, mine)) && Playing(AfterPoint(s, mine))
  {
  }

  /** The value when a game begins. */
  function Between(p: real, needed: nat, s: Standing): real
    requires Playing(s)
  {
    MatchFromScore(s.setsFor, s.setsAgainst, s.gamesFor, s.gamesAgainst, needed, p)
  }

  lemma NewSet(p: real, needed: nat, setsFor: int, setsAgainst: int)
    ensures Between(p, needed, Standing(setsFor, setsAgainst, 0, 0, 0, 0))
         == MatchFrom(SetWinProb(0, 0, GameWinProb(p)), setsFor, setsAgainst, needed)
  {
    hide GameWinProb, SetFrom, Mix;
  }

  /** The set of `s` decided by one more game, or going on. */
  lemma AfterGameIs(p: real, needed: nat, s: Standing, mine: bool)
    requires Playing(s) && FateOf(needed, s) == Undecided
    ensures Playing(AfterGame(s, mine))
    ensures var later := SetWinProb(0, 0, GameWinProb(p));
            var a := if mine then s.gamesFor + 1 else s.gamesFor;
            var b := if mine then s.gamesAgainst else s.gamesAgainst + 1;
            a <= 7 && b <= 7 && !(a == 7 && b == 7) &&
            Between(p, needed, AfterGame(s, mine))
            == Mix(SetFrom(GameWinProb(p), a, b), MatchFrom(later, s.setsFor + 1, s.setsAgainst, needed),
                   MatchFrom(later, s.setsFor, s.setsAgainst + 1, needed))
  {
    hide GameWinProb, SetFrom, Mix, MatchFrom;
    var g, later := GameWinProb(p), SetWinProb(0, 0, GameWinProb(p));
    var a, b := (if mine then s.gamesFor + 1 else s.gamesFor), (if mine then s.gamesAgainst else s.gamesAgainst + 1);
    StillPlaying(s, mine);
    SetIsMean(g, a, b);
    MixOfMixes(g, g, g, MatchFrom(later, s.setsFor + 1, s.setsAgainst, needed),
               MatchFrom(later, s.setsFor, s.setsAgainst + 1, needed));
    NewSet(p, needed, s.setsFor + 1, s.setsAgainst);
    NewSet(p, needed, s.setsFor, s.setsAgainst + 1);
  }

  lemma BetweenIsMean(p: real, needed: nat, s: Standing)
    requires Playing(s) && FateOf(needed, s) == Undecided
    ensures Playing(AfterGame(s, true)) && Playing(AfterGame(s, false))
    ensures Between(p, needed, s)
         == Mix(GameWinProb(p), Between(p, needed, AfterGame(s, true)), Between(p, needed, AfterGame(s, false)))
  {
    var g, later := GameWinProb(p), SetWinProb(0, 0, GameWinProb(p));
    AfterGameIs(p, needed, s, true);
    AfterGameIs(p, needed, s, false);
    SetIsMean(g, s.gamesFor, s.gamesAgainst);
    hide GameWinProb, SetFrom, Mix, MatchFrom, AfterGame;
    MixOfMixes(g, SetFrom(g, s.gamesFor + 1, s.gamesAgainst), SetFrom(g, s.gamesFor, s.gamesAgainst + 1),
               MatchFrom(later, s.setsFor + 1, s.setsAgainst, needed),
               MatchFrom(later, s.setsFor, s.setsAgainst + 1, needed));
  }

  /** The value at any point. */
  function ValueAt(p: real, needed: nat, s: Standing): real
    requires Playing(s)
  {
    match FateOf(needed, s)
    case Won => 1.0
    case Lost => 0.0
    case Undecided =>
      StillPlaying(s, true);
      StillPlaying(s, false);
      Mix(GameFrom(p, s.own, s.opponent),
          Between(p, needed, AfterGame(s, true)), Between(p, needed, AfterGame(s, false)))
  }

  lemma ValueAtStart(p: real, needed: nat, s: Standing)
    requires Playing(s) && s.own == 0 && s.opponent == 0
    ensures ValueAt(p, needed, s) == Between(p, needed, s)
  {
    hide GameFrom, SetFrom, MatchFrom, Mix, AfterGame;
    if FateOf(needed, s) == Undecided {
      BetweenIsMean(p, needed, s);
    }
  }

  lemma ValueAfter(p: real, needed: nat, s: Standing, mine: bool)
    requires Playing(s) && FateOf(needed, s) == Undecided
    ensures Playing(AfterPoint(s, mine)) && Playing(AfterGame(s, true)) && Playing(AfterGame(s, false))
    ensures var a, b := (if mine then s.own + 1 else s.own), (if mine then s.opponent else s.opponent + 1);
            ValueAt(p, needed, AfterPoint(s, mine))
            == Mix(GameFrom(p, a, b), Between(p, needed, AfterGame(s, true)), Between(p, needed, AfterGame(s, false)))
  {
    hide GameFrom, SetOver, Between, Mix;
    var a, b := (if mine then s.own + 1 else s.own), (if mine then s.opponent else s.opponent + 1);
    StillPlaying(s, mine);
    StillPlaying(s, true);
    StillPlaying(s, false);
    GameIsMean(p, a, b);
    MixOfMixes(p, p, p, Between(p, needed, AfterGame(s, true)), Between(p, needed, AfterGame(s, false)));
    if GameOver(a, b) { ValueAtStart(p, needed, AfterGame(s, true)); }
    else if GameOver(b, a) { ValueAtStart(p, needed, AfterGame(s, false)); }
  }

  lemma ValueIsMean(p: real, needed: nat, s: Standing)
    requires Playing(s) && FateOf(needed, s) == Undecided
    ensures Playing(AfterPoint(s, true)) && Playing(AfterPoint(s, false))
    ensures ValueAt(p, needed, s)
         == Mix(p, ValueAt(p, needed, AfterPoint(s, true)), ValueAt(p, needed, AfterPoint(s, false)))
  {
    hide GameFrom, AfterPoint, AfterGame, Between, Mix, SetOver;
    ValueAfter(p, needed, s, true);
    ValueAfter(p, needed, s, false);
    GameIsMean(p, s.own, s.opponent);
    MixOfMixes(p, GameFrom(p, s.own + 1, s.opponent), GameFrom(p, s.own, s.opponent + 1),
               Between(p, needed, AfterGame(s, true)), Between(p, needed, AfterGame(s, false)));
  }

  // ---------- The value is the chance of winning ----------

  lemma ValueUnit(p: real, needed: nat, s: Standing)
    requires Unit(p) && Playing(s)
    ensures Unit(ValueAt(p, needed, s))
  {
    hide GameFrom, SetFrom, MatchFrom, AfterGame, Mix;
    if FateOf(needed, s) == Undecided {
      StillPlaying(s, true);
      StillPlaying(s, false);
      BetweenUnit(p, needed, AfterGame(s, true));
      BetweenUnit(p, needed, AfterGame(s, false));
      GameUnit(p, s.own, s.opponent);
      MixWithin(GameFrom(p, s.own, s.opponent), Between(p, needed, AfterGame(s, true)),
                Between(p, needed, AfterGame(s, false)), 0.0, 1.0);
    }
  }

  lemma BetweenUnit(p: real, needed: nat, s: Standing)
    requires Unit(p) && Playing(s)
    ensures Unit(Between(p, needed, s))
  {
    hide GameFrom, SetFrom, MatchFrom, Mix;
    var g := GameWinProb(p);
    GameUnit(p, 0, 0);
    SetUnit(g, s.gamesFor, s.gamesAgainst);
    SetUnit(g, 0, 0);
    var later := SetFrom(g, 0, 0);
    MatchUnit(later, s.setsFor + 1, s.setsAgainst, needed);
    MatchUnit(later, s.setsFor, s.setsAgainst + 1, needed);
    MixWithin(SetFrom(g, s.gamesFor, s.gamesAgainst), MatchFrom(later, s.setsFor + 1, s.setsAgainst, needed),
              MatchFrom(later, s.setsFor, s.setsAgainst + 1, needed), 0.0, 1.0);
  }

  lemma MixAdds(p: real, a: real, b: real, c: real, d: real)
    ensures Mix(p, a + c, b + d) == Mix(p, a, b) + Mix(p, c, d)
  {
  }

  lemma {:induction false} ValueBetween(p: real, needed: nat, s: Standing, n: nat)
    requires Unit(p) && Playing(s)
    ensures Chance(p, needed, s, n, Won) <= ValueAt(p, needed, s)
         <= Chance(p, needed, s, n, Won) + Chance(p, needed, s, n, Undecided)
    decreases n
  {
    hide ValueAt, AfterPoint, Mix;
    if FateOf(needed, s) != Undecided {
      ValueDecided(p, needed, s);
    } else if n == 0 {
      ValueUnit(p, needed, s);
    } else {
      var x, y := AfterPoint(s, true), AfterPoint(s, false);
      ValueIsMean(p, needed, s);
      ValueBetween(p, needed, x, n - 1);
      ValueBetween(p, needed, y, n - 1);
      var wx, wy := Chance(p, needed, x, n - 1, Won), Chance(p, needed, y, n - 1, Won);
      var ux, uy := Chance(p, needed, x, n - 1, Undecided), Chance(p, needed, y, n - 1, Undecided);
      MixMonotone(p, wx, wy, ValueAt(p, needed, x), ValueAt(p, needed, y));
      MixMonotone(p, ValueAt(p, needed, x), ValueAt(p, needed, y), wx + ux, wy + uy);
      MixAdds(p, wx, wy, ux, uy);
    }
  }

  lemma ValueDecided(p: real, needed: nat, s: Standing)
    requires Playing(s)
    ensures FateOf(needed, s) == Won ==> ValueAt(p, needed, s) == 1.0
    ensures FateOf(needed, s) == Lost ==> ValueAt(p, needed, s) == 0.0
  {
  }

  // ---------- What stays undecided vanishes ----------

  /** The chance that the game is still going on after `n` more points. */
  function GameOpen(p: real, a: nat, b: nat, n: nat): real
    decreases n
  {
    if GameOver(a, b) || GameOver(b, a) then 0.0
    else if n == 0 then 1.0
    else Mix(p, GameOpen(p, a + 1, b, n - 1), GameOpen(p, a, b + 1, n - 1))
  }

  lemma {:induction false} GameOpenUnit(p: real, a: nat, b: nat, n: nat)
    requires Unit(p)
    ensures Unit(GameOpen(p, a, b, n))
    decreases n
  {
    hide Mix;
    if !GameOver(a, b) && !GameOver(b, a) && n > 0 {
      GameOpenUnit(p, a + 1, b, n - 1);
      GameOpenUnit(p, a, b + 1, n - 1);
      MixWithin(p, GameOpen(p, a + 1, b, n - 1), GameOpen(p, a, b + 1, n - 1), 0.0, 1.0);
    }
  }

  /** Points until the score is three all at the latest, and from there on until it is level. */
  function ToLevel(a: nat, b: nat): nat { if a + b < 6 then 6 - a - b else (a + b) % 2 }

  lemma TwoFromLevel(p: real, e: real)
    requires Unit(p) && 0.0 <= e
    ensures Mix(p, Mix(p, 0.0, e), Mix(p, e, 0.0)) <= e / 2.0
  {
    var m := p * (1.0 - p);
    assert (p - 0.5) * (p - 0.5) >= 0.0;
    assert m <= 0.25;
    assert Mix(p, Mix(p, 0.0, e), Mix(p, e, 0.0)) == 2.0 * (m * e);
    assert (0.25 - m) * e >= 0.0;
  }

  /** Every two points from a level score on halve it. */
  lemma {:induction false} GameOpenVanishes(p: real, a: nat, b: nat, n: nat, k: nat)
    requires Unit(p) && n >= 2 * k + ToLevel(a, b)
    ensures GameOpen(p, a, b, n) <= HalfPower(k)
    decreases n
  {
    hide Mix;
    GameOpenUnit(p, a, b, n);
    HalfPowerUnit(k);
    if k > 0 && !GameOver(a, b) && !GameOver(b, a) {
      if ToLevel(a, b) > 0 {
        GameOpenVanishes(p, a + 1, b, n - 1, k);
        GameOpenVanishes(p, a, b + 1, n - 1, k);
        GameOpenUnit(p, a + 1, b, n - 1);
        GameOpenUnit(p, a, b + 1, n - 1);
        MixWithin(p, GameOpen(p, a + 1, b, n - 1), GameOpen(p, a, b + 1, n - 1), 0.0, HalfPower(k));
      } else {
        LevelOpen(p, a, n);
        GameOpenVanishes(p, a + 1, b + 1, n - 2, k - 1);
        GameOpenUnit(p, a + 1, b + 1, n - 2);
        TwoFromLevel(p, GameOpen(p, a + 1, b + 1, n - 2));
      }
    }
  }

  lemma LevelOpen(p: real, a: nat, n: nat)
    requires a >= 3 && n >= 2
    ensures var e := GameOpen(p, a + 1, a + 1, n - 2);
            GameOpen(p, a, a, n) == Mix(p, Mix(p, 0.0, e), Mix(p, e, 0.0))
  {
    hide Mix;
    assert GameOpen(p, a + 2, a, n - 2) == 0.0 && GameOpen(p, a, a + 2, n - 2) == 0.0;
  }

  lemma {:induction false} HalfPowerUnit(k: nat)
    ensures 0.0 < HalfPower(k) <= 1.0
    ensures k > 0 ==> HalfPower(k) == HalfPower(k - 1) / 2.0
  {
    if k > 0 { HalfPowerUnit(k - 1); }
  }

  /** Games that can still be played, at most thirteen a set. */
  function GamesLeft(needed: nat, s: Standing): (n: nat)
    requires Playing(s)
  {
    if FateOf(needed, s) != Undecided then 0
    else 13 * (2 * needed - 1 - s.setsFor - s.setsAgainst) - s.gamesFor - s.gamesAgainst
  }

  lemma OneGameFewer(needed: nat, s: Standing, mine: bool)
    requires Playing(s) && FateOf(needed, s) == Undecided
    ensures Playing(AfterGame(s, mine)) && GamesLeft(needed, AfterGame(s, mine)) < GamesLeft(needed, s)
  {
  }

  lemma {:induction false} ChanceUnit(p: real, needed: nat, s: Standing, n: nat, fate: Fate)
    requires Unit(p)
    ensures Unit(Chance(p, needed, s, n, fate))
    decreases n
  {
    hide Mix, AfterPoint;
    if FateOf(needed, s) == Undecided && n > 0 {
      ChanceUnit(p, needed, AfterPoint(s, true), n - 1, fate);
      ChanceUnit(p, needed, AfterPoint(s, false), n - 1, fate);
      MixWithin(p, Chance(p, needed, AfterPoint(s, true), n - 1, fate),
                Chance(p, needed, AfterPoint(s, false), n - 1, fate), 0.0, 1.0);
    }
  }

  /** If the match is open, its game is, or it was open with `m` points to go when the game ended. */
  lemma {:induction false} OpenThroughGame(p: real, needed: nat, s: Standing, n: nat, m: nat, rest: real)
    requires Unit(p) && Playing(s) && 0.0 <= rest
    requires forall mine, more: nat :: more >= m ==> Chance(p, needed, AfterGame(s, mine), more, Undecided) <= rest
    ensures Chance(p, needed, s, n + m, Undecided) <= GameOpen(p, s.own, s.opponent, n) + rest
    decreases n
  {
    hide Mix, SetOver, AfterGame;
    ChanceUnit(p, needed, s, n + m, Undecided);
    GameOpenUnit(p, s.own, s.opponent, n);
    if FateOf(needed, s) == Undecided && n > 0 {
      OpenAfterPoint(p, needed, s, n, m, rest, true);
      OpenAfterPoint(p, needed, s, n, m, rest, false);
      var x, y := GameOpen(p, s.own + 1, s.opponent, n - 1), GameOpen(p, s.own, s.opponent + 1, n - 1);
      MixMonotone(p, Chance(p, needed, AfterPoint(s, true), n + m - 1, Undecided),
                  Chance(p, needed, AfterPoint(s, false), n + m - 1, Undecided), x + rest, y + rest);
      MixAdds(p, x, y, rest, rest);
      MixWithin(p, rest, rest, rest, rest);
    }
  }

  lemma {:induction false} OpenAfterPoint(p: real, needed: nat, s: Standing, n: nat, m: nat, rest: real, mine: bool)
    requires Unit(p) && Playing(s) && 0.0 <= rest && n > 0
    requires forall mine, more: nat :: more >= m ==> Chance(p, needed, AfterGame(s, mine), more, Undecided) <= rest
    ensures Chance(p, needed, AfterPoint(s, mine), n + m - 1, Undecided)
         <= GameOpen(p, if mine then s.own + 1 else s.own, if mine then s.opponent else s.opponent + 1, n - 1) + rest
    decreases n, 0
  {
    hide Mix, SetOver, Chance, GameOpen;
    var a, b := (if mine then s.own + 1 else s.own), (if mine then s.opponent else s.opponent + 1);
    GameOpenUnit(p, a, b, n - 1);
    if !GameOver(a, b) && !GameOver(b, a) {
      var next := s.(own := a, opponent := b);
      assert AfterPoint(s, mine) == next && forall won :: AfterGame(next, won) == AfterGame(s, won);
      OpenThroughGame(p, needed, next, n - 1, m, rest);
    } else {
      assert Chance(p, needed, AfterGame(s, GameOver(a, b)), n - 1 + m, Undecided) <= rest;
    }
  }

  lemma {:induction false} OpenVanishes(p: real, needed: nat, s: Standing, n: nat, k: nat)
    requires Unit(p) && Playing(s) && n >= GamesLeft(needed, s) * (2 * k + 6)
    ensures Chance(p, needed, s, n, Undecided) <= Times(GamesLeft(needed, s) as real, HalfPower(k))
    decreases GamesLeft(needed, s)
  {
    hide Mix, AfterPoint, AfterGame, HalfPower, Times, Chance, GameOpen, Playing, GamesLeft;
    if FateOf(needed, s) != Undecided {
      DecidedClosed(p, needed, s, n);
      HalfPowerUnit(k);
      TimesSign(GamesLeft(needed, s) as real, HalfPower(k));
    } else {
      OneGameFewer(needed, s, true);
      var g := GamesLeft(needed, s) - 1;
      forall mine: bool, more: nat | more >= g * (2 * k + 6)
        ensures Chance(p, needed, AfterGame(s, mine), more, Undecided) <= Times(g as real, HalfPower(k))
      {
        OneGameFewer(needed, s, mine);
        var left := GamesLeft(needed, AfterGame(s, mine));
        NatOrder(left, g, 2 * k + 6);
        OpenVanishes(p, needed, AfterGame(s, mine), more, k);
        HalfPowerUnit(k);
        TimesOrder(left as real, g as real, HalfPower(k));
      }
      OneMoreGame(p, needed, s, n, k, g);
    }
  }

  lemma OneMoreGame(p: real, needed: nat, s: Standing, n: nat, k: nat, g: nat)
    requires Unit(p) && Playing(s) && n >= (g + 1) * (2 * k + 6)
    requires forall mine: bool, more: nat :: more >= g * (2 * k + 6) ==>
               Chance(p, needed, AfterGame(s, mine), more, Undecided) <= Times(g as real, HalfPower(k))
    ensures Chance(p, needed, s, n, Undecided) <= Times((g + 1) as real, HalfPower(k))
  {
    hide Mix, AfterPoint, AfterGame, HalfPower, Times, Chance, GameOpen;
    var m := g * (2 * k + 6);
    assert n - m >= 2 * k + 6;
    HalfPowerUnit(k);
    TimesSign(g as real, HalfPower(k));
    OpenThroughGame(p, needed, s, n - m, m, Times(g as real, HalfPower(k)));
    GameOpenVanishes(p, s.own, s.opponent, n - m, k);
    OneMoreTime(g as real, HalfPower(k));
  }

  lemma NatOrder(a: nat, b: nat, c: nat)
    requires a <= b
    ensures a * c <= b * c
  {
  }

  lemma TimesOrder(x: real, y: real, z: real)
    requires x <= y && 0.0 <= z
    ensures Times(x, z) <= Times(y, z)
  {
    Product(y - x, z);
  }

  lemma OneMoreTime(x: real, y: real)
    ensures Times(x + 1.0, y) == Times(x, y) + y
  {
  }

  lemma DecidedClosed(p: real, needed: nat, s: Standing, n: nat)
    requires FateOf(needed, s) != Undecided
    ensures Chance(p, needed, s, n, Undecided) == 0.0
  {
  }

  // ---------- The match probability ----------

  /** The standing of a score: games below zero or above seven count as those, and a set that is over is counted. */
  function Begin(setsFor: int, setsAgainst: int, gamesFor: int, gamesAgainst: int): Standing {
    var a: nat := if gamesFor < 0 then 0 else if gamesFor > 7 then 7 else gamesFor;
    var b: nat := if gamesAgainst < 0 then 0 else if gamesAgainst > 7 then 7 else gamesAgainst;
    if SetOver(a, b) then Standing(setsFor + 1, setsAgainst, 0, 0, 0, 0)
    else if SetOver(b, a) then Standing(setsFor, setsAgainst + 1, 0, 0, 0, 0)
    else Standing(setsFor, setsAgainst, a, b, 0, 0)
  }

  lemma BeginIsPlaying(setsFor: int, setsAgainst: int, gamesFor: int, gamesAgainst: int)
    requires !(gamesFor >= 7 && gamesAgainst >= 7)
    ensures Playing(Begin(setsFor, setsAgainst, gamesFor, gamesAgainst))
  {
  }

  lemma BeginValue(setsFor: int, setsAgainst: int, gamesFor: int, gamesAgainst: int, needed: nat, p: real)
    requires setsFor < needed && setsAgainst < needed && !(gamesFor >= 7 && gamesAgainst >= 7)
    ensures Playing(Begin(setsFor, setsAgainst, gamesFor, gamesAgainst))
    ensures MatchFromScore(setsFor, setsAgainst, gamesFor, gamesAgainst, needed, p)
         == ValueAt(p, needed, Begin(setsFor, setsAgainst, gamesFor, gamesAgainst))
  {
    hide GameFrom, SetFrom, MatchFrom, Mix, ValueAt;
    var s := Begin(setsFor, setsAgainst, gamesFor, gamesAgainst);
    var a, b := Clamp(gamesFor), Clamp(gamesAgainst);
    var g := GameWinProb(p);
    BeginIsPlaying(setsFor, setsAgainst, gamesFor, gamesAgainst);
    ValueAtStart(p, needed, s);
    SetIsMean(g, a, b);
    if SetOver(a, b) || SetOver(b, a) {
      var later := SetFrom(g, 0, 0);
      NewSet(p, needed, setsFor + 1, setsAgainst);
      NewSet(p, needed, setsFor, setsAgainst + 1);
      MixOfMixes(g, g, g, MatchFrom(later, setsFor + 1, setsAgainst, needed),
                 MatchFrom(later, setsFor, setsAgainst + 1, needed));
    }
  }

  /**
    From every score of an undecided match the probability is that of winning it: it lies between the weight of the
    sequences of `n` points that win and that weight with the undecided ones, for every `n`. What is undecided after
    2k + 6 points for each game that is left weighs at most 2^-k for each of them.
  */
  lemma MatchIsChance(setsFor: int, setsAgainst: int, gamesFor: int, gamesAgainst: int, bestOf: int, p: real, n: nat,
                      k: nat)
    requires Unit(p) && bestOf in {3, 5} && !(gamesFor >= 7 && gamesAgainst >= 7)
    ensures var needed := if bestOf == 3 then 2 else 3;
      var r := MatchWinProbability(setsFor, setsAgainst, gamesFor, gamesAgainst, bestOf, p);
      && (setsFor >= needed ==> r == Ok(1.0))
      && (setsFor < needed && setsAgainst >= needed ==> r == Ok(0.0))
    ensures var needed := if bestOf == 3 then 2 else 3;
      setsFor < needed && setsAgainst < needed ==>
        var s := Begin(setsFor, setsAgainst, gamesFor, gamesAgainst);
        var won := WeightOf(p, needed, s, AllPoints(n), Won);
        var undecided := WeightOf(p, needed, s, AllPoints(n), Undecided);
        var r := MatchWinProbability(setsFor, setsAgainst, gamesFor, gamesAgainst, bestOf, p);
        && r.Ok? && won <= r.value <= won + undecided
        && Playing(s)
        && (n >= GamesLeft(needed, s) * (2 * k + 6) ==> undecided <= Times(GamesLeft(needed, s) as real, HalfPower(k)))
  {
    var needed := if bestOf == 3 then 2 else 3;
    if setsFor < needed && setsAgainst < needed {
      hide GameFrom, SetFrom, MatchFrom, Mix, ValueAt, WeightOf, AllPoints, Chance, MatchFromScore, GamesLeft;
      var s := Begin(setsFor, setsAgainst, gamesFor, gamesAgainst);
      BeginValue(setsFor, setsAgainst, gamesFor, gamesAgainst, needed, p);
      ValueBetween(p, needed, s, n);
      WeightIsChance(p, needed, s, n, Won);
      WeightIsChance(p, needed, s, n, Undecided);
      if n >= GamesLeft(needed, s) * (2 * k + 6) { OpenVanishes(p, needed, s, n, k); }
    }
  }
}

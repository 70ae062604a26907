/**
  Match-win probability from the score under independent points (tennis_win_prob.py), over
  exact reals, and the bisection that inverts it.
*/
module TennisWinProb {
  import opened Common

  // ---------- Mixing two outcomes ----------

  function Mix(p: real, win: real, lose: real): real { p * win + (1.0 - p) * lose }

  ghost predicate Unit(x: real) { 0.0 <= x <= 1.0 }

  lemma Product(x: real, y: real)
    requires x >= 0.0 && y >= 0.0
    ensures x * y >= 0.0
    ensures x > 0.0 && y > 0.0 ==> x * y > 0.0
  {
  }

  lemma MixWithin(p: real, win: real, lose: real, low: real, high: real)
    requires Unit(p) && low <= win <= high && low <= lose <= high
    ensures low <= Mix(p, win, lose) <= high
  {
    assert p * (win - low) >= 0.0 && (1.0 - p) * (lose - low) >= 0.0;
    assert p * (high - win) >= 0.0 && (1.0 - p) * (high - lose) >= 0.0;
  }

  lemma MixMonotone(p: real, win: real, lose: real, win': real, lose': real)
    requires Unit(p) && win <= win' && lose <= lose'
    ensures Mix(p, win, lose) <= Mix(p, win', lose')
  {
    assert p * (win' - win) >= 0.0 && (1.0 - p) * (lose' - lose) >= 0.0;
  }

  /** A likelier win of something worth winning, with prospects no worse, is worth no less. */
  lemma MixGrows(p: real, p': real, win: real, lose: real, win': real, lose': real)
    requires 0.0 <= p <= p' <= 1.0 && lose <= win && win <= win' && lose <= lose'
    ensures Mix(p, win, lose) <= Mix(p', win', lose')
    ensures p < p' && (lose < win || win < win') ==> Mix(p, win, lose) < Mix(p', win', lose')
  {
    hide Mix, Times;
    MixDifference(p, p', win, lose, win', lose');
    TimesSign(p' - p, win - lose);
    TimesSign(p', win' - win);
    TimesSign(1.0 - p', lose' - lose);
  }

  function Times(x: real, y: real): real { x * y }

  lemma TimesSign(x: real, y: real)
    requires x >= 0.0 && y >= 0.0
    ensures Times(x, y) >= 0.0
    ensures x > 0.0 && y > 0.0 ==> Times(x, y) > 0.0
  {
    Product(x, y);
  }

  lemma MixDifference(p: real, p': real, win: real, lose: real, win': real, lose': real)
    ensures Mix(p', win', lose') - Mix(p, win, lose)
         == Times(p' - p, win - lose) + Times(p', win' - win) + Times(1.0 - p', lose' - lose)
  {
  }

  // ---------- A game ----------

  function Deuce(p: real): real {
    var q := 1.0 - p;
    if p * p + q * q != 0.0 then (p * p) / (p * p + q * q) else 0.5
  }

  function GameFrom(p: real, a: nat, b: nat): real
    decreases if a >= 3 && b >= 3 then 0 else 8 - a - b, p
  {
    if a >= 4 && a - b >= 2 then 1.0
    else if b >= 4 && b - a >= 2 then 0.0
    else if a >= 3 && b >= 3 && a == b then Deuce(p)
    else if a >= 3 && b >= 3 && a == b + 1 then Mix(p, 1.0, Deuce(p))
    else if a >= 3 && b >= 3 && b == a + 1 then Mix(p, Deuce(p), 0.0)
    else Mix(p, GameFrom(p, a + 1, b), GameFrom(p, a, b + 1))
  }

  function GameWinProb(p: real): real { GameFrom(p, 0, 0) }

  lemma DeuceBounds(p: real)
    requires Unit(p)
    ensures p * p + (1.0 - p) * (1.0 - p) > 0.0
    ensures Unit(Deuce(p))
    ensures Deuce(0.0) == 0.0 && Deuce(1.0) == 1.0
  {
    var q := 1.0 - p;
    var d := p * p + q * q;
    assert p * p >= 0.0 && q * q >= 0.0;
    if p > 0.0 { assert p * p > 0.0; } else { assert q * q > 0.0; }
    QuotientBounds(p * p, d);
  }

  lemma QuotientBounds(n: real, d: real)
    requires 0.0 <= n <= d && d > 0.0
    ensures 0.0 <= n / d <= 1.0
  {
    assert (n / d) * d == n;
  }

  lemma QuotientOrder(n: real, d: real, n': real, d': real)
    requires d > 0.0 && d' > 0.0 && n * d' < n' * d
    ensures n / d < n' / d'
  {
    var x, y := n / d, n' / d';
    assert x * d == n && y * d' == n';
    assert n * d' == x * (d * d') && n' * d == y * (d * d');
    assert d * d' > 0.0;
  }

  lemma Scale(c: real, x: real, y: real)
    requires c >= 0.0 && x < y
    ensures c * x <= c * y
    ensures c > 0.0 ==> c * x < c * y
  {
    Product(c, y - x);
    assert c * (y - x) == c * y - c * x;
  }

  lemma SquareOrder(s: real, t: real)
    requires 0.0 <= s < t
    ensures s * s < t * t
  {
    calc {
      s * s;
    <= { Scale(s, s, t); }
      s * t;
    ==
      t * s;
    < { Scale(t, s, t); }
      t * t;
    }
  }

  lemma DeuceGrows(p: real, p': real)
    requires 0.0 <= p < p' <= 1.0
    ensures Deuce(p) < Deuce(p')
  {
    var q, q' := 1.0 - p, 1.0 - p';
    DeuceQuotient(p);
    DeuceQuotient(p');
    CrossOrder(p, p');
    CrossProducts(p, q, p', q');
    hide Deuce, Square;
    QuotientOrder(Square(p), Square(p) + Square(q), Square(p'), Square(p') + Square(q'));
  }

  function Square(x: real): real { x * x }

  lemma DeuceQuotient(p: real)
    requires Unit(p)
    ensures Square(p) + Square(1.0 - p) > 0.0
    ensures Deuce(p) == Square(p) / (Square(p) + Square(1.0 - p))
  {
    DeuceBounds(p);
  }

  lemma CrossOrder(p: real, p': real)
    requires 0.0 <= p < p' <= 1.0
    ensures 0.0 <= p * (1.0 - p') < p' * (1.0 - p)
  {
    Product(p, 1.0 - p');
    assert p * (1.0 - p') == p - p * p' && p' * (1.0 - p) == p' - p * p';
  }

  lemma CrossProducts(p: real, q: real, p': real, q': real)
    requires 0.0 <= p * q' < p' * q
    ensures Square(p) * (Square(p') + Square(q')) < Square(p') * (Square(p) + Square(q))
  {
    var s, t := p * q', p' * q;
    SquareOrder(s, t);
    SquareOfProduct(p, q', s);
    SquareOfProduct(p', q, t);
    Distribute(p * p, p' * p', q' * q');
    Distribute(p' * p', p * p, q * q);
  }

  lemma SquareOfProduct(x: real, y: real, s: real)
    requires s == x * y
    ensures s * s == (x * x) * (y * y)
  {
    calc {
      s * s;
    ==
      s * (x * y);
    ==
      (s * x) * y;
    ==
      ((x * y) * x) * y;
    ==
      (x * x) * (y * y);
    }
  }

  lemma Distribute(x: real, y: real, z: real)
    ensures x * (y + z) == x * y + x * z
  {
  }

  /** Points still to be decided before the recursion bottoms out. */
  ghost predicate GameLive(a: nat, b: nat) {
    !(a >= 4 && a - b >= 2) && !(b >= 4 && b - a >= 2)
  }

  lemma {:induction false} GameUnit(p: real, a: nat, b: nat)
    requires Unit(p)
    ensures Unit(GameFrom(p, a, b))
    decreases if a >= 3 && b >= 3 then 0 else 8 - a - b
  {
    DeuceBounds(p);
    if a >= 3 && b >= 3 {
      MixWithin(p, 1.0, Deuce(p), 0.0, 1.0);
      MixWithin(p, Deuce(p), 0.0, 0.0, 1.0);
    } else if GameLive(a, b) {
      GameUnit(p, a + 1, b);
      GameUnit(p, a, b + 1);
      MixWithin(p, GameFrom(p, a + 1, b), GameFrom(p, a, b + 1), 0.0, 1.0);
    }
  }

  /** Winning a point is worth at least as much as losing it. */
  lemma {:induction false} GamePointWorth(p: real, a: nat, b: nat)
    requires Unit(p) && GameLive(a, b)
    ensures GameFrom(p, a, b + 1) <= GameFrom(p, a + 1, b)
    decreases if a >= 3 && b >= 3 then 0 else 8 - a - b
  {
    DeuceBounds(p);
    if a >= 3 && b >= 3 {
      MixMonotone(p, Deuce(p), 0.0, 1.0, Deuce(p));
    } else if GameLive(a + 1, b) && GameLive(a, b + 1) {
      GamePointWorth(p, a + 1, b);
      GamePointWorth(p, a, b + 1);
      var even := GameFrom(p, a + 1, b + 1);
      MixMonotone(p, even, GameFrom(p, a, b + 2), GameFrom(p, a + 2, b), even);
    } else {
      GameUnit(p, a + 1, b);
      GameUnit(p, a, b + 1);
    }
  }

  lemma {:induction false} GameGrows(p: real, p': real, a: nat, b: nat)
    requires 0.0 <= p < p' <= 1.0 && GameLive(a, b)
    ensures GameFrom(p, a, b) < GameFrom(p', a, b)
    decreases if a >= 3 && b >= 3 then 0 else 8 - a - b
  {
    var d, d' := Deuce(p), Deuce(p');
    DeuceBounds(p);
    DeuceBounds(p');
    DeuceGrows(p, p');
    if a >= 3 && b >= 3 {
      MixGrows(p, p', 1.0, d, 1.0, d');
      MixGrows(p, p', d, 0.0, d', 0.0);
    } else {
      if GameLive(a + 1, b) { GameGrows(p, p', a + 1, b); }
      if GameLive(a, b + 1) { GameGrows(p, p', a, b + 1); }
      GameUnit(p', a, b + 1);
      GamePointWorth(p, a, b);
      MixGrows(p, p', GameFrom(p, a + 1, b), GameFrom(p, a, b + 1), GameFrom(p', a + 1, b), GameFrom(p', a, b + 1));
    }
  }

  // ---------- A set ----------

  function SetFrom(p: real, a: nat, b: nat): real
    requires a <= 7 && b <= 7 && !(a == 7 && b == 7)
    decreases 14 - a - b, p
  {
    if a >= 6 && a - b >= 2 then 1.0
    else if b >= 6 && b - a >= 2 then 0.0
    else if a == 7 && b == 6 then 1.0
    else if b == 7 && a == 6 then 0.0
    else if a == 6 && b == 6 then p
    else Mix(p, SetFrom(p, a + 1, b), SetFrom(p, a, b + 1))
  }

  function Clamp(games: int): nat { if games < 0 then 0 else if games > 7 then 7 else games }

  /** Not both sides have seven games: exactly then the recursion ends (SetReturns). */
  predicate SetDefined(gamesFor: int, gamesAgainst: int) { !(gamesFor >= 7 && gamesAgainst >= 7) }

  function SetWinProb(gamesFor: int, gamesAgainst: int, pGame: real): real
    requires SetDefined(gamesFor, gamesAgainst)
  {
    SetFrom(pGame, Clamp(gamesFor), Clamp(gamesAgainst))
  }

  /** The set recursion on any counts, at most `depth` calls deep; None when that is not deep enough. */
  function SetCall(depth: nat, p: real, a: nat, b: nat): Option<real> {
    if depth == 0 then None
    else if a >= 6 && a - b >= 2 then Some(1.0)
    else if b >= 6 && b - a >= 2 then Some(0.0)
    else if a == 7 && b == 6 then Some(1.0)
    else if b == 7 && a == 6 then Some(0.0)
    else if a == 6 && b == 6 then Some(p)
    else
      var win, lose := SetCall(depth - 1, p, a + 1, b), SetCall(depth - 1, p, a, b + 1);
      if win.None? || lose.None? then None else Some(Mix(p, win.value, lose.value))
  }

  /** From level counts of seven on, no depth is enough: two calls down the counts are level again. */
  lemma {:induction false} LevelNeverEnds(depth: nat, p: real, n: nat)
    requires n >= 7
    ensures SetCall(depth, p, n, n) == None
  {
    if depth >= 2 { LevelNeverEnds(depth - 2, p, n + 1); }
  }

  /** Otherwise whatever depth is enough gives the same value. */
  lemma {:induction false} SetCallIs(depth: nat, p: real, a: nat, b: nat)
    requires a <= 7 && b <= 7 && !(a == 7 && b == 7)
    ensures SetCall(depth, p, a, b).Some? ==> SetCall(depth, p, a, b) == Some(SetFrom(p, a, b))
  {
    hide Mix;
    if depth > 0 && SetLive(a, b) && !(a == 6 && b == 6) {
      SetCallIs(depth - 1, p, a + 1, b);
      SetCallIs(depth - 1, p, a, b + 1);
    }
  }

  lemma {:induction false} SetCallEnds(depth: nat, p: real, a: nat, b: nat)
    requires a <= 7 && b <= 7 && !(a == 7 && b == 7) && depth + a + b >= 15
    ensures SetCall(depth, p, a, b).Some?
  {
    hide Mix;
    if SetLive(a, b) && !(a == 6 && b == 6) {
      SetCallEnds(depth - 1, p, a + 1, b);
      SetCallEnds(depth - 1, p, a, b + 1);
    }
  }

  /** A set's probability is returned exactly when not both sides have seven games or more. */
  lemma SetReturns(p: real, gamesFor: int, gamesAgainst: int)
    ensures SetDefined(gamesFor, gamesAgainst)
       <==> exists depth :: SetCall(depth, p, Clamp(gamesFor), Clamp(gamesAgainst)).Some?
    ensures SetDefined(gamesFor, gamesAgainst) ==> forall depth ::
      SetCall(depth, p, Clamp(gamesFor), Clamp(gamesAgainst)) in {None, Some(SetWinProb(gamesFor, gamesAgainst, p))}
  {
    hide SetCall, SetFrom;
    var a, b := Clamp(gamesFor), Clamp(gamesAgainst);
    if SetDefined(gamesFor, gamesAgainst) {
      SetCallEnds(15, p, a, b);
      forall depth ensures SetCall(depth, p, a, b) in {None, Some(SetFrom(p, a, b))} { SetCallIs(depth, p, a, b); }
    } else {
      forall depth: nat ensures SetCall(depth, p, a, b).None? { LevelNeverEnds(depth, p, a); }
    }
  }

  /** At 7-7, and at 8-7, which is clamped to it, the recursion does not end, whatever the game probability. */
  lemma SevenAllNeverReturns(depth: nat, p: real)
    ensures SetCall(depth, p, Clamp(7), Clamp(7)) == SetCall(depth, p, Clamp(8), Clamp(7)) == None
  {
    LevelNeverEnds(depth, p, 7);
  }

  /** Games still to be decided. */
  predicate SetLive(a: nat, b: nat) {
    a <= 6 && b <= 6 && !(a == 6 && b <= 4) && !(b == 6 && a <= 4)
  }

  lemma {:induction false} SetUnit(p: real, a: nat, b: nat)
    requires Unit(p) && a <= 7 && b <= 7 && !(a == 7 && b == 7)
    ensures Unit(SetFrom(p, a, b))
    decreases 14 - a - b
  {
    if SetLive(a, b) && !(a == 6 && b == 6) {
      SetUnit(p, a + 1, b);
      SetUnit(p, a, b + 1);
      MixWithin(p, SetFrom(p, a + 1, b), SetFrom(p, a, b + 1), 0.0, 1.0);
    }
  }

  lemma {:induction false} SetGameWorth(p: real, a: nat, b: nat)
    requires Unit(p) && SetLive(a, b)
    ensures SetFrom(p, a, b + 1) <= SetFrom(p, a + 1, b)
    decreases 14 - a - b
  {
    if SetLive(a + 1, b) && SetLive(a, b + 1) {
      SetGameWorth(p, a + 1, b);
      SetGameWorth(p, a, b + 1);
      var even := SetFrom(p, a + 1, b + 1);
      MixMonotone(p, even, SetFrom(p, a, b + 2), SetFrom(p, a + 2, b), even);
    } else {
      SetUnit(p, a + 1, b);
      SetUnit(p, a, b + 1);
    }
  }

  lemma {:induction false} SetGrows(p: real, p': real, a: nat, b: nat)
    requires 0.0 <= p < p' <= 1.0 && SetLive(a, b)
    ensures SetFrom(p, a, b) < SetFrom(p', a, b)
    decreases 14 - a - b
  {
    if !(a == 6 && b == 6) {
      if SetLive(a + 1, b) { SetGrows(p, p', a + 1, b); }
      if SetLive(a, b + 1) { SetGrows(p, p', a, b + 1); }
      SetUnit(p', a, b + 1);
      SetGameWorth(p, a, b);
      MixGrows(p, p', SetFrom(p, a + 1, b), SetFrom(p, a, b + 1), SetFrom(p', a + 1, b), SetFrom(p', a, b + 1));
    }
  }

  // ---------- A match ----------

  function MatchFrom(p: real, a: int, b: int, needed: nat): real
    decreases if a >= needed || b >= needed then 0 else 2 * needed - a - b, p
  {
    if a >= needed then 1.0
    else if b >= needed then 0.0
    else Mix(p, MatchFrom(p, a + 1, b, needed), MatchFrom(p, a, b + 1, needed))
  }

  lemma {:induction false} MatchUnit(p: real, a: int, b: int, needed: nat)
    requires Unit(p)
    ensures Unit(MatchFrom(p, a, b, needed))
    decreases if a >= needed || b >= needed then 0 else 2 * needed - a - b
  {
    if a < needed && b < needed {
      MatchUnit(p, a + 1, b, needed);
      MatchUnit(p, a, b + 1, needed);
      MixWithin(p, MatchFrom(p, a + 1, b, needed), MatchFrom(p, a, b + 1, needed), 0.0, 1.0);
    }
  }

  lemma {:induction false} MatchSetWorth(p: real, a: int, b: int, needed: nat)
    requires Unit(p) && a < needed && b < needed
    ensures MatchFrom(p, a, b + 1, needed) <= MatchFrom(p, a + 1, b, needed)
    decreases 2 * needed - a - b
  {
    hide MatchFrom, Mix;
    if a + 1 < needed && b + 1 < needed {
      var even := MatchFrom(p, a + 1, b + 1, needed);
      MatchStep(p, a + 1, b, needed);
      MatchStep(p, a, b + 1, needed);
      MatchSetWorth(p, a + 1, b, needed);
      MatchSetWorth(p, a, b + 1, needed);
      MixMonotone(p, even, MatchFrom(p, a, b + 2, needed), MatchFrom(p, a + 2, b, needed), even);
    } else {
      MatchEnds(p, a + 1, b, needed);
      MatchEnds(p, a, b + 1, needed);
      MatchUnit(p, a + 1, b, needed);
      MatchUnit(p, a, b + 1, needed);
    }
  }

  lemma MatchStep(p: real, a: int, b: int, needed: nat)
    requires a < needed && b < needed
    ensures MatchFrom(p, a, b, needed) == Mix(p, MatchFrom(p, a + 1, b, needed), MatchFrom(p, a, b + 1, needed))
  {
  }

  lemma MatchEnds(p: real, a: int, b: int, needed: nat)
    ensures a >= needed ==> MatchFrom(p, a, b, needed) == 1.0
    ensures a < needed && b >= needed ==> MatchFrom(p, a, b, needed) == 0.0
  {
  }

  lemma {:induction false} MatchGrows(p: real, p': real, a: int, b: int, needed: nat)
    requires 0.0 <= p < p' <= 1.0
    ensures MatchFrom(p, a, b, needed) <= MatchFrom(p', a, b, needed)
    ensures a < needed && b < needed ==> MatchFrom(p, a, b, needed) < MatchFrom(p', a, b, needed)
    decreases if a >= needed || b >= needed then 0 else 2 * needed - a - b
  {
    if a < needed && b < needed {
      MatchGrows(p, p', a + 1, b, needed);
      MatchGrows(p, p', a, b + 1, needed);
      MatchUnit(p', a, b + 1, needed);
      MatchSetWorth(p, a, b, needed);
      MixGrows(p, p', MatchFrom(p, a + 1, b, needed), MatchFrom(p, a, b + 1, needed),
               MatchFrom(p', a + 1, b, needed), MatchFrom(p', a, b + 1, needed));
    }
  }

  datatype WinProbError = BestOf | PrematchProbability

  function SetsNeeded(bestOf: int): nat
    requires bestOf in {3, 5}
  {
    bestOf / 2 + 1
  }

  function MatchFromScore(setsFor: int, setsAgainst: int, gamesFor: int, gamesAgainst: int, needed: nat,
                          pPoint: real): real
    requires setsFor < needed && setsAgainst < needed ==> SetDefined(gamesFor, gamesAgainst)
  {
    if setsFor >= needed then 1.0
    else if setsAgainst >= needed then 0.0
    else
      var pGame := GameWinProb(pPoint);
      var pSetNow := SetWinProb(gamesFor, gamesAgainst, pGame);
      var pSetFresh := SetWinProb(0, 0, pGame);
      Mix(pSetNow, MatchFrom(pSetFresh, setsFor + 1, setsAgainst, needed),
          MatchFrom(pSetFresh, setsFor, setsAgainst + 1, needed))
  }

  /** A match of a format that exists, which neither side has won. */
  predicate Undecided(setsFor: int, setsAgainst: int, bestOf: int) {
    bestOf in {3, 5} && setsFor < SetsNeeded(bestOf) && setsAgainst < SetsNeeded(bestOf)
  }

  function MatchWinProbability(setsFor: int, setsAgainst: int, gamesFor: int, gamesAgainst: int, bestOf: int,
                               pPoint: real)
    : Result<real, WinProbError>
    requires Undecided(setsFor, setsAgainst, bestOf) ==> SetDefined(gamesFor, gamesAgainst)
  {
    if bestOf !in {3, 5} then Err(BestOf)
    else Ok(MatchFromScore(setsFor, setsAgainst, gamesFor, gamesAgainst, SetsNeeded(bestOf), pPoint))
  }

  /** What a score is worth: the current set, then the match from either outcome of it. */
  function Worth(current: real, later: real, setsFor: int, setsAgainst: int, needed: nat): real {
    Mix(current, MatchFrom(later, setsFor + 1, setsAgainst, needed), MatchFrom(later, setsFor, setsAgainst + 1, needed))
  }

  /** The match probability with set recursions at most `depth` calls deep. */
  function MatchCall(depth: nat, setsFor: int, setsAgainst: int, gamesFor: int, gamesAgainst: int, bestOf: int,
                     pPoint: real)
    : Option<Result<real, WinProbError>>
  {
    if bestOf !in {3, 5} then Some(Err(BestOf))
    else if setsFor >= SetsNeeded(bestOf) then Some(Ok(1.0))
    else if setsAgainst >= SetsNeeded(bestOf) then Some(Ok(0.0))
    else
      var pGame := GameWinProb(pPoint);
      var current := SetCall(depth, pGame, Clamp(gamesFor), Clamp(gamesAgainst));
      var later := SetCall(depth, pGame, Clamp(0), Clamp(0));
      if current.None? || later.None? then None
      else Some(Ok(Worth(current.value, later.value, setsFor, setsAgainst, SetsNeeded(bestOf))))
  }

  /**
    `match_win_probability` ends, by returning or raising, unless the match is open and both sides have seven games.
  */
  lemma MatchReturns(setsFor: int, setsAgainst: int, gamesFor: int, gamesAgainst: int, bestOf: int, p: real)
    ensures (Undecided(setsFor, setsAgainst, bestOf) ==> SetDefined(gamesFor, gamesAgainst))
       <==> exists depth :: MatchCall(depth, setsFor, setsAgainst, gamesFor, gamesAgainst, bestOf, p).Some?
    ensures (Undecided(setsFor, setsAgainst, bestOf) ==> SetDefined(gamesFor, gamesAgainst)) ==> forall depth ::
      MatchCall(depth, setsFor, setsAgainst, gamesFor, gamesAgainst, bestOf, p)
      in {None, Some(MatchWinProbability(setsFor, setsAgainst, gamesFor, gamesAgainst, bestOf, p))}
  {
    hide SetCall, SetFrom, MatchFrom, Mix, GameWinProb, Clamp;
    var pGame, none := GameWinProb(p), 0;
    SetReturns(pGame, gamesFor, gamesAgainst);
    SetReturns(pGame, none, none);
    if Undecided(setsFor, setsAgainst, bestOf) && SetDefined(gamesFor, gamesAgainst) {
      SetCallEnds(15, pGame, Clamp(gamesFor), Clamp(gamesAgainst)) by { ClampWithin(gamesFor, gamesAgainst); }
      SetCallEnds(15, pGame, Clamp(none), Clamp(none)) by { ClampWithin(none, none); }
    }
    var deep := 15;
    assert (Undecided(setsFor, setsAgainst, bestOf) ==> SetDefined(gamesFor, gamesAgainst))
      ==> MatchCall(deep, setsFor, setsAgainst, gamesFor, gamesAgainst, bestOf, p).Some?;
    if Undecided(setsFor, setsAgainst, bestOf) ==> SetDefined(gamesFor, gamesAgainst) {
      forall depth
        ensures MatchCall(depth, setsFor, setsAgainst, gamesFor, gamesAgainst, bestOf, p)
             in {None, Some(MatchWinProbability(setsFor, setsAgainst, gamesFor, gamesAgainst, bestOf, p))}
      {
        MatchCallIs(depth, setsFor, setsAgainst, gamesFor, gamesAgainst, bestOf, p);
      }
    } else {
      forall depth: nat ensures MatchCall(depth, setsFor, setsAgainst, gamesFor, gamesAgainst, bestOf, p).None? {
        assert SetCall(depth, pGame, Clamp(gamesFor), Clamp(gamesAgainst)).None?;
      }
    }
  }

  lemma MatchCallIs(depth: nat, setsFor: int, setsAgainst: int, gamesFor: int, gamesAgainst: int, bestOf: int, p: real)
    requires Undecided(setsFor, setsAgainst, bestOf) ==> SetDefined(gamesFor, gamesAgainst)
    ensures MatchCall(depth, setsFor, setsAgainst, gamesFor, gamesAgainst, bestOf, p)
         in {None, Some(MatchWinProbability(setsFor, setsAgainst, gamesFor, gamesAgainst, bestOf, p))}
  {
    if Undecided(setsFor, setsAgainst, bestOf) {
      hide SetCall, SetFrom, MatchFrom, Mix, GameWinProb;
      SetCallIs(depth, GameWinProb(p), Clamp(gamesFor), Clamp(gamesAgainst));
      SetCallIs(depth, GameWinProb(p), Clamp(0), Clamp(0));
    }
  }

  lemma ClampWithin(gamesFor: int, gamesAgainst: int)
    ensures var a, b := Clamp(gamesFor), Clamp(gamesAgainst);
      a <= 7 && b <= 7 && (SetDefined(gamesFor, gamesAgainst) <==> !(a == 7 && b == 7))
  {
  }

  /** The current set is still being played. */
  predicate GamesLive(gamesFor: int, gamesAgainst: int) {
    SetDefined(gamesFor, gamesAgainst) && SetLive(Clamp(gamesFor), Clamp(gamesAgainst))
  }

  lemma WorthGrows(current: real, current': real, later: real, later': real, setsFor: int, setsAgainst: int,
                   needed: nat)
    requires 0.0 <= current <= current' <= 1.0 && 0.0 <= later < later' <= 1.0
    requires setsFor < needed && setsAgainst < needed
    ensures Worth(current, later, setsFor, setsAgainst, needed) <= Worth(current', later', setsFor, setsAgainst, needed)
    ensures current < current' ==>
      Worth(current, later, setsFor, setsAgainst, needed) < Worth(current', later', setsFor, setsAgainst, needed)
  {
    hide MatchFrom, Mix;
    var win, lose := MatchFrom(later, setsFor + 1, setsAgainst, needed),
                     MatchFrom(later, setsFor, setsAgainst + 1, needed);
    var win', lose' := MatchFrom(later', setsFor + 1, setsAgainst, needed),
                       MatchFrom(later', setsFor, setsAgainst + 1, needed);
    MatchGrows(later, later', setsFor + 1, setsAgainst, needed);
    MatchGrows(later, later', setsFor, setsAgainst + 1, needed);
    MatchSetWorth(later, setsFor, setsAgainst, needed);
    MatchSetWorth(later', setsFor, setsAgainst, needed);
    if lose == win { Apart(later, later', setsFor, setsAgainst, needed); }
    MixGrows(current, current', win, lose, win', lose');
  }

  /** Winning the set is worth strictly more than losing it, before or after the growth of the later sets. */
  lemma Apart(later: real, later': real, setsFor: int, setsAgainst: int, needed: nat)
    requires 0.0 <= later < later' <= 1.0 && setsFor < needed && setsAgainst < needed
    ensures MatchFrom(later, setsFor + 1, setsAgainst, needed) < MatchFrom(later', setsFor + 1, setsAgainst, needed)
         || MatchFrom(later, setsFor, setsAgainst + 1, needed) < MatchFrom(later, setsFor + 1, setsAgainst, needed)
  {
    hide MatchFrom, Mix;
    MatchGrows(later, later', setsFor + 1, setsAgainst, needed);
    if setsFor + 1 >= needed {
      MatchEnds(later, setsFor + 1, setsAgainst, needed);
      MatchEnds(later, setsFor, setsAgainst + 1, needed);
      MatchUnit(later', setsFor, setsAgainst + 1, needed);
      MatchGrows(later, later', setsFor, setsAgainst + 1, needed);
    }
  }

  lemma SetNowGrows(g: real, g': real, a: nat, b: nat)
    requires 0.0 <= g < g' <= 1.0 && a <= 7 && b <= 7 && !(a == 7 && b == 7)
    ensures 0.0 <= SetFrom(g, a, b) <= SetFrom(g', a, b) <= 1.0
    ensures SetLive(a, b) ==> SetFrom(g, a, b) < SetFrom(g', a, b)
  {
    SetUnit(g, a, b);
    SetUnit(g', a, b);
    if SetLive(a, b) {
      hide SetFrom;
      SetGrows(g, g', a, b);
    }
  }

  /**
    The probability of winning the match does not fall as the probability of winning a point rises, and from
    every score with the match and the set undecided it strictly rises. A decided match is worth one or zero,
    and any other format than best of three or five is refused.
  */
  lemma MatchProbabilityGrows(setsFor: int, setsAgainst: int, gamesFor: int, gamesAgainst: int, bestOf: int, p: real,
                              p': real)
    requires 0.0 <= p < p' <= 1.0
    requires Undecided(setsFor, setsAgainst, bestOf) ==> SetDefined(gamesFor, gamesAgainst)
    ensures var r := MatchWinProbability(setsFor, setsAgainst, gamesFor, gamesAgainst, bestOf, p);
      var r' := MatchWinProbability(setsFor, setsAgainst, gamesFor, gamesAgainst, bestOf, p');
      if bestOf !in {3, 5} then r == r' == Err(BestOf)
      else if setsFor >= SetsNeeded(bestOf) then r == r' == Ok(1.0)
      else if setsAgainst >= SetsNeeded(bestOf) then r == r' == Ok(0.0)
      else r.Ok? && r'.Ok? && r.value <= r'.value && (GamesLive(gamesFor, gamesAgainst) ==> r.value < r'.value)
  {
    if Undecided(setsFor, setsAgainst, bestOf) {
      ScoreGrows(setsFor, setsAgainst, gamesFor, gamesAgainst, SetsNeeded(bestOf), p, p');
    }
  }

  lemma ScoreGrows(setsFor: int, setsAgainst: int, gamesFor: int, gamesAgainst: int, needed: nat, p: real, p': real)
    requires 0.0 <= p < p' <= 1.0
    requires SetDefined(gamesFor, gamesAgainst) && setsFor < needed && setsAgainst < needed
    ensures MatchFromScore(setsFor, setsAgainst, gamesFor, gamesAgainst, needed, p)
         <= MatchFromScore(setsFor, setsAgainst, gamesFor, gamesAgainst, needed, p')
    ensures GamesLive(gamesFor, gamesAgainst) ==>
      MatchFromScore(setsFor, setsAgainst, gamesFor, gamesAgainst, needed, p)
      < MatchFromScore(setsFor, setsAgainst, gamesFor, gamesAgainst, needed, p')
  {
    hide GameFrom, SetFrom, MatchFrom, Mix;
    var a, b := Clamp(gamesFor), Clamp(gamesAgainst);
    var g, g' := GameWinProb(p), GameWinProb(p');
    GameUnit(p, 0, 0);
    GameUnit(p', 0, 0);
    GameGrows(p, p', 0, 0);
    SetNowGrows(g, g', a, b);
    SetNowGrows(g, g', 0, 0);
    WorthGrows(SetFrom(g, a, b), SetFrom(g', a, b), SetFrom(g, 0, 0), SetFrom(g', 0, 0), setsFor, setsAgainst, needed);
  }

  // ---------- Inverting the model ----------

  /** The prematch model: the probability of winning from love-all. */
  function Prematch(needed: nat, pPoint: real): real { MatchFromScore(0, 0, 0, 0, needed, pPoint) }

  const HALVINGS: nat := 60

  function HalfPower(n: nat): real { if n == 0 then 1.0 else HalfPower(n - 1) / 2.0 }

  lemma CertainEnds(needed: nat)
    requires needed > 0
    ensures Prematch(needed, 0.0) == 0.0
    ensures Prematch(needed, 1.0) == 1.0
  {
    hide GameFrom, SetFrom, MatchFrom;
    GameAtEnds(0, 0);
    SetAtEnds(0, 0);
    MatchAtEnds(0, 1, needed);
    MatchAtEnds(1, 0, needed);
  }

  lemma {:induction false} GameAtEnds(a: nat, b: nat)
    requires GameLive(a, b)
    ensures GameFrom(0.0, a, b) == 0.0 || (a > 3 && a > b)
    ensures GameFrom(1.0, a, b) == 1.0 || (b > 3 && b > a)
    decreases if a >= 3 && b >= 3 then 0 else 8 - a - b
  {
    DeuceBounds(0.0);
    if !(a >= 3 && b >= 3) {
      if GameLive(a, b + 1) { GameAtEnds(a, b + 1); }
      if GameLive(a + 1, b) { GameAtEnds(a + 1, b); }
    }
  }

  lemma {:induction false} SetAtEnds(a: nat, b: nat)
    requires SetLive(a, b)
    ensures SetFrom(0.0, a, b) == 0.0
    ensures SetFrom(1.0, a, b) == 1.0
    decreases 14 - a - b
  {
    if !(a == 6 && b == 6) {
      if SetLive(a, b + 1) { SetAtEnds(a, b + 1); }
      if SetLive(a + 1, b) { SetAtEnds(a + 1, b); }
    }
  }

  lemma {:induction false} MatchAtEnds(a: int, b: int, needed: nat)
    ensures a < needed ==> MatchFrom(0.0, a, b, needed) == 0.0
    ensures a >= needed || b < needed ==> MatchFrom(1.0, a, b, needed) == 1.0
    decreases if a >= needed || b >= needed then 0 else 2 * needed - a - b
  {
    if a < needed && b < needed {
      MatchAtEnds(a + 1, b, needed);
      MatchAtEnds(a, b + 1, needed);
    }
  }

  /** The invariant of the bisection after `k` halvings. */
  ghost predicate Bracket(needed: nat, target: real, low: real, high: real, k: nat) {
    && 0.0 <= low < high <= 1.0
    && high - low == HalfPower(k)
    && Prematch(needed, low) < target <= Prematch(needed, high)
  }

  lemma BracketStep(needed: nat, target: real, low: real, high: real, k: nat)
    requires Bracket(needed, target, low, high, k)
    ensures var middle := (low + high) / 2.0;
            && (Prematch(needed, middle) < target ==> Bracket(needed, target, middle, high, k + 1))
            && (Prematch(needed, middle) >= target ==> Bracket(needed, target, low, middle, k + 1))
  {
  }

  /**
    After `halvings` steps the result brackets the target to within 2^-(halvings + 1) on either
    side, so it is that close to any point probability that models the target exactly.
  */
  ghost predicate Inverts(needed: nat, target: real, r: real, halvings: nat) {
    var e := HalfPower(halvings + 1);
    && e <= r <= 1.0 - e
    && Prematch(needed, r - e) < target <= Prematch(needed, r + e)
    && forall x :: Unit(x) && Prematch(needed, x) == target ==> r - e < x <= r + e
  }

  method EffectivePointProbability(target: real, bestOf: int) returns (r: Result<real, WinProbError>)
    ensures r.Err? <==> target < 0.0 || target > 1.0 || bestOf !in {3, 5}
    ensures r.Err? ==> r.error == if target < 0.0 || target > 1.0 then PrematchProbability else BestOf
    ensures r.Ok? && target in {0.0, 1.0} ==> r.value == target
    ensures r.Ok? && 0.0 < target < 1.0 ==> Inverts(if bestOf == 3 then 2 else 3, target, r.value, 60)
  {
    hide MatchFromScore, GameFrom, GameWinProb, SetFrom, SetWinProb, HalfPower;
    if !(0.0 <= target <= 1.0) { return Err(PrematchProbability); }
    if bestOf !in {3, 5} { return Err(BestOf); }
    if target == 0.0 || target == 1.0 { return Ok(target); }
    StartBracket(SetsNeeded(bestOf), target);
    var low, high := Bisect(SetsNeeded(bestOf), target, 0.0, 1.0, HALVINGS);
    BracketInverts(SetsNeeded(bestOf), target, low, high, HALVINGS);
    return Ok((low + high) / 2.0);
  }

  method Bisect(needed: nat, target: real, start: real, end: real, halvings: nat) returns (low: real, high: real)
    requires Bracket(needed, target, start, end, 0)
    ensures Bracket(needed, target, low, high, halvings)
  {
    low, high := start, end;
    for k := 0 to halvings
      invariant Bracket(needed, target, low, high, k)
    {
      BracketStep(needed, target, low, high, k);
      var middle := (low + high) / 2.0;
      if Prematch(needed, middle) < target {
        low := middle;
      } else {
        high := middle;
      }
    }
  }

  lemma StartBracket(needed: nat, target: real)
    requires needed > 0 && 0.0 < target < 1.0
    ensures Bracket(needed, target, 0.0, 1.0, 0)
  {
    CertainEnds(needed);
  }

  lemma Halved(n: nat)
    ensures HalfPower(n + 1) == HalfPower(n) / 2.0
  {
  }

  lemma BracketInverts(needed: nat, target: real, low: real, high: real, halvings: nat)
    requires needed > 0 && Bracket(needed, target, low, high, halvings)
    ensures Inverts(needed, target, (low + high) / 2.0, halvings)
  {
    hide MatchFromScore, HalfPower;
    assert HalfPower(halvings + 1) == (high - low) / 2.0 by { Halved(halvings); }
    forall x | Unit(x) && Prematch(needed, x) == target ensures low < x <= high {
      if x < low { ScoreGrows(0, 0, 0, 0, needed, x, low); }
      if high < x { ScoreGrows(0, 0, 0, 0, needed, high, x); }
    }
  }
}

/*
 * Dirac dice (day 21). Two players move round a ten-space track; a turn
 * moves the current player by the sum of three rolls and adds the space
 * landed on to the player's score. Part A uses a deterministic 100-sided
 * die and plays to 1000; part B counts, over every outcome of a three-sided
 * die, the universes in which each player reaches 21 first.
 */
module DiracDice {

  type Player = i: nat | i < 2

  /** The two-element arrays `[u32; 2]` of positions and scores, indexed by player. */
  datatype Pair = Pair(first: nat, second: nat) {
    function Get(i: Player): nat {
      if i == 0 then first else second
    }

    function Set(i: Player, v: nat): (p: Pair)
      ensures p.Get(i) == v && p.Get(1 - i) == Get(1 - i)
    {
      if i == 0 then Pair(v, second) else Pair(first, v)
    }
  }

  /** `while p > 10 { p -= 10 }`: a space of the track, the same modulo 10. */
  function WrapTen(p: nat): (q: nat)
    ensures p >= 1 ==> 1 <= q <= 10
  {
    if p > 10 then WrapTen(p - 10) else p
  }

  /** Past the first space, wrapping is `(p - 1) % 10 + 1`, so it depends on `p` modulo 10 only. */
  lemma {:induction false} WrapTenMod(p: nat)
    requires p >= 1
    ensures WrapTen(p) == (p - 1) % 10 + 1
  {
    if p > 10 {
      WrapTenMod(p - 10);
    }
  }

  /** Whole laps of the track do not change the space landed on. */
  lemma {:induction false} WrapTenLaps(p: nat, laps: nat)
    requires p >= 1
    ensures WrapTen(p + 10 * laps) == WrapTen(p)
  {
    if laps > 0 {
      WrapTenLaps(p, laps - 1);
    }
  }

  // ---------------------------------------------------------------------------
  // Part A: the deterministic die.

  /** The locals of `solution_a` that its `turn` closure updates. */
  datatype Practice = Practice(positions: Pair, scores: Pair, die: nat, rolls: nat)

  function Start(p1: nat, p2: nat): Practice {
    Practice(Pair(p1, p2), Pair(0, 0), 1, 0)
  }

  /** The face shown by the `n`-th roll (from 1) of the deterministic die. */
  function Roll(n: nat): nat
    requires n >= 1
  {
    (n - 1) % 100 + 1
  }

  /** The die value is always the next face to be rolled. */
  predicate DieTracks(s: Practice) {
    s.die == s.rolls % 100 + 1
  }

  /** The `turn` closure: move by `3 * (die + 1)`, advance the die by three, score the new space. */
  function Turn(s: Practice, i: Player): Practice {
    var p := WrapTen(s.positions.Get(i) + 3 * (s.die + 1));
    var d := if s.die + 3 > 100 then s.die + 3 - 100 else s.die + 3;
    Practice(s.positions.Set(i, p), s.scores.Set(i, s.scores.Get(i) + p), d, s.rolls + 3)
  }

  /**
   * The closure's move `3 * (die + 1)` is the sum of the three faces rolled,
   * up to the hundreds the die wraps by, so the player lands where those three
   * rolls take it. Only the mover's position and score change, the new space is
   * on the track, and the die still shows the next face.
   */
  lemma TurnRolls(s: Practice, i: Player)
    requires DieTracks(s)
    ensures var t := Turn(s, i);
      && DieTracks(t) && t.rolls == s.rolls + 3
      && t.positions.Get(i) == WrapTen(s.positions.Get(i) + Roll(s.rolls + 1) + Roll(s.rolls + 2) + Roll(s.rolls + 3))
      && 1 <= t.positions.Get(i) <= 10
      && t.scores.Get(i) == s.scores.Get(i) + t.positions.Get(i)
      && t.positions.Get(1 - i) == s.positions.Get(1 - i) && t.scores.Get(1 - i) == s.scores.Get(1 - i)
  {
    var y := s.positions.Get(i) + Roll(s.rolls + 1) + Roll(s.rolls + 2) + Roll(s.rolls + 3);
    ThreeRolls(s.rolls);
    WrapTenLaps(y, 10);
    WrapTenLaps(y, 20);
  }

  /** Three faces from the die showing `n % 100 + 1` add to `3 * (n % 100 + 2)`, less the hundreds the die wraps by. */
  lemma ThreeRolls(n: nat)
    ensures var sum := Roll(n + 1) + Roll(n + 2) + Roll(n + 3);
      3 * (n % 100 + 2) in {sum, sum + 100, sum + 200}
    ensures (n + 3) % 100 + 1 == if n % 100 + 4 > 100 then n % 100 + 4 - 100 else n % 100 + 4
  {
    var m := n % 100;
    assert Roll(n + 1) == m + 1;
    assert Roll(n + 2) == if m <= 98 then m + 2 else 1;
    assert Roll(n + 3) == if m <= 97 then m + 3 else m - 97;
  }

  /**
   * The loop of `solution_a`: player 1 then player 2 take turns until one of
   * them reaches 1000; the game stops at that turn.
   */
  function Play(s: Practice): (e: Practice)
    ensures e.scores.Get(0) >= 1000 || e.scores.Get(1) >= 1000
    decreases 2000 - (s.scores.Get(0) + s.scores.Get(1)) as int
  {
    var s1 := Turn(s, 0);
    if s1.scores.Get(0) >= 1000 then s1
    else
      var s2 := Turn(s1, 1);
      if s2.scores.Get(1) >= 1000 then s2
      else Play(s2)
  }

  /** A game keeps the die on the next face to be rolled, and rolls at least once. */
  lemma {:induction false} PlayTracks(s: Practice)
    requires DieTracks(s)
    ensures DieTracks(Play(s)) && Play(s).rolls >= s.rolls + 3
    decreases 2000 - (s.scores.Get(0) + s.scores.Get(1)) as int
  {
    TurnRolls(s, 0);
    var s1 := Turn(s, 0);
    if s1.scores.Get(0) < 1000 {
      TurnRolls(s1, 1);
      var s2 := Turn(s1, 1);
      if s2.scores.Get(1) < 1000 {
        PlayTracks(s2);
      }
    }
  }

  /** The answer as the source computes it: player 2's score times the rolls, whoever won. */
  function AnswerAsWritten(e: Practice): nat {
    e.scores.Get(1) * e.rolls
  }

  /** The answer the puzzle asks for: the losing player's score times the rolls. */
  function Answer(e: Practice): (a: nat)
    ensures e.scores.Get(0) >= 1000 ==> a == e.scores.Get(1) * e.rolls
    ensures e.scores.Get(0) < 1000 ==> a == e.scores.Get(0) * e.rolls
  {
    var loser := if e.scores.Get(0) >= 1000 then 1 else 0;
    e.scores.Get(loser) * e.rolls
  }

  /** When player 1 wins, the two answers agree; when player 2 wins, the source reports the winner's score instead. */
  lemma AsWrittenDiffers(e: Practice)
    requires e.rolls > 0
    ensures e.scores.Get(0) >= 1000 ==> AnswerAsWritten(e) == Answer(e)
    ensures e.scores.Get(0) < 1000 <= e.scores.Get(1) ==> AnswerAsWritten(e) > Answer(e)
  {
    if e.scores.Get(0) < 1000 <= e.scores.Get(1) {
      assert e.scores.Get(1) * e.rolls > e.scores.Get(0) * e.rolls by {
        assert (e.scores.Get(1) - e.scores.Get(0)) * e.rolls > 0;
      }
    }
  }

  /** The closure's captured state, updated by each call. */
  class PracticeGame {
    var positions: Pair
    var scores: Pair
    var die: nat
    var rolls: nat

    function State(): Practice
      reads this
    {
      Practice(positions, scores, die, rolls)
    }

    constructor (p1: nat, p2: nat)
      ensures State() == Start(p1, p2)
    {
      positions, scores, die, rolls := Pair(p1, p2), Pair(0, 0), 1, 0;
    }

    /** One call of `turn(i)`: returns the mover's new score. */
    method TakeTurn(i: Player) returns (score: nat)
      modifies this
      ensures State() == Turn(old(State()), i)
      ensures score == scores.Get(i)
    {
      var p: nat := positions.Get(i) + 3 * (die + 1);
      ghost var moved := p;
      while p > 10
        invariant WrapTen(p) == WrapTen(moved)
      {
        p := p - 10;
      }
      positions := positions.Set(i, p);
      die := die + 3;
      if die > 100 {
        die := die - 100;
      }
      rolls := rolls + 3;
      scores := scores.Set(i, scores.Get(i) + p);
      score := scores.Get(i);
    }
  }

  /** The `loop` of `solution_a`, which stops as soon as a turn reaches 1000. */
  method PlayPractice(p1: nat, p2: nat) returns (game: PracticeGame)
    ensures game.State() == Play(Start(p1, p2))
  {
    game := new PracticeGame(p1, p2);
    ghost var final := Play(Start(p1, p2));
    while true
      invariant Play(game.State()) == final
      decreases 2000 - (game.scores.Get(0) + game.scores.Get(1)) as int
    {
      var a := game.TakeTurn(0);
      if a >= 1000 {
        break;
      }
      var b := game.TakeTurn(1);
      if b >= 1000 {
        break;
      }
    }
  }

  /** `solution_a` as written: player 2's score times the number of rolls. */
  method SolutionAAsWritten(p1: nat, p2: nat) returns (answer: nat)
    ensures answer == AnswerAsWritten(Play(Start(p1, p2)))
  {
    var game := PlayPractice(p1, p2);
    answer := game.scores.Get(1) * game.rolls;
  }

  /** `solution_a` corrected: the losing player's score times the number of rolls. */
  method SolutionA(p1: nat, p2: nat) returns (answer: nat)
    ensures answer == Answer(Play(Start(p1, p2)))
  {
    var game := PlayPractice(p1, p2);
    var loser := if game.scores.Get(0) >= 1000 then 1 else 0;
    answer := game.scores.Get(loser) * game.rolls;
  }

  // ---------------------------------------------------------------------------
  // Part B: the Dirac die.

  /** `GameState`: positions, scores and whose turn it is. */
  datatype GameState = GameState(positions: Pair, scores: Pair, turn: Player)

  /** `DIRAC_DICE`: each total of three rolls of a three-sided die, with the number of ways to roll it. */
  const DiracTable: seq<(nat, nat)> := [(3, 1), (4, 3), (5, 6), (6, 7), (7, 6), (8, 3), (9, 1)]

  /** An entry of the table: a total of at least 3, rolled at least one way. */
  function Entry(k: nat): (e: (nat, nat))
    requires k < 7
    ensures e == DiracTable[k] && e.0 >= 3 && e.1 >= 1
  {
    DiracTable[k]
  }

  /** One move of the current player by `total`, then the turn passes. */
  function Advance(s: GameState, total: nat): (t: GameState)
    ensures total >= 1 ==> 1 <= t.positions.Get(s.turn) <= 10
    ensures t.positions.Get(1 - s.turn) == s.positions.Get(1 - s.turn) && t.scores.Get(1 - s.turn) == s.scores.Get(1 - s.turn)
    ensures t.scores.Get(s.turn) == s.scores.Get(s.turn) + t.positions.Get(s.turn)
    ensures t.turn == 1 - s.turn
  {
    var p := WrapTen(s.positions.Get(s.turn) + total);
    GameState(s.positions.Set(s.turn, p), s.scores.Set(s.turn, s.scores.Get(s.turn) + p), (s.turn + 1) % 2)
  }

  /** The score still to be made, which every move lowers. */
  function Remaining(s: GameState): int {
    42 - (s.scores.Get(0) + s.scores.Get(1))
  }

  predicate Playing(s: GameState) {
    s.scores.Get(0) < 21 && s.scores.Get(1) < 21
  }

  function PairPlus(a: (nat, nat), b: (nat, nat)): (nat, nat) {
    (a.0 + b.0, a.1 + b.1)
  }

  function PairTimes(a: (nat, nat), f: nat): (r: (nat, nat))
    ensures f >= 1 ==> r.0 >= a.0 && r.1 >= a.1
  {
    (a.0 * f, a.1 * f)
  }

  /**
   * `solve_recursive`: the universes in which player 1 and player 2 win. At
   * least one universe is counted from every state.
   */
  function Wins(s: GameState): (w: (nat, nat))
    ensures w.0 + w.1 >= 1
    decreases Remaining(s), 1
  {
    if s.scores.Get(0) >= 21 then (1, 0)
    else if s.scores.Get(1) >= 21 then (0, 1)
    else WinsUpTo(s, 7)
  }

  /** The accumulated wins over the first `k` table entries, each weighted by its frequency. */
  function WinsUpTo(s: GameState, k: nat): (w: (nat, nat))
    requires Playing(s) && k <= 7
    ensures k >= 1 ==> w.0 + w.1 >= 1
    decreases Remaining(s), 0, k
  {
    if k == 0 then (0, 0)
    else
      var (total, frequency) := Entry(k - 1);
      PairPlus(WinsUpTo(s, k - 1), PairTimes(Wins(Advance(s, total)), frequency))
  }

  /** One more table entry adds that roll's wins, times its frequency. */
  lemma WinsUpToNext(s: GameState, k: nat)
    requires Playing(s) && k < 7
    ensures Remaining(Advance(s, Entry(k).0)) < Remaining(s)
    ensures WinsUpTo(s, k + 1) == PairPlus(WinsUpTo(s, k), PairTimes(Wins(Advance(s, Entry(k).0)), Entry(k).1))
  {
  }

  /**
   * An independent count: every one of the three rolls of a turn splits the
   * universe into three, with no table of totals.
   */
  function RefWins(s: GameState): (nat, nat)
    decreases Remaining(s), 1
  {
    if s.scores.Get(0) >= 21 then (1, 0)
    else if s.scores.Get(1) >= 21 then (0, 1)
    else RollSplit(s, 0, 3)
  }

  /** The universes after rolling `d` more times, `t` rolled so far this turn. */
  function RollSplit(s: GameState, t: nat, d: nat): (nat, nat)
    requires Playing(s) && t + d >= 3
    decreases Remaining(s), 0, d
  {
    if d == 0 then RefWins(Advance(s, t))
    else PairPlus(PairPlus(RollSplit(s, t + 1, d - 1), RollSplit(s, t + 2, d - 1)), RollSplit(s, t + 3, d - 1))
  }

  /** The seven totals' results, each weighted by its number of roll sequences 1, 3, 6, 7, 6, 3, 1. */
  function Grouped(r3: (nat, nat), r4: (nat, nat), r5: (nat, nat), r6: (nat, nat), r7: (nat, nat), r8: (nat, nat), r9: (nat, nat)): (nat, nat) {
    PairPlus(PairPlus(PairPlus(PairPlus(PairPlus(PairPlus(PairPlus((0, 0),
      PairTimes(r3, 1)), PairTimes(r4, 3)), PairTimes(r5, 6)), PairTimes(r6, 7)), PairTimes(r7, 6)), PairTimes(r8, 3)), PairTimes(r9, 1))
  }

  /** Grouping the 27 roll sequences of a turn by their total gives the table's weighted sum. */
  lemma RollSplitGroups(s: GameState)
    requires Playing(s)
    ensures RollSplit(s, 0, 3) == Grouped(RefWins(Advance(s, 3)), RefWins(Advance(s, 4)), RefWins(Advance(s, 5)),
      RefWins(Advance(s, 6)), RefWins(Advance(s, 7)), RefWins(Advance(s, 8)), RefWins(Advance(s, 9)))
  {
    hide RefWins, Advance;
    var r3, r4, r5, r6 := RollSplit(s, 3, 0), RollSplit(s, 4, 0), RollSplit(s, 5, 0), RollSplit(s, 6, 0);
    var r7, r8, r9 := RollSplit(s, 7, 0), RollSplit(s, 8, 0), RollSplit(s, 9, 0);
    var x2, x3, x4 := RollSplit(s, 2, 1), RollSplit(s, 3, 1), RollSplit(s, 4, 1);
    var x5, x6 := RollSplit(s, 5, 1), RollSplit(s, 6, 1);
    var y1, y2, y3 := RollSplit(s, 1, 2), RollSplit(s, 2, 2), RollSplit(s, 3, 2);
    Regroup(r3, r4, r5, r6, r7, r8, r9, x2, x3, x4, x5, x6, y1, y2, y3, RollSplit(s, 0, 3));
  }

  /** The arithmetic of the regrouping: three levels of three-way splits give the weights 1, 3, 6, 7, 6, 3, 1. */
  lemma Regroup(r3: (nat, nat), r4: (nat, nat), r5: (nat, nat), r6: (nat, nat), r7: (nat, nat), r8: (nat, nat), r9: (nat, nat),
                x2: (nat, nat), x3: (nat, nat), x4: (nat, nat), x5: (nat, nat), x6: (nat, nat),
                y1: (nat, nat), y2: (nat, nat), y3: (nat, nat), z: (nat, nat))
    requires x2 == PairPlus(PairPlus(r3, r4), r5) && x3 == PairPlus(PairPlus(r4, r5), r6) && x4 == PairPlus(PairPlus(r5, r6), r7)
    requires x5 == PairPlus(PairPlus(r6, r7), r8) && x6 == PairPlus(PairPlus(r7, r8), r9)
    requires y1 == PairPlus(PairPlus(x2, x3), x4) && y2 == PairPlus(PairPlus(x3, x4), x5) && y3 == PairPlus(PairPlus(x4, x5), x6)
    requires z == PairPlus(PairPlus(y1, y2), y3)
    ensures z == Grouped(r3, r4, r5, r6, r7, r8, r9)
  {
  }

  /** The table-weighted recursion counts exactly the universes of rolling each die separately. */
  lemma {:induction false} WinsCountsRolls(s: GameState)
    ensures Wins(s) == RefWins(s)
    decreases Remaining(s)
  {
    if Playing(s) {
      forall t | 3 <= t <= 9
        ensures Wins(Advance(s, t)) == RefWins(Advance(s, t))
      {
        WinsCountsRolls(Advance(s, t));
      }
      RollSplitGroups(s);
      WinsUpToGroups(s);
    }
  }

  /** The table-weighted sum written out over the seven totals. */
  lemma WinsUpToGroups(s: GameState)
    requires Playing(s)
    ensures WinsUpTo(s, 7) == Grouped(Wins(Advance(s, 3)), Wins(Advance(s, 4)), Wins(Advance(s, 5)),
      Wins(Advance(s, 6)), Wins(Advance(s, 7)), Wins(Advance(s, 8)), Wins(Advance(s, 9)))
  {
    hide Wins, Advance, PairPlus, PairTimes;
    assert WinsUpTo(s, 1) == PairPlus(WinsUpTo(s, 0), PairTimes(Wins(Advance(s, 3)), 1));
    assert WinsUpTo(s, 2) == PairPlus(WinsUpTo(s, 1), PairTimes(Wins(Advance(s, 4)), 3));
    assert WinsUpTo(s, 3) == PairPlus(WinsUpTo(s, 2), PairTimes(Wins(Advance(s, 5)), 6));
    assert WinsUpTo(s, 4) == PairPlus(WinsUpTo(s, 3), PairTimes(Wins(Advance(s, 6)), 7));
    assert WinsUpTo(s, 5) == PairPlus(WinsUpTo(s, 4), PairTimes(Wins(Advance(s, 7)), 6));
    assert WinsUpTo(s, 6) == PairPlus(WinsUpTo(s, 5), PairTimes(Wins(Advance(s, 8)), 3));
  }

  /** The memo table of `solve_recursive`. */
  class WinCache {
    var entries: map<GameState, (nat, nat)>

    /** Every cached result is the recursive result for its state. */
    predicate Valid()
      reads this
    {
      forall s :: s in entries ==> entries[s] == Wins(s)
    }

    constructor ()
      ensures entries == map[] && Valid()
    {
      entries := map[];
    }
  }

  /** The move inside the loop of `solve_recursive`: the cloned state, moved by `total`. */
  method Move(state: GameState, total: nat) returns (next: GameState)
    ensures next == Advance(state, total)
  {
    var p: nat := state.positions.Get(state.turn) + total;
    ghost var moved := p;
    while p > 10
      invariant WrapTen(p) == WrapTen(moved)
    {
      p := p - 10;
    }
    next := GameState(state.positions.Set(state.turn, p), state.scores.Set(state.turn, state.scores.Get(state.turn) + p), (state.turn + 1) % 2);
  }

  /** `solve_recursive`, reading and filling the cache. */
  method SolveRecursive(state: GameState, cache: WinCache) returns (result: (nat, nat))
    modifies cache
    requires cache.Valid()
    ensures cache.Valid() && old(cache.entries).Keys <= cache.entries.Keys
    ensures result == Wins(state)
    decreases Remaining(state), 0
  {
    if state.scores.Get(0) >= 21 {
      return (1, 0);
    }
    if state.scores.Get(1) >= 21 {
      return (0, 1);
    }
    assert Wins(state) == WinsUpTo(state, 7) && WinsUpTo(state, 0) == (0, 0);
    hide WinsUpTo;
    var accumulated := (0, 0);
    for k := 0 to 7
      invariant cache.Valid() && old(cache.entries).Keys <= cache.entries.Keys
      invariant accumulated == WinsUpTo(state, k)
    {
      var (total, frequency) := Entry(k);
      var next := Move(state, total);
      WinsUpToNext(state, k);
      var wins := CachedWins(next, cache);
      accumulated := (accumulated.0 + wins.0 * frequency, accumulated.1 + wins.1 * frequency);
    }
    result := accumulated;
  }

  /** The cache lookup in `solve_recursive`'s loop: a miss recurses and stores what it found. */
  method CachedWins(next: GameState, cache: WinCache) returns (wins: (nat, nat))
    modifies cache
    requires cache.Valid()
    ensures cache.Valid() && old(cache.entries).Keys <= cache.entries.Keys
    ensures wins == Wins(next)
    decreases Remaining(next), 1
  {
    if next in cache.entries {
      wins := cache.entries[next];
    } else {
      wins := SolveRecursive(next, cache);
      cache.entries := cache.entries[next := wins];
    }
  }

  /** `solution_b`: the larger of the two win counts from the start. */
  method SolutionB(p1: nat, p2: nat) returns (answer: nat)
    ensures var w := Wins(GameState(Pair(p1, p2), Pair(0, 0), 0));
      answer >= w.0 && answer >= w.1 && (answer == w.0 || answer == w.1)
  {
    var cache := new WinCache();
    var wins := SolveRecursive(GameState(Pair(p1, p2), Pair(0, 0), 0), cache);
    answer := if wins.0 >= wins.1 then wins.0 else wins.1;
  }
}

/**
 * The practice game from positions 1 and 1, followed round by round to its
 * last round.
 */
module DiracDicePractice {
  import opened DiracDice

  // From positions 1 and 1 the move of player 1 in round k is 6, 4, 2, 0, 8
  // spaces modulo 10 by k modulo 5, and that of player 2 is 5, 3, 1, 9, 7 by k
  // modulo 5, so every round's end state follows from k modulo 5 and 10.

  /** Player 1's space after k rounds from space 1, by k modulo 5. */
  const FirstSpaces: seq<nat> := [1, 7, 1, 3, 3]
  /** Player 1's score after k rounds, by k modulo 5, beyond 15 per five rounds. */
  const FirstScores: seq<nat> := [0, 7, 8, 11, 14]
  /** Player 2's space after k rounds from space 1, by k modulo 10. */
  const SecondSpaces: seq<nat> := [1, 6, 9, 10, 9, 6, 1, 4, 5, 4]
  /** Player 2's score after k rounds, by k modulo 10, beyond 55 per ten rounds. */
  const SecondScores: seq<nat> := [0, 6, 15, 25, 34, 40, 41, 45, 50, 54]

  /** The state after k full rounds from positions 1 and 1. */
  function AfterRounds(k: nat): Practice {
    Practice(Pair(FirstSpaces[k % 5], SecondSpaces[k % 10]),
             Pair(15 * (k / 5) + FirstScores[k % 5], 55 * (k / 10) + SecondScores[k % 10]),
             (6 * k) % 100 + 1, 6 * k)
  }

  /** Adding tens does not change the last digit. */
  lemma ModTenShift(x: int, t: int)
    ensures (x + 10 * t) % 10 == x % 10
  {
  }

  /** Quotient and remainder by 5 are unique. */
  lemma DivModFive(x: int, q: int, r: int)
    requires x == 5 * q + r && 0 <= r < 5
    ensures x % 5 == r && x / 5 == q
  {
  }

  /** Quotient and remainder by 10 are unique. */
  lemma DivModTen(x: int, q: int, r: int)
    requires x == 10 * q + r && 0 <= r < 10
    ensures x % 10 == r && x / 10 == q
  {
  }

  /** Player 1's table: from the space for round j, a move of 3 * (6 * j + 2) lands on the next one. */
  lemma FirstTable(j: nat)
    requires j < 5
    ensures (FirstSpaces[j] + 18 * j + 5) % 10 + 1 == FirstSpaces[(j + 1) % 5]
  {
  }

  /** Player 2's table: from the space for round m, a move of 3 * (6 * m + 5) lands on the next one. */
  lemma SecondTable(m: nat)
    requires m < 10
    ensures (SecondSpaces[m] + 18 * m + 14) % 10 + 1 == SecondSpaces[(m + 1) % 10]
  {
  }

  /** The die face before player 1's turn in round k ends in the digit of 6 * (k % 5). */
  lemma {:induction false} FirstDie(k: nat) returns (t: int)
    ensures (6 * k) % 100 == 6 * (k % 5) + 10 * t
  {
    var q, a := k / 5, (6 * k) / 100;
    assert k == 5 * q + k % 5 && 6 * k == 100 * a + (6 * k) % 100;
    t := 3 * q - 10 * a;
  }

  /** The die face before player 2's turn in round k ends in the digit of 6 * (k % 10) + 3. */
  lemma {:induction false} SecondDie(k: nat) returns (t: int)
    ensures (6 * k + 3) % 100 == 6 * (k % 10) + 3 + 10 * t
  {
    var q, a := k / 10, (6 * k + 3) / 100;
    assert k == 10 * q + k % 10 && 6 * k + 3 == 100 * a + (6 * k + 3) % 100;
    t := 6 * q - 10 * a;
  }

  /** Player 1's move in round k lands on the space of the table for k + 1. */
  lemma {:induction false} FirstWrap(k: nat)
    ensures WrapTen(FirstSpaces[k % 5] + 3 * ((6 * k) % 100 + 2)) == FirstSpaces[(k + 1) % 5]
  {
    var j, q := k % 5, k / 5;
    var t := FirstDie(k);
    var p := FirstSpaces[j] + 3 * ((6 * k) % 100 + 2);
    WrapTenMod(p);
    ModTenShift(FirstSpaces[j] + 18 * j + 5, 3 * t);
    assert p - 1 == FirstSpaces[j] + 18 * j + 5 + 10 * (3 * t);
    FirstTable(j);
    if j < 4 {
      DivModFive(k + 1, q, j + 1);
    } else {
      DivModFive(k + 1, q + 1, 0);
    }
  }

  /** Player 2's move in round k lands on the space of the table for k + 1. */
  lemma {:induction false} SecondWrap(k: nat)
    ensures WrapTen(SecondSpaces[k % 10] + 3 * ((6 * k + 3) % 100 + 2)) == SecondSpaces[(k + 1) % 10]
  {
    var m, q := k % 10, k / 10;
    var t := SecondDie(k);
    var p := SecondSpaces[m] + 3 * ((6 * k + 3) % 100 + 2);
    WrapTenMod(p);
    ModTenShift(SecondSpaces[m] + 18 * m + 14, 3 * t);
    assert p - 1 == SecondSpaces[m] + 18 * m + 14 + 10 * (3 * t);
    SecondTable(m);
    if m < 9 {
      DivModTen(k + 1, q, m + 1);
    } else {
      DivModTen(k + 1, q + 1, 0);
    }
  }

  /** Player 1's score after k + 1 rounds is that after k rounds plus the space landed on. */
  lemma {:induction false} FirstScore(k: nat)
    ensures 15 * ((k + 1) / 5) + FirstScores[(k + 1) % 5] == 15 * (k / 5) + FirstScores[k % 5] + FirstSpaces[(k + 1) % 5]
  {
    var j, q := k % 5, k / 5;
    if j < 4 {
      DivModFive(k + 1, q, j + 1);
    } else {
      DivModFive(k + 1, q + 1, 0);
    }
  }

  /** Player 2's score after k + 1 rounds is that after k rounds plus the space landed on. */
  lemma {:induction false} SecondScore(k: nat)
    ensures 55 * ((k + 1) / 10) + SecondScores[(k + 1) % 10] == 55 * (k / 10) + SecondScores[k % 10] + SecondSpaces[(k + 1) % 10]
  {
    var m, q := k % 10, k / 10;
    if m < 9 {
      DivModTen(k + 1, q, m + 1);
    } else {
      DivModTen(k + 1, q + 1, 0);
    }
  }

  /** The state after player 1's turn of round k + 1. */
  function HalfRound(k: nat): Practice {
    var e := AfterRounds(k + 1);
    Practice(Pair(e.positions.first, SecondSpaces[k % 10]), Pair(e.scores.first, 55 * (k / 10) + SecondScores[k % 10]),
             (6 * k + 3) % 100 + 1, 6 * k + 3)
  }

  /** Player 1's turn from the state after k rounds. */
  lemma {:induction false} FirstTurn(k: nat)
    ensures Turn(AfterRounds(k), 0) == HalfRound(k)
  {
    FirstWrap(k);
    FirstScore(k);
    ThreeRolls(6 * k);
    hide WrapTen;
    assert AfterRounds(k).positions.Get(0) + 3 * (AfterRounds(k).die + 1) == FirstSpaces[k % 5] + 3 * ((6 * k) % 100 + 2);
  }

  /** Player 2's turn completes round k + 1. */
  lemma {:induction false} SecondTurn(k: nat)
    ensures Turn(HalfRound(k), 1) == AfterRounds(k + 1)
  {
    SecondWrap(k);
    SecondScore(k);
    ThreeRolls(6 * k + 3);
    hide WrapTen;
    assert HalfRound(k).positions.Get(1) + 3 * (HalfRound(k).die + 1) == SecondSpaces[k % 10] + 3 * ((6 * k + 3) % 100 + 2);
  }

  /** One round from the state after k rounds gives the state after k + 1 rounds. */
  lemma {:induction false} RoundStep(k: nat)
    ensures Turn(Turn(AfterRounds(k), 0), 1) == AfterRounds(k + 1)
  {
    FirstTurn(k);
    SecondTurn(k);
  }

  /** Up to round 181 neither player has reached 1000. */
  lemma {:induction false} ScoresBelow(n: nat)
    requires n <= 181
    ensures AfterRounds(n).scores.first < 1000 && AfterRounds(n).scores.second < 1000
  {
    var q, m := n / 10, n % 10;
    DivModTen(n, q, m);
    assert 15 * (n / 5) + FirstScores[n % 5] <= 15 * 36 + 14;
    if q < 18 {
      assert SecondScores[m] <= 54;
    } else {
      assert m <= 1 && SecondScores[m] <= 6;
    }
  }

  /** A round in which nobody reaches 1000 leaves the rest of the game to the state after it. */
  lemma PlayRound(s: Practice)
    requires Turn(s, 0).scores.Get(0) < 1000 && Turn(Turn(s, 0), 1).scores.Get(1) < 1000
    ensures Play(s) == Play(Turn(Turn(s, 0), 1))
  {
  }

  /** The game from the state after k rounds is the game from the state after any later round n up to 181. */
  lemma {:induction false} SkipRounds(k: nat, n: nat)
    requires k <= n <= 181
    ensures Play(AfterRounds(k)) == Play(AfterRounds(n))
    decreases n - k
  {
    if k < n {
      RoundStep(k);
      ScoresBelow(k + 1);
      FirstTurn(k);
      assert Turn(AfterRounds(k), 0).scores.Get(0) < 1000;
      assert Turn(Turn(AfterRounds(k), 0), 1).scores.Get(1) < 1000;
      hide *;
      PlayRound(AfterRounds(k));
      SkipRounds(k + 1, n);
    }
  }

  /**
   * The game from positions 1 and 1: after 181 rounds player 1 moves to 548,
   * then player 2 reaches 1005 after 1092 rolls.
   */
  lemma LastRoundFromOneOne()
    ensures var e := Play(Start(1, 1));
      && e == Practice(Pair(1, 9), Pair(548, 1005), 93, 1092)
      && AnswerAsWritten(e) == 1097460 && Answer(e) == 598416
  {
    var s0 := Practice(Pair(7, 6), Pair(547, 996), 87, 1086);
    assert Start(1, 1) == AfterRounds(0) && AfterRounds(181) == s0;
    SkipRounds(0, 181);
    WrapTenLaps(1, 27);
    var s1 := Turn(s0, 0);
    assert s1 == Practice(Pair(1, 6), Pair(548, 996), 90, 1089);
    WrapTenLaps(9, 27);
    var s2 := Turn(s1, 1);
    assert s2 == Practice(Pair(1, 9), Pair(548, 1005), 93, 1092);
    assert Play(s0) == s2;
  }
}

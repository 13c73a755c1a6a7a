/**
 * Giant squid bingo (day04.rs). A board is passed and returned by value in the
 * source (`call_number` takes `mut self` and returns it), so it is a datatype
 * here and `call_number` a function from old board to new board.
 */
module Bingo {

  datatype Option<T> = None | Some(value: T)

  /** `BingoBoard`: 25 numbers row by row with their marks, the count of calls taken and the last number called. */
  datatype Board = Board(numbers: seq<nat>, marked: seq<bool>, numbersCalled: nat, lastCalled: nat)

  predicate WellFormed(b: Board) {
    |b.numbers| == 25 && |b.marked| == 25
  }

  /** `BingoBoard::new`: exactly 25 numbers (else `try_into` fails), all unmarked, both counters 0. */
  function New(input: seq<nat>): (b: Board)
    requires |input| == 25
    ensures WellFormed(b) && b.numbers == input
    ensures forall i :: 0 <= i < 25 ==> !b.marked[i]
    ensures b.numbersCalled == 0 && b.lastCalled == 0
  {
    Board(input, seq(25, _ => false), 0, 0)
  }

  /** The cells of row `r`: 5r to 5r+4. */
  function RowCells(r: nat): seq<nat> {
    [5 * r, 5 * r + 1, 5 * r + 2, 5 * r + 3, 5 * r + 4]
  }

  /** The cells of column `c`: c, c+5, ..., c+20. */
  function ColCells(c: nat): seq<nat> {
    [c, 5 + c, 10 + c, 15 + c, 20 + c]
  }

  predicate AllMarked(m: seq<bool>, cells: seq<nat>)
    requires forall k :: 0 <= k < |cells| ==> cells[k] < |m|
  {
    forall k :: 0 <= k < |cells| ==> m[cells[k]]
  }

  /** Row `r` is fully marked. */
  predicate RowFull(m: seq<bool>, r: nat)
    requires |m| == 25 && r < 5
  {
    AllMarked(m, RowCells(r))
  }

  /** Column `c` is fully marked. */
  predicate ColFull(m: seq<bool>, c: nat)
    requires |m| == 25 && c < 5
  {
    AllMarked(m, ColCells(c))
  }

  /** A board has bingo when some row or some column is fully marked. */
  predicate Bingo(m: seq<bool>)
    requires |m| == 25
  {
    (exists r :: 0 <= r < 5 && RowFull(m, r)) || (exists c :: 0 <= c < 5 && ColFull(m, c))
  }

  /** The count of marked cells among five, as `filter(marked).count()` computes it. */
  function CountMarked(m: seq<bool>, cells: seq<nat>): (n: nat)
    requires forall k :: 0 <= k < |cells| ==> cells[k] < |m|
    ensures n <= |cells|
    ensures n == |cells| <==> AllMarked(m, cells)
  {
    if cells == [] then 0
    else CountMarked(m, cells[1..]) + (if m[cells[0]] then 1 else 0)
  }

  /** `has_bingo`: scan the five rows, then the five columns, for a count of five marks. */
  method HasBingo(b: Board) returns (bingo: bool)
    requires WellFormed(b)
    ensures bingo == Bingo(b.marked)
  {
    var m := b.marked;
    for i := 0 to 5
      invariant forall r :: 0 <= r < i ==> !RowFull(m, r)
    {
      if CountMarked(m, RowCells(i)) == 5 {
        assert RowFull(m, i);
        return true;
      }
    }
    for i := 0 to 5
      invariant forall c :: 0 <= c < i ==> !ColFull(m, c)
    {
      if CountMarked(m, ColCells(i)) == 5 {
        assert ColFull(m, i);
        return true;
      }
    }
    return false;
  }

  /** The first position holding `n`, if any. */
  function FirstIndex(numbers: seq<nat>, n: nat): (r: Option<nat>)
    ensures r.Some? ==> r.value < |numbers| && numbers[r.value] == n && forall j :: 0 <= j < r.value ==> numbers[j] != n
    ensures r.None? <==> n !in numbers
  {
    if numbers == [] then None
    else if numbers[0] == n then Some(0)
    else
      match FirstIndex(numbers[1..], n)
      case None => None
      case Some(i) => Some(i + 1)
  }

  /**
   * `call_number`: a board with bingo comes back unchanged; otherwise the first
   * cell holding `n` (if any) is marked, one more call is counted, and `n`
   * becomes the last number called.
   */
  function CallNumber(b: Board, n: nat): (r: Board)
    requires WellFormed(b)
    ensures WellFormed(r) && r.numbers == b.numbers
    ensures Bingo(b.marked) ==> r == b
    ensures !Bingo(b.marked) ==> r.numbersCalled == b.numbersCalled + 1 && r.lastCalled == n
    ensures !Bingo(b.marked) ==>
              forall i :: 0 <= i < 25 ==> (r.marked[i] <==> b.marked[i] || FirstIndex(b.numbers, n) == Some(i))
  {
    if Bingo(b.marked) then b
    else
      var marked := match FirstIndex(b.numbers, n) case None => b.marked case Some(pos) => b.marked[pos := true];
      Board(b.numbers, marked, b.numbersCalled + 1, n)
  }

  /** Marks are only ever set, never cleared. */
  lemma MarksStay(b: Board, n: nat)
    requires WellFormed(b)
    ensures forall i :: 0 <= i < 25 && b.marked[i] ==> CallNumber(b, n).marked[i]
    ensures Bingo(b.marked) ==> Bingo(CallNumber(b, n).marked)
  {
  }

  /** A board after a list of calls. */
  function CallAll(b: Board, ns: seq<nat>): (r: Board)
    requires WellFormed(b)
    ensures WellFormed(r) && r.numbers == b.numbers
  {
    if ns == [] then b else CallNumber(CallAll(b, ns[..|ns| - 1]), ns[|ns| - 1])
  }

  /**
   * Once a board has bingo every further call leaves it as it is, so its
   * `numbers_called` freezes at the call that won it; before that, each call counts.
   */
  lemma {:induction false} BingoFreezes(b: Board, ns: seq<nat>)
    requires WellFormed(b) && Bingo(b.marked)
    ensures CallAll(b, ns) == b
  {
    if ns != [] {
      BingoFreezes(b, ns[..|ns| - 1]);
    }
  }

  lemma {:induction false} CallsCounted(b: Board, ns: seq<nat>)
    requires WellFormed(b)
    requires forall k :: 0 <= k < |ns| ==> !Bingo(CallAll(b, ns[..k]).marked)
    ensures CallAll(b, ns).numbersCalled == b.numbersCalled + |ns|
  {
    if ns != [] {
      var init := ns[..|ns| - 1];
      forall k | 0 <= k < |init| ensures !Bingo(CallAll(b, init[..k]).marked) {
        assert init[..k] == ns[..k];
      }
      CallsCounted(b, init);
      assert ns[..|ns| - 1] == init;
    }
  }

  /** The sum of the unmarked numbers. */
  function SumUnmarked(numbers: seq<nat>, marked: seq<bool>): nat
    requires |numbers| == |marked|
  {
    if numbers == [] then 0
    else SumUnmarked(numbers[1..], marked[1..]) + (if marked[0] then 0 else numbers[0])
  }

  function Sum(numbers: seq<nat>): nat {
    if numbers == [] then 0 else Sum(numbers[1..]) + numbers[0]
  }

  /** Unmarked numbers add up to no more than the whole board, and to all of it when nothing is marked. */
  lemma {:induction false} SumUnmarkedBound(numbers: seq<nat>, marked: seq<bool>)
    requires |numbers| == |marked|
    ensures SumUnmarked(numbers, marked) <= Sum(numbers)
    ensures (forall i :: 0 <= i < |marked| ==> !marked[i]) ==> SumUnmarked(numbers, marked) == Sum(numbers)
  {
    if numbers != [] {
      SumUnmarkedBound(numbers[1..], marked[1..]);
    }
  }

  /** `get_score`: None without bingo, otherwise the sum of the unmarked numbers times the given number. */
  function GetScore(b: Board, lastCalled: nat): (r: Option<nat>)
    requires WellFormed(b)
    ensures r.None? <==> !Bingo(b.marked)
    ensures r.Some? ==> r.value == SumUnmarked(b.numbers, b.marked) * lastCalled
  {
    if !Bingo(b.marked) then None else Some(SumUnmarked(b.numbers, b.marked) * lastCalled)
  }

  predicate AllWellFormed(boards: seq<Board>) {
    forall i :: 0 <= i < |boards| ==> WellFormed(boards[i])
  }

  /** One call on every board, in order. */
  function Round(boards: seq<Board>, n: nat): (r: seq<Board>)
    requires AllWellFormed(boards)
    ensures |r| == |boards| && AllWellFormed(r)
    ensures forall i :: 0 <= i < |r| ==> r[i] == CallNumber(boards[i], n)
  {
    seq(|boards|, i requires 0 <= i < |boards| => CallNumber(boards[i], n))
  }

  /** Every board after a list of calls. */
  function Rounds(boards: seq<Board>, ns: seq<nat>): (r: seq<Board>)
    requires AllWellFormed(boards)
    ensures |r| == |boards| && AllWellFormed(r)
  {
    if ns == [] then boards else Round(Rounds(boards, ns[..|ns| - 1]), ns[|ns| - 1])
  }

  /** Every board in `Rounds` is that board after the same calls. */
  lemma {:induction false} RoundsAreCalls(boards: seq<Board>, ns: seq<nat>, i: nat)
    requires AllWellFormed(boards) && i < |boards|
    ensures Rounds(boards, ns)[i] == CallAll(boards[i], ns)
  {
    if ns != [] {
      RoundsAreCalls(boards, ns[..|ns| - 1], i);
    }
  }

  /** The first score among the boards: the score of the first board with bingo. */
  function FirstScore(boards: seq<Board>, n: nat): (r: Option<nat>)
    requires AllWellFormed(boards)
    ensures r.None? <==> forall i :: 0 <= i < |boards| ==> !Bingo(boards[i].marked)
    ensures r.Some? ==> exists i :: 0 <= i < |boards| && Bingo(boards[i].marked) &&
                           (forall j :: 0 <= j < i ==> !Bingo(boards[j].marked)) &&
                           r.value == SumUnmarked(boards[i].numbers, boards[i].marked) * n
  {
    if boards == [] then None
    else if Bingo(boards[0].marked) then GetScore(boards[0], n)
    else
      var r := FirstScore(boards[1..], n);
      assert forall i :: 1 <= i < |boards| ==> boards[i] == boards[1..][i - 1];
      r
  }

  predicate AnyBingo(boards: seq<Board>)
    requires AllWellFormed(boards)
  {
    exists i :: 0 <= i < |boards| && Bingo(boards[i].marked)
  }

  /**
   * `solution_a`: call the numbers on every board in turn and stop at the first
   * call after which some board has bingo, scoring the first such board with
   * that number. Running out of numbers is unreachable.
   */
  method SolutionA(numbers: seq<nat>, boards: seq<Board>) returns (score: nat, ghost k: nat)
    requires AllWellFormed(boards) && !AnyBingo(boards)
    requires exists j :: 0 < j <= |numbers| && AnyBingo(Rounds(boards, numbers[..j]))
    ensures 0 < k <= |numbers| && AnyBingo(Rounds(boards, numbers[..k]))
    ensures NoBingoBefore(boards, numbers, k)
    ensures FirstScore(Rounds(boards, numbers[..k]), numbers[k - 1]) == Some(score)
  {
    var bs := boards;
    for i := 0 to |numbers|
      invariant bs == Rounds(boards, numbers[..i])
      invariant NoBingoBefore(boards, numbers, i + 1)
    {
      var n := numbers[i];
      assert numbers[..i + 1][..i] == numbers[..i];
      bs := Round(bs, n);
      assert bs == Rounds(boards, numbers[..i + 1]);
      var first := FirstScore(bs, n);
      if first.Some? {
        return first.value, i + 1;
      }
      assert !AnyBingo(bs);
      assert NoBingoBefore(boards, numbers, i + 2);
    }
    assert false;
  }

  /** No board has bingo after any of the first `k - 1` calls. */
  ghost predicate NoBingoBefore(boards: seq<Board>, numbers: seq<nat>, k: nat)
    requires AllWellFormed(boards)
  {
    forall j :: 0 <= j < k && j <= |numbers| ==> !AnyBingo(Rounds(boards, numbers[..j]))
  }

  /** The position of the board that wins last: the greatest `numbers_called`, the later board on a tie. */
  function LastToWin(boards: seq<Board>): (w: nat)
    requires boards != []
    ensures w < |boards|
    ensures forall j :: 0 <= j < |boards| ==> boards[j].numbersCalled <= boards[w].numbersCalled
    ensures forall j :: w < j < |boards| ==> boards[j].numbersCalled < boards[w].numbersCalled
  {
    if |boards| == 1 then 0
    else
      var w := LastToWin(boards[..|boards| - 1]);
      if boards[|boards| - 1].numbersCalled >= boards[w].numbersCalled then |boards| - 1 else w
  }

  /**
   * `solution_b`: call every number on every board, take the last board of a
   * stable sort by `numbers_called` and score it with its own last number;
   * the `unwrap` needs that board to have bingo.
   */
  method SolutionB(numbers: seq<nat>, boards: seq<Board>) returns (score: nat)
    requires AllWellFormed(boards) && boards != []
    requires Bingo(Rounds(boards, numbers)[LastToWin(Rounds(boards, numbers))].marked)
    ensures var final := Rounds(boards, numbers);
            var w := final[LastToWin(final)];
            score == SumUnmarked(w.numbers, w.marked) * w.lastCalled
  {
    var bs := PlayAll(numbers, boards);
    var last := FindLastToWin(bs);
    var winner := bs[last];
    score := GetScore(winner, winner.lastCalled).value;
  }

  /** The first loop of `solution_b`: every number is called on every board. */
  method PlayAll(numbers: seq<nat>, boards: seq<Board>) returns (bs: seq<Board>)
    requires AllWellFormed(boards)
    ensures bs == Rounds(boards, numbers)
  {
    bs := boards;
    for i := 0 to |numbers|
      invariant bs == Rounds(boards, numbers[..i])
    {
      assert numbers[..i + 1][..i] == numbers[..i];
      bs := Round(bs, numbers[i]);
    }
    assert numbers[..|numbers|] == numbers;
  }

  /** The stable sort by `numbers_called` followed by `last()`: the later of the boards that called the most numbers. */
  method FindLastToWin(bs: seq<Board>) returns (last: nat)
    requires bs != []
    ensures last == LastToWin(bs)
  {
    last := 0;
    for k := 1 to |bs|
      invariant last < k && last == LastToWin(bs[..k])
    {
      assert bs[..k + 1][..k] == bs[..k];
      if bs[k].numbersCalled >= bs[last].numbersCalled {
        last := k;
      }
    }
    assert bs[..|bs|] == bs;
  }
}

/*
 * Trench map (day 20): image enhancement of an infinite image.
 *
 * The image is a finite window of rows; every pixel off the window has the
 * colour `outside`. A step pads the window by one pixel of `outside` on every
 * side and replaces each pixel by the template entry indexed by its 3x3
 * neighbourhood, read as nine bits. The proved partner: the window, read
 * with its `outside` colour, is exactly the enhanced infinite image.
 */
module TrenchMap {

  // ---------------------------------------------------------------------------
  // Reading pixels, of a window or of an enhanced image.

  /**
   * An image defined everywhere: a window of rows with a colour for all
   * pixels off it, or the enhancement of an image by a template.
   */
  datatype View = Window(rows: seq<seq<bool>>, outside: bool) | Enhance(reference: seq<bool>, of: View)

  /** `get_pixel`: inside the window its pixel, anywhere else (negative coordinates too) the outside colour. */
  function Pixel(rows: seq<seq<bool>>, outside: bool, r: int, c: int): bool {
    if 0 <= r < |rows| && 0 <= c < |rows[r]| then rows[r][c] else outside
  }

  /** The neighbourhood offsets, in the order their bits are weighted: position `p` weighs `2^p`. */
  const Offsets: seq<(int, int)> := [(1, 1), (1, 0), (1, -1), (0, 1), (0, 0), (0, -1), (-1, 1), (-1, 0), (-1, -1)]

  function Pow2(n: nat): (r: nat)
    ensures r >= 1
  {
    if n == 0 then 1 else 2 * Pow2(n - 1)
  }

  /** The colour of a view at `(r, c)`. A template too short for an index counts as unlit there. */
  function Value(v: View, r: int, c: int): bool
    decreases v, 0
  {
    match v
    case Window(rows, outside) => Pixel(rows, outside, r, c)
    case Enhance(reference, u) =>
      var i := IndexOf(u, r, c, 9);
      if i < |reference| then reference[i] else false
  }

  /** The bits of the first `k` neighbourhood positions around `(r, c)`. */
  function IndexOf(v: View, r: int, c: int, k: nat): (i: nat)
    requires k <= 9
    ensures i < Pow2(k)
    decreases v, 2, k
  {
    if k == 0 then 0
    else IndexOf(v, r, c, k - 1) + (if Bit(v, r, c, k - 1) then Pow2(k - 1) else 0)
  }

  /** The neighbour at position `p` around `(r, c)`. */
  function Bit(v: View, r: int, c: int, p: nat): bool
    requires p < 9
    decreases v, 1
  {
    Value(v, r + Offsets[p].0, c + Offsets[p].1)
  }

  /** A neighbourhood index is below 512. */
  lemma IndexBound(v: View, r: int, c: int)
    ensures IndexOf(v, r, c, 9) < 512
  {
    assert Pow2(9) == 512;
  }

  /** `k` enhancements in a row. */
  function EnhanceN(reference: seq<bool>, v: View, k: nat): View {
    if k == 0 then v else Enhance(reference, EnhanceN(reference, v, k - 1))
  }

  /** Two views that agree on a neighbourhood give it the same index. */
  lemma {:induction false} IndexAgrees(v1: View, r1: int, c1: int, v2: View, r2: int, c2: int, k: nat)
    requires k <= 9
    requires forall p :: 0 <= p < k ==> Bit(v1, r1, c1, p) == Bit(v2, r2, c2, p)
    ensures IndexOf(v1, r1, c1, k) == IndexOf(v2, r2, c2, k)
  {
    if k > 0 {
      IndexAgrees(v1, r1, c1, v2, r2, c2, k - 1);
    }
  }

  /** The index of a neighbourhood of one colour: 0 when unlit, all nine bits when lit. */
  function AllIndex(outside: bool): nat {
    if outside then 511 else 0
  }

  lemma {:induction false} IndexUniform(v: View, r: int, c: int, o: bool, k: nat)
    requires k <= 9
    requires forall p :: 0 <= p < k ==> Bit(v, r, c, p) == o
    ensures IndexOf(v, r, c, k) == if o then Pow2(k) - 1 else 0
  {
    if k > 0 {
      IndexUniform(v, r, c, o, k - 1);
    }
  }

  // ---------------------------------------------------------------------------
  // One step on the window, as the source computes it.

  /** `vec![outside; width]`. */
  function Border(width: nat, outside: bool): (b: seq<bool>)
    ensures |b| == width && forall c :: 0 <= c < width ==> b[c] == outside
  {
    seq(width, _ => outside)
  }

  /**
   * The padding of `step`: every row gets `outside` at both ends, then a
   * border row as wide as the new first row goes in front and another just
   * before the last row.
   */
  function Pad(rows: seq<seq<bool>>, outside: bool): (p: seq<seq<bool>>)
    requires |rows| >= 1
    ensures |p| == |rows| + 2 && |p[0]| == |rows[0]| + 2
  {
    var padded := seq(|rows|, r requires 0 <= r < |rows| => [outside] + rows[r] + [outside]);
    var border := Border(|rows[0]| + 2, outside);
    [border] + padded[..|rows| - 1] + [border] + padded[|rows| - 1..]
  }

  /** The recomputed image: every pixel of the padded window, as wide as its first row, from its neighbourhood. */
  function Recompute(reference: seq<bool>, p: seq<seq<bool>>, outside: bool): seq<seq<bool>>
    requires |reference| >= 512 && |p| >= 1
  {
    seq(|p|, r requires 0 <= r < |p| =>
      seq(|p[0]|, c requires 0 <= c < |p[0]| =>
        IndexBound(Window(p, outside), r, c);
        reference[IndexOf(Window(p, outside), r, c, 9)]))
  }

  function StepImage(reference: seq<bool>, rows: seq<seq<bool>>, outside: bool): seq<seq<bool>>
    requires |reference| >= 512 && |rows| >= 1
  {
    Recompute(reference, Pad(rows, outside), outside)
  }

  /** The outside colour after a step: it flips when an all-unlit neighbourhood lights up. */
  function NextOutside(reference: seq<bool>, outside: bool): bool
    requires |reference| >= 1
  {
    if reference[0] then !outside else outside
  }

  /** `n` steps from a window. */
  function Run(reference: seq<bool>, rows: seq<seq<bool>>, outside: bool, n: nat): (r: (seq<seq<bool>>, bool))
    requires |reference| >= 512 && |rows| >= 1
    ensures |r.0| >= 1
    decreases n
  {
    if n == 0 then (rows, outside)
    else Run(reference, StepImage(reference, rows, outside), NextOutside(reference, outside), n - 1)
  }

  // ---------------------------------------------------------------------------
  // The window is the infinite image.

  /**
   * What the window needs for the padding to be a plain shift: the last row
   * (the empty row `parse` leaves, later its recomputed successor) is all
   * outside, and nothing right of the first row's width differs from outside.
   */
  predicate Framed(rows: seq<seq<bool>>, outside: bool) {
    |rows| >= 1 && AllOutside(rows[|rows| - 1], outside) &&
    (forall r, c :: 0 <= r < |rows| && |rows[0]| <= c < |rows[r]| ==> rows[r][c] == outside)
  }

  predicate AllOutside(row: seq<bool>, outside: bool) {
    forall c :: 0 <= c < |row| ==> row[c] == outside
  }

  /** An all-outside neighbourhood gives the next outside colour. */
  predicate Steady(reference: seq<bool>, outside: bool)
    requires |reference| >= 512
  {
    reference[AllIndex(outside)] == NextOutside(reference, outside)
  }

  lemma PadShift(rows: seq<seq<bool>>, outside: bool, r: int, c: int)
    requires Framed(rows, outside)
    ensures Pixel(Pad(rows, outside), outside, r, c) == Pixel(rows, outside, r - 1, c - 1)
  {
    var p := Pad(rows, outside);
    var n := |rows|;
    if 1 <= r < n {
      assert p[r] == [outside] + rows[r - 1] + [outside];
    } else if r == n + 1 {
      assert p[r] == [outside] + rows[n - 1] + [outside];
    }
  }

  /** Off the first row's width and off the rows, the window is outside. */
  lemma OffWindow(rows: seq<seq<bool>>, outside: bool, r: int, c: int)
    requires Framed(rows, outside)
    requires r < 0 || r >= |rows| - 1 || c < 0 || c >= |rows[0]|
    ensures Pixel(rows, outside, r, c) == outside
  {
    if 0 <= r < |rows| && 0 <= c < |rows[r]| && r == |rows| - 1 {
      assert rows[r][c] == outside;
    }
  }

  lemma OffNeighbour(rows: seq<seq<bool>>, outside: bool, r: int, c: int, p: nat)
    requires Framed(rows, outside) && p < 9
    requires r < 0 || r >= |rows| + 1 || c < 0 || c >= |rows[0]| + 2
    ensures Bit(Window(rows, outside), r - 1, c - 1, p) == outside
  {
    OffWindow(rows, outside, r - 1 + Offsets[p].0, c - 1 + Offsets[p].1);
  }

  /** The recomputed pixel at `(r, c)` is the enhanced pixel one row up and one column left. */
  lemma StepInside(reference: seq<bool>, rows: seq<seq<bool>>, outside: bool, r: int, c: int)
    requires |reference| >= 512 && Framed(rows, outside)
    ensures IndexOf(Window(Pad(rows, outside), outside), r, c, 9) == IndexOf(Window(rows, outside), r - 1, c - 1, 9)
  {
    forall p | 0 <= p < 9
      ensures Bit(Window(Pad(rows, outside), outside), r, c, p) == Bit(Window(rows, outside), r - 1, c - 1, p)
    {
      PadShift(rows, outside, r + Offsets[p].0, c + Offsets[p].1);
    }
    IndexAgrees(Window(Pad(rows, outside), outside), r, c, Window(rows, outside), r - 1, c - 1, 9);
  }

  /** Around a pixel two or more rows or columns off the window, every neighbour is outside. */
  lemma StepOutside(reference: seq<bool>, rows: seq<seq<bool>>, outside: bool, r: int, c: int)
    requires |reference| >= 512 && Framed(rows, outside)
    requires r < 0 || r >= |rows| + 1 || c < 0 || c >= |rows[0]| + 2
    ensures IndexOf(Window(rows, outside), r - 1, c - 1, 9) == AllIndex(outside)
  {
    var v, r0, c0 := Window(rows, outside), r - 1, c - 1;
    forall p | 0 <= p < 9
      ensures Bit(v, r0, c0, p) == outside
    {
      OffNeighbour(rows, outside, r, c, p);
    }
    IndexUniform(v, r0, c0, outside, 9);
    assert Pow2(9) == 512;
  }

  /**
   * One step is one enhancement of the infinite image, shifted by one row and
   * one column, and the new window is framed again.
   */
  lemma StepEnhances(reference: seq<bool>, rows: seq<seq<bool>>, outside: bool)
    requires |reference| >= 512 && Framed(rows, outside) && Steady(reference, outside)
    ensures Framed(StepImage(reference, rows, outside), NextOutside(reference, outside))
    ensures forall r, c :: Value(Window(StepImage(reference, rows, outside), NextOutside(reference, outside)), r, c) ==
                           Value(Enhance(reference, Window(rows, outside)), r - 1, c - 1)
  {
    var next, o' := StepImage(reference, rows, outside), NextOutside(reference, outside);
    forall r, c
      ensures Value(Window(next, o'), r, c) == Value(Enhance(reference, Window(rows, outside)), r - 1, c - 1)
    {
      IndexBound(Window(rows, outside), r - 1, c - 1);
      if 0 <= r < |next| && 0 <= c < |next[r]| {
        StepInside(reference, rows, outside, r, c);
      } else {
        StepOutside(reference, rows, outside, r, c);
      }
    }
    var last := |next| - 1;
    forall c | 0 <= c < |next[last]|
      ensures next[last][c] == o'
    {
      assert next[last][c] == Value(Window(next, o'), last, c);
      StepOutside(reference, rows, outside, last, c);
    }
  }

  /**
   * `n` steps from an unlit outside: the window is the `n`-fold enhanced
   * infinite image, shifted by `n` rows and columns. The outside colour is
   * lit exactly after an odd number of steps of a template whose entry 0 is lit.
   */
  lemma {:induction false} RunEnhances(reference: seq<bool>, rows: seq<seq<bool>>, n: nat)
    requires |reference| >= 512 && Framed(rows, false) && (reference[0] ==> !reference[511])
    ensures Run(reference, rows, false, n).1 == (reference[0] && n % 2 == 1)
    ensures Framed(Run(reference, rows, false, n).0, Run(reference, rows, false, n).1)
    ensures forall r, c :: Value(Window(Run(reference, rows, false, n).0, Run(reference, rows, false, n).1), r, c) ==
                           Value(EnhanceN(reference, Window(rows, false), n), r - n, c - n)
  {
    RunFrom(reference, rows, false, 0, n);
  }

  /** The outside colour and the frame along a run from an outside of the right parity. */
  lemma {:induction false} RunOutside(reference: seq<bool>, rows: seq<seq<bool>>, outside: bool, done: nat, n: nat)
    requires |reference| >= 512 && Framed(rows, outside) && (reference[0] ==> !reference[511])
    requires outside == (reference[0] && done % 2 == 1)
    ensures Run(reference, rows, outside, n).1 == (reference[0] && (done + n) % 2 == 1)
    ensures Framed(Run(reference, rows, outside, n).0, Run(reference, rows, outside, n).1)
    decreases n
  {
    if n > 0 {
      var next, o' := StepImage(reference, rows, outside), NextOutside(reference, outside);
      StepEnhances(reference, rows, outside);
      RunOutside(reference, next, o', done + 1, n - 1);
    }
  }

  lemma {:induction false} RunFrom(reference: seq<bool>, rows: seq<seq<bool>>, outside: bool, done: nat, n: nat)
    requires |reference| >= 512 && Framed(rows, outside) && (reference[0] ==> !reference[511])
    requires outside == (reference[0] && done % 2 == 1)
    ensures Run(reference, rows, outside, n).1 == (reference[0] && (done + n) % 2 == 1)
    ensures Framed(Run(reference, rows, outside, n).0, Run(reference, rows, outside, n).1)
    ensures forall r, c :: Value(Window(Run(reference, rows, outside, n).0, Run(reference, rows, outside, n).1), r, c) ==
                           Value(EnhanceN(reference, Window(rows, outside), n), r - n, c - n)
    decreases n
  {
    RunOutside(reference, rows, outside, done, n);
    if n > 0 {
      var next, o' := StepImage(reference, rows, outside), NextOutside(reference, outside);
      StepEnhances(reference, rows, outside);
      RunFrom(reference, next, o', done + 1, n - 1);
      var fin := Run(reference, next, o', n - 1);
      assert Run(reference, rows, outside, n) == fin;
      AgreeAfter(reference, Window(fin.0, fin.1), Window(next, o'), Window(rows, outside), n);
    }
  }

  /** A view that agrees with `k - 1` enhancements of a one-step-enhanced view agrees with `k` enhancements. */
  lemma AgreeAfter(reference: seq<bool>, w: View, v: View, u: View, k: nat)
    requires k >= 1
    requires forall x, y :: Value(w, x, y) == Value(EnhanceN(reference, v, k - 1), x - (k - 1), y - (k - 1))
    requires forall x, y :: Value(v, x, y) == Value(Enhance(reference, u), x - 1, y - 1)
    ensures forall r, c :: Value(w, r, c) == Value(EnhanceN(reference, u, k), r - k, c - k)
  {
    forall r, c
      ensures Value(w, r, c) == Value(EnhanceN(reference, u, k), r - k, c - k)
    {
      EnhanceShift(reference, v, u, k - 1, r - (k - 1), c - (k - 1));
    }
  }

  /** Enhancing two views that agree up to a shift by one keeps them in agreement. */
  lemma {:induction false} EnhanceShift(reference: seq<bool>, v: View, u: View, k: nat, r: int, c: int)
    requires forall x, y :: Value(v, x, y) == Value(Enhance(reference, u), x - 1, y - 1)
    ensures Value(EnhanceN(reference, v, k), r, c) == Value(EnhanceN(reference, u, k + 1), r - 1, c - 1)
    decreases k
  {
    if k > 0 {
      var vk, uk := EnhanceN(reference, v, k - 1), EnhanceN(reference, u, k);
      forall p | 0 <= p < 9
        ensures Bit(vk, r, c, p) == Bit(uk, r - 1, c - 1, p)
      {
        EnhanceShift(reference, v, u, k - 1, r + Offsets[p].0, c + Offsets[p].1);
      }
      IndexAgrees(vk, r, c, uk, r - 1, c - 1, 9);
    }
  }

  // ---------------------------------------------------------------------------
  // The counted answer.

  function CountRow(row: seq<bool>): nat {
    if row == [] then 0 else CountRow(row[..|row| - 1]) + (if row[|row| - 1] then 1 else 0)
  }

  function CountLit(rows: seq<seq<bool>>): nat {
    if rows == [] then 0 else CountLit(rows[..|rows| - 1]) + CountRow(rows[|rows| - 1])
  }

  /** The count of lit pixels is at most the number of pixels. */
  lemma {:induction false} CountRowBound(row: seq<bool>)
    ensures CountRow(row) <= |row|
  {
    if row != [] {
      CountRowBound(row[..|row| - 1]);
    }
  }

  // ---------------------------------------------------------------------------
  // The enhancement, updated in place.

  class ImageEnhancement {
    var reference: seq<bool>
    var outside: bool
    var image: seq<seq<bool>>

    /** `parse`: the template, and one row per image line followed by an empty row. */
    constructor Parse(template: string, lines: seq<string>)
      ensures |reference| == |template| && forall i :: 0 <= i < |template| ==> reference[i] == (template[i] == '#')
      ensures !outside
      ensures |image| == |lines| + 1 && image[|lines|] == []
      ensures forall r :: 0 <= r < |lines| ==> |image[r]| == |lines[r]| && forall c :: 0 <= c < |lines[r]| ==> image[r][c] == (lines[r][c] == '#')
    {
      reference := seq(|template|, i requires 0 <= i < |template| => template[i] == '#');
      outside := false;
      var rows: seq<seq<bool>> := [[]];
      for r := 0 to |lines|
        invariant |rows| == r + 1 && rows[r] == []
        invariant forall k :: 0 <= k < r ==> |rows[k]| == |lines[k]| && forall c :: 0 <= c < |lines[k]| ==> rows[k][c] == (lines[k][c] == '#')
      {
        var line := lines[r];
        for c := 0 to |line|
          invariant |rows| == r + 1 && |rows[r]| == c
          invariant forall k :: 0 <= k < r ==> |rows[k]| == |lines[k]| && forall j :: 0 <= j < |lines[k]| ==> rows[k][j] == (lines[k][j] == '#')
          invariant forall j :: 0 <= j < c ==> rows[r][j] == (line[j] == '#')
        {
          rows := rows[r := rows[r] + [line[c] == '#']];
        }
        rows := rows + [[]];
      }
      image := rows;
    }

    /** `get_pixel`. */
    function GetPixel(row: int, col: int): (b: bool)
      reads this
      ensures (row < 0 || col < 0 || row >= |image|) ==> b == outside
      ensures b == Value(Window(image, outside), row, col)
    {
      if row < 0 || col < 0 then outside
      else if row < |image| && col < |image[row]| then image[row][col]
      else outside
    }

    /** `next_pixel`: the template entry indexed by the nine neighbours. */
    method NextPixel(row: int, col: int) returns (p: bool)
      requires |reference| >= 512
      ensures p == reference[IndexOf(Window(image, outside), row, col, 9)]
    {
      var index := 0;
      for pos := 0 to 9
        invariant index == IndexOf(Window(image, outside), row, col, pos)
      {
        var (i, j) := Offsets[pos];
        if GetPixel(row + i, col + j) {
          index := index + Pow2(pos);
        }
      }
      IndexBound(Window(image, outside), row, col);
      p := reference[index];
    }

    /** One row of the recomputed image of `step`. */
    method RecomputedRow(row: nat) returns (line: seq<bool>)
      requires |reference| >= 512 && row < |image|
      ensures line == Recompute(reference, image, outside)[row]
    {
      line := [];
      for col := 0 to |image[0]|
        invariant |line| == col
        invariant forall c :: 0 <= c < col ==> line[c] == reference[IndexOf(Window(image, outside), row, c, 9)]
      {
        var p := NextPixel(row, col);
        line := line + [p];
      }
    }

    /** The recomputed image of `step`, read from the padded window. */
    method Recomputed() returns (next: seq<seq<bool>>)
      requires |reference| >= 512 && |image| >= 1
      ensures next == Recompute(reference, image, outside)
    {
      next := [];
      for row := 0 to |image|
        invariant |next| == row
        invariant forall r :: 0 <= r < row ==> next[r] == Recompute(reference, image, outside)[r]
      {
        var line := RecomputedRow(row);
        next := next + [line];
      }
    }

    /** `step`: pad the window, recompute every pixel, and flip the outside colour when entry 0 is lit. */
    method Step()
      modifies this
      requires |reference| >= 512 && |image| >= 1
      ensures reference == old(reference)
      ensures image == StepImage(reference, old(image), old(outside))
      ensures outside == NextOutside(reference, old(outside))
    {
      ghost var before := image;
      for row := 0 to |image|
        invariant reference == old(reference) && outside == old(outside)
        invariant |image| == |before|
        invariant forall r :: 0 <= r < row ==> image[r] == [outside] + before[r] + [outside]
        invariant forall r :: row <= r < |image| ==> image[r] == before[r]
      {
        image := image[row := image[row] + [outside]];
        image := image[row := [outside] + image[row]];
      }
      var empty := Border(|image[0]|, outside);
      image := [empty] + image;
      image := image[..|image| - 1] + [empty] + image[|image| - 1..];
      assert image == Pad(before, outside);
      var next := Recomputed();
      image := next;
      if reference[0] {
        outside := !outside;
      }
    }
  }

  /** The lit pixels of one row. */
  method CountRowPixels(row: seq<bool>) returns (count: nat)
    ensures count == CountRow(row)
  {
    count := 0;
    for c := 0 to |row|
      invariant count == CountRow(row[..c])
    {
      assert row[..c + 1][..c] == row[..c];
      if row[c] {
        count := count + 1;
      }
    }
    assert row[..|row|] == row;
  }

  /** The lit pixels of an image, row by row. */
  method CountPixels(rows: seq<seq<bool>>) returns (n: nat)
    ensures n == CountLit(rows)
  {
    n := 0;
    for r := 0 to |rows|
      invariant n == CountLit(rows[..r])
    {
      var count := CountRowPixels(rows[r]);
      assert rows[..r + 1][..r] == rows[..r];
      n := n + count;
    }
    assert rows[..|rows|] == rows;
  }

  /** The enhancement table read from its line of `#` and `.`. */
  function ReferenceOf(template: string): seq<bool> {
    seq(|template|, i requires 0 <= i < |template| => template[i] == '#')
  }

  /** The image rows as `parse` leaves them: one row per line, then an empty row. */
  function ImageOf(lines: seq<string>): seq<seq<bool>> {
    seq(|lines|, r requires 0 <= r < |lines| => seq(|lines[r]|, c requires 0 <= c < |lines[r]| => lines[r][c] == '#')) + [[]]
  }

  /** `solve`: the number of lit pixels of the window after `steps` steps. */
  method Solve(template: string, lines: seq<string>, steps: nat) returns (n: nat)
    requires |template| >= 512
    ensures n == CountLit(Run(ReferenceOf(template), ImageOf(lines), false, steps).0)
  {
    var enh := new ImageEnhancement.Parse(template, lines);
    ghost var reference := ReferenceOf(template);
    ghost var rows := ImageOf(lines);
    assert enh.reference == reference;
    assert forall r :: 0 <= r < |rows| ==> enh.image[r] == rows[r];
    assert enh.image == rows;
    for i := 0 to steps
      invariant enh.reference == reference && |enh.image| >= 1
      invariant Run(reference, enh.image, enh.outside, steps - i) == Run(reference, rows, false, steps)
    {
      enh.Step();
    }
    n := CountPixels(enh.image);
  }

  /** `solution_a`: two steps. */
  method SolutionA(template: string, lines: seq<string>) returns (n: nat)
    requires |template| >= 512
    ensures n == CountLit(Run(ReferenceOf(template), ImageOf(lines), false, 2).0)
  {
    n := Solve(template, lines, 2);
  }

  /** `solution_b`: fifty steps. */
  method SolutionB(template: string, lines: seq<string>) returns (n: nat)
    requires |template| >= 512
    ensures n == CountLit(Run(ReferenceOf(template), ImageOf(lines), false, 50).0)
  {
    n := Solve(template, lines, 50);
  }
}

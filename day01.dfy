/** Sonar sweep (day01.rs): counting depth increases, singly and over three-wide windows. */
module SonarSweep {

  /** The number of positions i >= 1 whose depth exceeds the one before: the intended answer. */
  function Increases(depths: seq<nat>): nat {
    if |depths| <= 1 then 0
    else Increases(depths[..|depths| - 1]) + (if depths[|depths| - 1] > depths[|depths| - 2] then 1 else 0)
  }

  /** What the loop of `get_depth_increases` counts: like `Increases`, but with 0 standing before the first depth. */
  function RawCount(depths: seq<nat>): nat {
    if depths == [] then 0
    else
      var prev := if |depths| == 1 then 0 else depths[|depths| - 2];
      RawCount(depths[..|depths| - 1]) + (if depths[|depths| - 1] > prev then 1 else 0)
  }

  /**
   * The loop count exceeds the intended count by exactly one when the first
   * depth is positive and equals it otherwise; so the final `- 1` is right
   * exactly when the first depth is positive.
   */
  lemma {:induction false} RawCountShift(depths: seq<nat>)
    requires depths != []
    ensures depths[0] > 0 ==> RawCount(depths) == Increases(depths) + 1
    ensures depths[0] == 0 ==> RawCount(depths) == Increases(depths)
  {
    if |depths| > 1 {
      var init := depths[..|depths| - 1];
      assert init[0] == depths[0];
      RawCountShift(init);
    }
  }

  /**
   * `get_depth_increases`: the count of depths above their predecessor (0 before
   * the first), minus one; the `u32` subtraction needs that count to be positive.
   */
  method GetDepthIncreases(depths: seq<nat>) returns (r: nat)
    requires RawCount(depths) >= 1
    ensures depths[0] > 0 ==> r == Increases(depths)
    ensures depths[0] == 0 ==> r + 1 == Increases(depths)
  {
    var count := 0;
    var prev := 0;
    for i := 0 to |depths|
      invariant count == RawCount(depths[..i])
      invariant prev == if i == 0 then 0 else depths[i - 1]
    {
      assert depths[..i + 1][..i] == depths[..i];
      if depths[i] > prev {
        count := count + 1;
      }
      prev := depths[i];
    }
    assert depths[..|depths|] == depths;
    RawCountShift(depths);
    r := count - 1;
  }

  /** One three-wide window of `solution_b`, with depths past the end taken as 0. */
  function Window(depths: seq<nat>, n: nat): nat
    requires n < |depths|
  {
    depths[n] + (if n + 1 < |depths| then depths[n + 1] else 0) + (if n + 2 < |depths| then depths[n + 2] else 0)
  }

  /** The window list of `solution_b`: one window per depth. */
  function Windows(depths: seq<nat>): (w: seq<nat>)
    ensures |w| == |depths|
  {
    seq(|depths|, n requires 0 <= n < |depths| => Window(depths, n))
  }

  /**
   * Two consecutive full windows share two depths, so the later one is larger
   * exactly when the depth it gains exceeds the depth it drops; the last window
   * is the last depth alone.
   */
  lemma WindowsCompare(depths: seq<nat>, n: nat)
    requires n + 3 < |depths|
    ensures Windows(depths)[n + 1] > Windows(depths)[n] <==> depths[n + 3] > depths[n]
    ensures Windows(depths)[|depths| - 1] == depths[|depths| - 1]
  {
  }

  /** `solution_b` counts window increases the same way as `solution_a` counts depth increases. */
  method SolutionB(depths: seq<nat>) returns (r: nat)
    requires RawCount(Windows(depths)) >= 1
    ensures Windows(depths)[0] > 0 ==> r == Increases(Windows(depths))
    ensures Windows(depths)[0] == 0 ==> r + 1 == Increases(Windows(depths))
  {
    r := GetDepthIncreases(Windows(depths));
  }
}

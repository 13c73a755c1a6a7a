/** Binary diagnostic (day03.rs): bit counts, gamma and epsilon rates, and the two filtered ratings. */
module BinaryDiagnostic {

  type Bit = b: nat | b < 2

  datatype Option<T> = None | Some(value: T)

  /** `parse_line`: each character '0' or '1' becomes that bit; any other character makes `expect` fail. */
  function ParseLine(line: string): (bits: seq<Bit>)
    requires forall i :: 0 <= i < |line| ==> line[i] == '0' || line[i] == '1'
    ensures |bits| == |line|
    ensures forall i :: 0 <= i < |line| ==> (bits[i] == 1 <==> line[i] == '1')
  {
    seq(|line|, i requires 0 <= i < |line| => if line[i] == '1' then 1 else 0)
  }

  /** `to_number`: the big-endian value of a bit list, shifting in one bit at a time. */
  function ToNumber(bits: seq<Bit>): nat {
    if bits == [] then 0 else 2 * ToNumber(bits[..|bits| - 1]) + bits[|bits| - 1]
  }

  function Pow2(n: nat): nat {
    if n == 0 then 1 else 2 * Pow2(n - 1)
  }

  /** A w-bit list has a value below 2^w. */
  lemma {:induction false} ToNumberBound(bits: seq<Bit>)
    ensures ToNumber(bits) < Pow2(|bits|)
  {
    if bits != [] {
      ToNumberBound(bits[..|bits| - 1]);
    }
  }

  /** Two bitwise-complementary lists add up to all ones: 2^w - 1. */
  lemma {:induction false} ComplementSum(a: seq<Bit>, b: seq<Bit>)
    requires |a| == |b|
    requires forall i :: 0 <= i < |a| ==> a[i] != b[i]
    ensures ToNumber(a) + ToNumber(b) == Pow2(|a|) - 1
  {
    if a != [] {
      ComplementSum(a[..|a| - 1], b[..|b| - 1]);
    }
  }

  /** The number of bit lists with a 1 at `pos` (shorter lists count as 0 there). */
  function Ones(nums: seq<seq<Bit>>, pos: nat): (n: nat)
    ensures n <= |nums|
  {
    if nums == [] then 0
    else Ones(nums[..|nums| - 1], pos) + (if pos < |nums[|nums| - 1]| then nums[|nums| - 1][pos] else 0)
  }

  /** `get_bitcount`: for every position below the width, how many inputs have a 1 there. */
  method GetBitcount(nums: seq<seq<Bit>>, width: nat) returns (bitcount: seq<nat>)
    requires forall k :: 0 <= k < |nums| ==> |nums[k]| <= width
    ensures |bitcount| == width
    ensures forall pos :: 0 <= pos < width ==> bitcount[pos] == Ones(nums, pos)
  {
    var counts := new nat[width](_ => 0);
    for k := 0 to |nums|
      invariant forall pos :: 0 <= pos < width ==> counts[pos] == Ones(nums[..k], pos)
    {
      assert nums[..k + 1][..k] == nums[..k];
      var number := nums[k];
      for position := 0 to |number|
        invariant forall pos :: 0 <= pos < width ==>
                    counts[pos] == Ones(nums[..k], pos) + (if pos < position then number[pos] else 0)
      {
        counts[position] := counts[position] + number[position];
      }
    }
    assert nums[..|nums|] == nums;
    bitcount := counts[..];
  }

  /** `get_gamma_epsilon`: gamma has a 1 exactly where the count reaches the cutoff, epsilon is its complement. */
  method GetGammaEpsilon(bitcount: seq<nat>, cutoff: nat) returns (gamma: seq<Bit>, epsilon: seq<Bit>)
    ensures |gamma| == |bitcount| && |epsilon| == |bitcount|
    ensures forall pos :: 0 <= pos < |bitcount| ==> (gamma[pos] == 1 <==> bitcount[pos] >= cutoff)
    ensures forall pos :: 0 <= pos < |bitcount| ==> gamma[pos] != epsilon[pos]
    ensures ToNumber(gamma) + ToNumber(epsilon) == Pow2(|bitcount|) - 1
  {
    var g := new Bit[|bitcount|](_ => 0);
    var e := new Bit[|bitcount|](_ => 0);
    for pos := 0 to |bitcount|
      invariant forall p :: 0 <= p < pos ==> (g[p] == 1 <==> bitcount[p] >= cutoff) && g[p] != e[p]
    {
      if bitcount[pos] < cutoff {
        g[pos] := 0;
        e[pos] := 1;
      } else {
        g[pos] := 1;
        e[pos] := 0;
      }
    }
    gamma, epsilon := g[..], e[..];
    ComplementSum(gamma, epsilon);
  }

  /**
   * `solution_a`: with cutoff `len / 2 + 1` a gamma bit is 1 exactly when ones
   * are a strict majority at that position; the answer is gamma times epsilon,
   * and the two rates add up to all ones.
   */
  method SolutionA(nums: seq<seq<Bit>>) returns (gamma: nat, epsilon: nat, answer: nat)
    requires nums != []
    requires forall k :: 0 <= k < |nums| ==> |nums[k]| <= |nums[0]|
    ensures answer == gamma * epsilon
    ensures gamma + epsilon == Pow2(|nums[0]|) - 1
    ensures exists g: seq<Bit> :: |g| == |nums[0]| && gamma == ToNumber(g) &&
              forall pos :: 0 <= pos < |g| ==> (g[pos] == 1 <==> 2 * Ones(nums, pos) > |nums|)
  {
    var width := |nums[0]|;
    var cutoff := |nums| / 2 + 1;
    var bitcount := GetBitcount(nums, width);
    var g, e := GetGammaEpsilon(bitcount, cutoff);
    gamma, epsilon := ToNumber(g), ToNumber(e);
    answer := gamma * epsilon;
  }

  /** Half the count, rounded up: the threshold of `get_most_common_bit`. */
  function Half(n: nat): nat {
    if n % 2 == 0 then n / 2 else n / 2 + 1
  }

  /** `get_most_common_bit`: 1 when the ones at `place` reach half the count rounded up, else 0. */
  function MostCommonBit(nums: seq<seq<Bit>>, place: nat): (b: Bit)
    ensures b == 1 <==> 2 * Ones(nums, place) >= |nums|
  {
    if Ones(nums, place) >= Half(|nums|) then 1 else 0
  }

  /** The loop of `get_most_common_bit`: counting the ones at `place` by hand. */
  method GetMostCommonBit(nums: seq<seq<Bit>>, place: nat) returns (b: Bit)
    requires forall k :: 0 <= k < |nums| ==> place < |nums[k]|
    ensures b == MostCommonBit(nums, place)
  {
    var bitcount := 0;
    for k := 0 to |nums|
      invariant bitcount == Ones(nums[..k], place)
    {
      assert nums[..k + 1][..k] == nums[..k];
      bitcount := bitcount + nums[k][place];
    }
    assert nums[..|nums|] == nums;
    var count := |nums|;
    var half := if count % 2 == 0 then count / 2 else count / 2 + 1;
    b := if bitcount >= half then 1 else 0;
  }

  datatype SortType = MostCommon | LeastCommon

  /** Whether one number survives a rating round. */
  predicate Keeps(sort: SortType, n: seq<Bit>, place: nat, bit: Bit)
    requires place < |n|
  {
    match sort
    case MostCommon => n[place] == bit
    case LeastCommon => n[place] != bit
  }

  predicate AllWidth(nums: seq<seq<Bit>>, w: nat) {
    forall k :: 0 <= k < |nums| ==> |nums[k]| == w
  }

  /** One rating round's filter: the numbers whose bit at `place` equals (or differs from) `bit`, in order. */
  function Keep(nums: seq<seq<Bit>>, sort: SortType, place: nat, bit: Bit, ghost w: nat): (r: seq<seq<Bit>>)
    requires AllWidth(nums, w) && place < w
    ensures AllWidth(r, w) && |r| <= |nums|
    ensures forall n :: n in r <==> n in nums && Keeps(sort, n, place, bit)
  {
    if nums == [] then []
    else
      var rest := Keep(nums[..|nums| - 1], sort, place, bit, w);
      var last := nums[|nums| - 1];
      assert forall n :: n in nums <==> n in nums[..|nums| - 1] || n == last;
      if Keeps(sort, last, place, bit) then rest + [last] else rest
  }

  /** The filter keeps each surviving number as many times as the input holds it. */
  lemma {:induction false} KeepCounts(nums: seq<seq<Bit>>, sort: SortType, place: nat, bit: Bit, w: nat)
    requires AllWidth(nums, w) && place < w
    ensures forall n :: n in nums ==>
              multiset(Keep(nums, sort, place, bit, w))[n] == if Keeps(sort, n, place, bit) then multiset(nums)[n] else 0
  {
    if nums != [] {
      var init := nums[..|nums| - 1];
      KeepCounts(init, sort, place, bit, w);
      assert nums == init + [nums[|nums| - 1]];
    }
  }

  /**
   * The surviving number of `get_rating` from round `place` on, or None where
   * the source would panic: an index past the width while several numbers
   * remain, or `numbers[0]` of an empty list.
   */
  function Rating(nums: seq<seq<Bit>>, sort: SortType, place: nat, w: nat): Option<seq<Bit>>
    requires AllWidth(nums, w) && place <= w
    decreases w - place
  {
    if nums == [] then None
    else if |nums| == 1 then Some(nums[0])
    else if place == w then None
    else Rating(Keep(nums, sort, place, MostCommonBit(nums, place), w), sort, place + 1, w)
  }

  /** A rating is always one of the input numbers. */
  lemma {:induction false} RatingIsInput(nums: seq<seq<Bit>>, sort: SortType, place: nat, w: nat)
    requires AllWidth(nums, w) && place <= w
    ensures Rating(nums, sort, place, w).Some? ==> Rating(nums, sort, place, w).value in nums
    decreases w - place
  {
    if |nums| > 1 && place < w {
      RatingIsInput(Keep(nums, sort, place, MostCommonBit(nums, place), w), sort, place + 1, w);
    }
  }

  /** Under MostCommon the kept list is never empty: the most common bit always occurs. */
  lemma MostCommonKeepsSome(nums: seq<seq<Bit>>, place: nat, w: nat)
    requires AllWidth(nums, w) && place < w && nums != []
    ensures Keep(nums, MostCommon, place, MostCommonBit(nums, place), w) != []
  {
    var bit := MostCommonBit(nums, place);
    var k := OneWithBit(nums, place, bit, w);
    assert nums[k] in Keep(nums, MostCommon, place, bit, w);
  }

  /** Some number carries the most common bit at `place`. */
  lemma {:induction false} OneWithBit(nums: seq<seq<Bit>>, place: nat, bit: Bit, w: nat) returns (k: nat)
    requires AllWidth(nums, w) && place < w && nums != []
    requires bit == 1 ==> Ones(nums, place) > 0
    requires bit == 0 ==> Ones(nums, place) < |nums|
    ensures k < |nums| && nums[k][place] == bit
  {
    var init := nums[..|nums| - 1];
    if nums[|nums| - 1][place] == bit {
      k := |nums| - 1;
    } else {
      k := OneWithBit(init, place, bit, w);
    }
  }

  predicate Distinct(nums: seq<seq<Bit>>) {
    forall i, j :: 0 <= i < j < |nums| ==> nums[i] != nums[j]
  }

  /** All survivors of `place` rounds agree on the bits already filtered. */
  predicate AgreeBelow(nums: seq<seq<Bit>>, place: nat, w: nat)
    requires AllWidth(nums, w) && place <= w
  {
    forall i, j :: 0 <= i < |nums| && 0 <= j < |nums| ==> nums[i][..place] == nums[j][..place]
  }

  /**
   * With distinct numbers of one width, the MostCommon rating never panics:
   * survivors agree on every filtered bit, so once all bits are filtered at
   * most one remains, and the list never empties.
   */
  lemma {:induction false} MostCommonRatingDefined(nums: seq<seq<Bit>>, place: nat, w: nat)
    requires AllWidth(nums, w) && place <= w && nums != []
    requires Distinct(nums) && AgreeBelow(nums, place, w)
    ensures Rating(nums, MostCommon, place, w).Some?
    decreases w - place
  {
    if |nums| > 1 {
      if place == w {
        FullyAgreed(nums, w);
        assert false;
      } else {
        var bit := MostCommonBit(nums, place);
        var kept := Keep(nums, MostCommon, place, bit, w);
        MostCommonKeepsSome(nums, place, w);
        KeepDistinct(nums, MostCommon, place, bit, w);
        forall i, j | 0 <= i < |kept| && 0 <= j < |kept| ensures kept[i][..place + 1] == kept[j][..place + 1] {
          assert kept[i] in nums && kept[j] in nums;
          var a :| 0 <= a < |nums| && nums[a] == kept[i];
          var b :| 0 <= b < |nums| && nums[b] == kept[j];
          assert kept[i][..place + 1] == kept[i][..place] + [bit];
          assert kept[j][..place + 1] == kept[j][..place] + [bit];
        }
        MostCommonRatingDefined(kept, place + 1, w);
      }
    }
  }

  /** Numbers of width w that agree on all w bits are equal. */
  lemma FullyAgreed(nums: seq<seq<Bit>>, w: nat)
    requires AllWidth(nums, w) && |nums| > 1 && AgreeBelow(nums, w, w)
    ensures nums[0] == nums[1]
  {
    assert nums[0][..w] == nums[0];
    assert nums[1][..w] == nums[1];
  }

  lemma {:induction false} KeepDistinct(nums: seq<seq<Bit>>, sort: SortType, place: nat, bit: Bit, w: nat)
    requires AllWidth(nums, w) && place < w && Distinct(nums)
    ensures Distinct(Keep(nums, sort, place, bit, w))
  {
    if nums != [] {
      var init := nums[..|nums| - 1];
      assert Distinct(init);
      KeepDistinct(init, sort, place, bit, w);
      var last := nums[|nums| - 1];
      assert last !in init;
    }
  }

  /**
   * `get_rating`: filter by the most (or least) common bit one position at a
   * time until at most one number is left, and read the survivor; defined
   * only where the source does not panic.
   */
  method GetRating(nums: seq<seq<Bit>>, sort: SortType, w: nat) returns (rating: nat)
    requires AllWidth(nums, w) && Rating(nums, sort, 0, w).Some?
    ensures rating == ToNumber(Rating(nums, sort, 0, w).value)
  {
    var numbers := nums;
    var bitplace := 0;
    while |numbers| > 1
      invariant bitplace <= w && AllWidth(numbers, w)
      invariant Rating(numbers, sort, bitplace, w) == Rating(nums, sort, 0, w)
      decreases w - bitplace
    {
      var mostCommonBit := GetMostCommonBit(numbers, bitplace);
      numbers := Keep(numbers, sort, bitplace, mostCommonBit, w);
      bitplace := bitplace + 1;
    }
    rating := ToNumber(numbers[0]);
  }

  /**
   * `solution_b`: the oxygen rating (most common bits) and the scrubber rating
   * (least common bits), each the value of one of the input numbers, and their
   * product.
   */
  method SolutionB(nums: seq<seq<Bit>>, w: nat) returns (oxygen: nat, scrubber: nat, answer: nat)
    requires AllWidth(nums, w) && Rating(nums, MostCommon, 0, w).Some? && Rating(nums, LeastCommon, 0, w).Some?
    ensures oxygen == ToNumber(Rating(nums, MostCommon, 0, w).value)
    ensures scrubber == ToNumber(Rating(nums, LeastCommon, 0, w).value)
    ensures exists o :: o in nums && oxygen == ToNumber(o)
    ensures exists c :: c in nums && scrubber == ToNumber(c)
    ensures answer == oxygen * scrubber
  {
    hide Rating;
    oxygen := GetRating(nums, MostCommon, w);
    scrubber := GetRating(nums, LeastCommon, w);
    answer := oxygen * scrubber;
    RatingIsInput(nums, MostCommon, 0, w);
    RatingIsInput(nums, LeastCommon, 0, w);
  }
}

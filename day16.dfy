/**
 * Packet decoder (day16.rs): a hexadecimal transmission is expanded into a
 * stream of bits, and the stream is read front to back into BITS packets.
 * A packet has a 3-bit version and a 3-bit type; type 4 carries a literal
 * number in 5-bit groups, every other type carries subpackets, counted
 * either in bits (length type 0, 15-bit count) or in packets (length type 1,
 * 11-bit count). The value of an operator packet is the sum, product,
 * minimum, maximum or comparison of its subpackets' values.
 *
 * Bits are `bool`s (`true` for '1'). The parser is given twice: as pure
 * functions on bit sequences, where `None` stands for the input on which
 * the source panics (a read past the end of the stream), and as the
 * `BitStream` class whose methods consume their field the way the source
 * does, each proved to follow the functions.
 */
module PacketDecoder {
  datatype Option<T> = None | Some(value: T)

  datatype Packet = Packet(version: nat, typeId: nat, data: PacketData)

  datatype PacketData = Literal(value: nat) | Subpackets(packets: seq<Packet>)

  // ---------------------------------------------------------------------------
  // Bits and numbers.

  /** The number a run of bits spells, most significant bit first (`u64::from_str_radix(_, 2)`). */
  function Value(b: seq<bool>): nat
  {
    if b == [] then 0 else 2 * Value(b[..|b| - 1]) + (if b[|b| - 1] then 1 else 0)
  }

  function Pow2(n: nat): (r: nat)
    ensures r >= 1
  {
    if n == 0 then 1 else 2 * Pow2(n - 1)
  }

  /** The last `n` binary digits of `v`, most significant first. */
  function ToBits(v: nat, n: nat): (r: seq<bool>)
    ensures |r| == n
  {
    if n == 0 then [] else ToBits(v / 2, n - 1) + [v % 2 == 1]
  }

  /** `n` bits spell a number below 2^n. */
  lemma {:induction false} ValueBound(b: seq<bool>)
    ensures Value(b) < Pow2(|b|)
    decreases |b|
  {
    if b != [] {
      ValueBound(b[..|b| - 1]);
    }
  }

  /** Writing a number below 2^n in `n` bits and reading them back gives the number. */
  lemma {:induction false} ValueToBits(v: nat, n: nat)
    requires v < Pow2(n)
    ensures Value(ToBits(v, n)) == v
  {
    if n > 0 {
      var b := ToBits(v, n);
      assert b[..n - 1] == ToBits(v / 2, n - 1);
      ValueToBits(v / 2, n - 1);
    }
  }

  /** Reading `n` bits and writing the number back in `n` bits gives the same bits. */
  lemma {:induction false} ToBitsValue(b: seq<bool>)
    ensures ToBits(Value(b), |b|) == b
    decreases |b|
  {
    if b != [] {
      var init := b[..|b| - 1];
      var v := Value(b);
      assert v / 2 == Value(init) && (v % 2 == 1) == b[|b| - 1];
      ToBitsValue(init);
      assert b == init + [b[|b| - 1]];
    }
  }

  // ---------------------------------------------------------------------------
  // From hexadecimal.

  /** `char::to_digit(16)`. */
  function HexDigit(c: char): (r: Option<nat>)
    ensures r.Some? ==> r.value < 16
    ensures r.Some? <==> ('0' <= c <= '9' || 'a' <= c <= 'f' || 'A' <= c <= 'F')
  {
    if '0' <= c <= '9' then Some(c as nat - '0' as nat)
    else if 'a' <= c <= 'f' then Some(c as nat - 'a' as nat + 10)
    else if 'A' <= c <= 'F' then Some(c as nat - 'A' as nat + 10)
    else None
  }

  predicate IsHex(s: string) {
    forall i :: 0 <= i < |s| ==> HexDigit(s[i]).Some?
  }

  /** `format!("{:04b}", d)` for a digit below 16: exactly four bits, most significant first. */
  function Nibble(d: nat): (r: seq<bool>)
    requires d < 16
    ensures |r| == 4 && Value(r) == d
  {
    assert Pow2(4) == 16;
    ValueToBits(d, 4);
    ToBits(d, 4)
  }

  /** `BitStream::from_hex`: the digits' nibbles one after another. */
  function HexBits(s: string): (r: seq<bool>)
    requires IsHex(s)
    ensures |r| == 4 * |s|
  {
    if s == [] then [] else Nibble(HexDigit(s[0]).value) + HexBits(s[1..])
  }

  /** Bits 4k to 4k + 3 of the stream spell the k-th hex digit. */
  lemma {:induction false} HexBitsDigits(s: string, k: nat)
    requires IsHex(s) && k < |s|
    ensures HexBits(s)[4 * k..4 * k + 4] == Nibble(HexDigit(s[k]).value)
    ensures Value(HexBits(s)[4 * k..4 * k + 4]) == HexDigit(s[k]).value
  {
    var n := Nibble(HexDigit(s[0]).value);
    assert HexBits(s) == n + HexBits(s[1..]);
    if k > 0 {
      HexBitsDigits(s[1..], k - 1);
      var m := 4 * (k - 1);
      assert 4 * k == m + 4;
      SliceAfter(n, HexBits(s[1..]), m);
    } else {
      assert HexBits(s)[..4] == n;
    }
  }

  /** Four bits past a prefix are four bits of what follows it. */
  lemma SliceAfter(a: seq<bool>, b: seq<bool>, m: nat)
    requires |a| == 4 && m + 4 <= |b|
    ensures (a + b)[m + 4..m + 8] == b[m..m + 4]
  {
  }

  // ---------------------------------------------------------------------------
  // The parser as functions: each returns what it reads and the bits left.

  /** A packet as the parser builds it: fields that fit their 3 bits, and literal data exactly for type 4. */
  predicate WellFormed(p: Packet)
    decreases p, 1
  {
    p.version < 8 && p.typeId < 8 && (p.typeId == 4 <==> p.data.Literal?) &&
    (p.data.Subpackets? ==> AllWellFormed(p.data.packets))
  }

  predicate AllWellFormed(ps: seq<Packet>)
    decreases ps, 0
  {
    forall i :: 0 <= i < |ps| ==> WellFormed(ps[i])
  }

  /** `any`: the stream has a 1 bit (it is not empty and not all zeros). */
  predicate HasOne(s: seq<bool>) {
    s != [] && (s[0] || HasOne(s[1..]))
  }

  /** A stream has a 1 bit exactly when some position holds one. */
  lemma {:induction false} HasOneIff(s: seq<bool>)
    ensures HasOne(s) <==> exists i :: 0 <= i < |s| && s[i]
  {
    if s != [] {
      HasOneIff(s[1..]);
      if !s[0] && HasOne(s[1..]) {
        var i :| 0 <= i < |s[1..]| && s[1..][i];
        assert s[i + 1];
      }
      if exists i :: 0 <= i < |s| && s[i] {
        var i :| 0 <= i < |s| && s[i];
        if i > 0 {
          assert s[1..][i - 1];
        }
      }
    }
  }

  /** `parse_next_packet`: version, type, then a literal (type 4) or operator data. */
  function ParsePacketF(s: seq<bool>): (r: Option<(Packet, seq<bool>)>)
    ensures r.Some? ==> |r.value.1| + 6 <= |s| && WellFormed(r.value.0)
    decreases |s|, 0
  {
    if |s| < 6 then None
    else
      ValueBound(s[..3]);
      ValueBound(s[3..6]);
      assert Pow2(3) == 8;
      var version, typeId, t := Value(s[..3]), Value(s[3..6]), s[6..];
      if typeId == 4 then
        match LiteralF(t)
        case None => None
        case Some((bits, rest)) => Some((Packet(version, typeId, Literal(Value(bits))), rest))
      else
        match OperatorF(t)
        case None => None
        case Some((packets, rest)) => Some((Packet(version, typeId, Subpackets(packets)), rest))
  }

  /**
   * The loop of `parse_literal_data`: 5-bit groups, each a continue bit and
   * four data bits, up to and including the first group whose continue bit
   * is 0. The result is the data bits, in order.
   */
  function LiteralF(s: seq<bool>): (r: Option<(seq<bool>, seq<bool>)>)
    ensures r.Some? ==> |r.value.1| + 5 <= |s| && |r.value.0| >= 4
    decreases |s|
  {
    if |s| < 5 then None
    else if !s[0] then Some((s[1..5], s[5..]))
    else
      match LiteralF(s[5..])
      case None => None
      case Some((bits, rest)) => Some((s[1..5] + bits, rest))
  }

  /** `parse_operator_data`: a length-type bit, then subpackets by bit length (0) or by number (1). */
  function OperatorF(s: seq<bool>): (r: Option<(seq<Packet>, seq<bool>)>)
    ensures r.Some? ==> |r.value.1| + 1 <= |s| && AllWellFormed(r.value.0)
    decreases |s|, 2
  {
    if |s| < 1 then None
    else if Value(s[..1]) == 0 then BitLengthF(s[1..])
    else NumPacketsF(s[1..])
  }

  /** `parse_from_bit_length`: a 15-bit count, then exactly that many bits parsed as a stream of their own. */
  /** The length-type-0 form read as a 15-bit length `n` followed by `n` bits of subpackets. */
  lemma {:induction false} BitLengthSplit(s: seq<bool>, n: nat)
    requires BitLengthF(s).Some? && n == Value(s[..15])
    ensures |s| >= 15 + n && ParseAllF(s[15..][..n]).Some?
    ensures BitLengthF(s) == Some((ParseAllF(s[15..][..n]).value, s[15..][n..]))
  {
    assert s[15..][..n] == s[15..15 + n] && s[15..][n..] == s[15 + n..];
  }

  function BitLengthF(s: seq<bool>): (r: Option<(seq<Packet>, seq<bool>)>)
    ensures r.Some? ==> |r.value.1| + 15 <= |s| && AllWellFormed(r.value.0)
    decreases |s|, 2
  {
    if |s| < 15 then None
    else
      var n := Value(s[..15]);
      if |s| - 15 < n then None
      else
        match ParseAllF(s[15..15 + n])
        case None => None
        case Some(packets) => Some((packets, s[15 + n..]))
  }

  /** `parse_from_num_packets`: an 11-bit count, then exactly that many packets. */
  function NumPacketsF(s: seq<bool>): (r: Option<(seq<Packet>, seq<bool>)>)
    ensures r.Some? ==> |r.value.1| + 11 <= |s| && AllWellFormed(r.value.0)
    decreases |s|, 2
  {
    if |s| < 11 then None else CountF(s[11..], Value(s[..11]))
  }

  /** `n` packets one after another. */
  function CountF(s: seq<bool>, n: nat): (r: Option<(seq<Packet>, seq<bool>)>)
    ensures r.Some? ==> |r.value.1| <= |s| && |r.value.0| == n && AllWellFormed(r.value.0)
    decreases |s|, 1
  {
    if n == 0 then Some(([], s))
    else
      match ParsePacketF(s)
      case None => None
      case Some((p, rest)) =>
        match CountF(rest, n - 1)
        case None => None
        case Some((ps, rest')) => Some(([p] + ps, rest'))
  }

  /** `parse`: packets one after another while the bits left hold a 1. */
  function ParseAllF(s: seq<bool>): (r: Option<seq<Packet>>)
    ensures r.Some? ==> AllWellFormed(r.value)
    decreases |s|, 1
  {
    if !HasOne(s) then Some([])
    else
      match ParsePacketF(s)
      case None => None
      case Some((p, rest)) =>
        match ParseAllF(rest)
        case None => None
        case Some(ps) => Some([p] + ps)
  }

  /** A stream with a 1 bit left is one packet and then the packets after it. */
  lemma ParseAllCons(s: seq<bool>, p: Packet, rest: seq<bool>)
    requires HasOne(s) && ParsePacketF(s) == Some((p, rest)) && ParseAllF(s).Some?
    ensures ParseAllF(rest).Some? && ParseAllF(s) == Some([p] + ParseAllF(rest).value)
  {
  }

  /** A stream with no 1 bit left holds no more packets. */
  lemma ParseAllDone(s: seq<bool>)
    requires !HasOne(s)
    ensures ParseAllF(s) == Some([])
  {
  }

  // ---------------------------------------------------------------------------
  // The stream.

  class BitStream {
    /** The bits not read yet. */
    var raw: seq<bool>

    /** `from_hex`. */
    constructor FromHex(input: string)
      requires IsHex(input)
      ensures raw == HexBits(input)
    {
      raw := HexBits(input);
    }

    /** The stream over a run of bits that `parse_from_bit_length` builds. */
    constructor Of(bits: seq<bool>)
      ensures raw == bits
    {
      raw := bits;
    }

    /** `any`: the stream holds a 1 bit. */
    predicate Any()
      reads this
      ensures Any() <==> exists i :: 0 <= i < |raw| && raw[i]
    {
      HasOneIff(raw);
      HasOne(raw)
    }

    /** `read`: the first `n` bits, which leave the stream. */
    method Read(n: nat) returns (r: seq<bool>)
      requires n <= |raw|
      modifies this
      ensures r == old(raw)[..n] && raw == old(raw)[n..]
      ensures r + raw == old(raw)
    {
      r := raw[..n];
      raw := raw[n..];
    }

    /** `read_as_bin`: the number the first `n` bits spell; the bits leave the stream. */
    method ReadAsBin(n: nat) returns (v: nat)
      requires n <= |raw|
      modifies this
      ensures v == Value(old(raw)[..n]) && raw == old(raw)[n..]
      ensures v < Pow2(n)
    {
      var bits := Read(n);
      ValueBound(bits);
      v := Value(bits);
    }

    /** `parse`: packets until the bits left hold no 1. */
    method Parse() returns (packets: seq<Packet>)
      requires ParseAllF(raw).Some?
      modifies this
      ensures ParseAllF(old(raw)) == Some(packets) && !HasOne(raw)
      decreases |raw|, 1
    {
      packets := [];
      assert ParseAllF(raw).value == packets + ParseAllF(raw).value;
      while Any()
        invariant ParseAllF(raw).Some? && ParseAllF(old(raw)) == Some(packets + ParseAllF(raw).value)
        decreases |raw|
      {
        ghost var before := raw;
        var next := ParsePacket();
        ParseAllCons(before, next, raw);
        assert packets + ([next] + ParseAllF(raw).value) == (packets + [next]) + ParseAllF(raw).value;
        packets := packets + [next];
      }
      ParseAllDone(raw);
      assert packets + [] == packets;
    }

    /** `parse_next_packet`. */
    method ParsePacket() returns (p: Packet)
      requires ParsePacketF(raw).Some?
      modifies this
      ensures ParsePacketF(old(raw)) == Some((p, raw))
      decreases |raw|, 0
    {
      ghost var s := raw;
      var version := ReadAsBin(3);
      var typeId := ReadAsBin(3);
      assert s[3..][..3] == s[3..6] && s[3..][3..] == s[6..];
      var data;
      if typeId == 4 {
        data := ParseLiteral();
      } else {
        data := ParseOperator();
      }
      p := Packet(version, typeId, data);
    }

    /** `parse_literal_data`: the `loop` reading 5-bit groups until a continue bit of 0. */
    method ParseLiteral() returns (data: PacketData)
      requires LiteralF(raw).Some?
      modifies this
      ensures LiteralF(old(raw)).Some? && raw == LiteralF(old(raw)).value.1
      ensures data == Literal(Value(LiteralF(old(raw)).value.0))
    {
      var valueBits: seq<bool> := [];
      assert LiteralF(raw).value.0 == valueBits + LiteralF(raw).value.0;
      while true
        invariant LiteralF(raw).Some? && |valueBits| % 4 == 0
        invariant LiteralF(old(raw)) == Some((valueBits + LiteralF(raw).value.0, LiteralF(raw).value.1))
        decreases |raw|
      {
        ghost var before := raw;
        var continueBit := Read(1);
        var group := Read(4);
        assert group == before[1..5] && raw == before[5..];
        ghost var prevBits := valueBits;
        valueBits := valueBits + group;
        if continueBit == [false] {
          assert !before[0] && LiteralF(before) == Some((group, raw));
          assert LiteralF(old(raw)) == Some((valueBits, raw));
          break;
        }
        assert before[0] && LiteralF(before) == Some((group + LiteralF(raw).value.0, LiteralF(raw).value.1));
        assert valueBits + LiteralF(raw).value.0 == prevBits + (group + LiteralF(raw).value.0);
      }
      data := Literal(Value(valueBits));
    }

    /** `parse_operator_data`. */
    method ParseOperator() returns (data: PacketData)
      requires OperatorF(raw).Some?
      modifies this
      ensures data.Subpackets? && OperatorF(old(raw)) == Some((data.packets, raw))
      decreases |raw|, 2
    {
      ghost var s := raw;
      var lengthTypeId := ReadAsBin(1);
      assert s[..1] == [s[0]];
      var packets;
      if lengthTypeId == 0 {
        packets := ParseFromBitLength();
      } else {
        packets := ParseFromNumPackets();
      }
      data := Subpackets(packets);
    }

    /** `parse_from_bit_length`. */
    method ParseFromBitLength() returns (packets: seq<Packet>)
      requires BitLengthF(raw).Some?
      modifies this
      ensures BitLengthF(old(raw)) == Some((packets, raw))
      decreases |raw|, 2
    {
      ghost var s := raw;
      var numBits := ReadAsBin(15);
      BitLengthSplit(s, numBits);
      var dataToParse := Read(numBits);
      var substream := new BitStream.Of(dataToParse);
      packets := substream.Parse();
    }

    /** `parse_from_num_packets`: the loop pushing packets until there are as many as counted. */
    method ParseFromNumPackets() returns (packets: seq<Packet>)
      requires NumPacketsF(raw).Some?
      modifies this
      ensures NumPacketsF(old(raw)) == Some((packets, raw))
      decreases |raw|, 2
    {
      ghost var s := raw;
      var numPackets := ReadAsBin(11);
      packets := [];
      ghost var start := raw;
      assert CountF(raw, numPackets).value.0 == packets + CountF(raw, numPackets).value.0;
      while |packets| < numPackets
        invariant |packets| <= numPackets && |raw| <= |start| && CountF(raw, numPackets - |packets|).Some?
        invariant CountF(start, numPackets) == Some((packets + CountF(raw, numPackets - |packets|).value.0, CountF(raw, numPackets - |packets|).value.1))
        decreases numPackets - |packets|
      {
        ghost var before := raw;
        var packet := ParsePacket();
        assert CountF(before, numPackets - |packets|) == Some(([packet] + CountF(raw, numPackets - |packets| - 1).value.0, CountF(raw, numPackets - |packets| - 1).value.1));
        assert packets + ([packet] + CountF(raw, numPackets - |packets| - 1).value.0) == (packets + [packet]) + CountF(raw, numPackets - |packets| - 1).value.0;
        packets := packets + [packet];
      }
      assert CountF(raw, 0) == Some(([], raw)) && packets + [] == packets;
    }
  }

  // ---------------------------------------------------------------------------
  // Evaluation.

  /** The subpackets of an operator; a literal has none. */
  function Children(p: Packet): seq<Packet> {
    if p.data.Subpackets? then p.data.packets else []
  }

  /**
   * The packets `evaluate` does not panic on: a known type, literal data for
   * type 4, at least one subpacket for minimum and maximum (`unwrap`), at
   * least two for the comparisons (`values[1]`), and the same all the way down.
   */
  predicate Evaluable(p: Packet)
    decreases p
  {
    p.typeId <= 7 && (p.typeId == 4 ==> p.data.Literal?) &&
    ((p.typeId == 2 || p.typeId == 3) ==> |Children(p)| >= 1) &&
    (5 <= p.typeId ==> |Children(p)| >= 2) &&
    (p.data.Subpackets? ==> forall i :: 0 <= i < |p.data.packets| ==> Evaluable(p.data.packets[i]))
  }

  function Sum(s: seq<nat>): nat {
    if s == [] then 0 else s[0] + Sum(s[1..])
  }

  function Product(s: seq<nat>): nat {
    if s == [] then 1 else s[0] * Product(s[1..])
  }

  /** `Iterator::min`. */
  function Min(s: seq<nat>): (r: nat)
    requires |s| >= 1
    ensures r in s && forall i :: 0 <= i < |s| ==> r <= s[i]
  {
    if |s| == 1 then s[0]
    else
      var m := Min(s[1..]);
      assert forall i :: 1 <= i < |s| ==> s[i] == s[1..][i - 1];
      if s[0] <= m then s[0] else m
  }

  /** `Iterator::max`. */
  function Max(s: seq<nat>): (r: nat)
    requires |s| >= 1
    ensures r in s && forall i :: 0 <= i < |s| ==> s[i] <= r
  {
    if |s| == 1 then s[0]
    else
      var m := Max(s[1..]);
      assert forall i :: 1 <= i < |s| ==> s[i] == s[1..][i - 1];
      if s[0] >= m then s[0] else m
  }

  /**
   * `evaluate`: a literal's value; otherwise the sum (0), product (1),
   * minimum (2) or maximum (3) of the subpackets' values, or 1 or 0 as the
   * first is greater than (5), less than (6) or equal to (7) the second.
   */
  function Evaluate(p: Packet): (r: nat)
    requires Evaluable(p)
    ensures p.typeId == 2 ==> (exists i :: 0 <= i < |Children(p)| && r == Evaluate(Children(p)[i])) &&
                              forall i :: 0 <= i < |Children(p)| ==> r <= Evaluate(Children(p)[i])
    ensures p.typeId == 3 ==> (exists i :: 0 <= i < |Children(p)| && r == Evaluate(Children(p)[i])) &&
                              forall i :: 0 <= i < |Children(p)| ==> Evaluate(Children(p)[i]) <= r
    ensures 5 <= p.typeId ==> r <= 1
    decreases p, 1
  {
    var values := if p.data.Subpackets? then Values(p.data.packets) else [];
    match p.typeId
    case 4 => p.data.value
    case 0 => Sum(values)
    case 1 => Product(values)
    case 2 => Min(values)
    case 3 => Max(values)
    case 5 => if values[0] > values[1] then 1 else 0
    case 6 => if values[0] < values[1] then 1 else 0
    case 7 => if values[0] == values[1] then 1 else 0
  }

  /** The subpackets' values, in order. */
  function Values(ps: seq<Packet>): (r: seq<nat>)
    requires forall i :: 0 <= i < |ps| ==> Evaluable(ps[i])
    ensures |r| == |ps| && forall i :: 0 <= i < |ps| ==> r[i] == Evaluate(ps[i])
    decreases ps, 0
  {
    if ps == [] then [] else [Evaluate(ps[0])] + Values(ps[1..])
  }

  /** `solution_b`: the value of the first packet of the transmission. */
  method SolutionB(input: string) returns (value: nat)
    requires IsHex(input) && ParseAllF(HexBits(input)).Some?
    requires |ParseAllF(HexBits(input)).value| >= 1 && Evaluable(ParseAllF(HexBits(input)).value[0])
    ensures value == Evaluate(ParseAllF(HexBits(input)).value[0])
  {
    var stream := new BitStream.FromHex(input);
    var packets := stream.Parse();
    value := Evaluate(packets[0]);
  }

  // ---------------------------------------------------------------------------
  // Version sums.

  /** The versions of a forest of packets and of everything inside them. */
  function VersionSum(ps: seq<Packet>): nat
    decreases ps, 1
  {
    if ps == [] then 0 else PacketVersions(ps[0]) + VersionSum(ps[1..])
  }

  function PacketVersions(p: Packet): nat
    decreases p, 2
  {
    p.version + if p.data.Subpackets? then VersionSum(p.data.packets) else 0
  }

  /** The number of packets in a forest, nested ones included. */
  function Size(ps: seq<Packet>): nat
    decreases ps, 1
  {
    if ps == [] then 0 else PacketSize(ps[0]) + Size(ps[1..])
  }

  function PacketSize(p: Packet): nat
    decreases p, 2
  {
    1 + if p.data.Subpackets? then Size(p.data.packets) else 0
  }

  /** `packets.iter().map(|p| p.version).sum()`: the versions of one level. */
  function TopVersions(ps: seq<Packet>): nat {
    if ps == [] then 0 else ps[0].version + TopVersions(ps[1..])
  }

  /** The `filter_map(...).flatten()` of `solution_a`: the next level down, the operators' subpackets in order. */
  function Flatten(ps: seq<Packet>): seq<Packet> {
    if ps == [] then [] else Children(ps[0]) + Flatten(ps[1..])
  }

  lemma {:induction false} VersionSumAppend(a: seq<Packet>, b: seq<Packet>)
    ensures VersionSum(a + b) == VersionSum(a) + VersionSum(b)
    ensures Size(a + b) == Size(a) + Size(b)
  {
    if a != [] {
      assert (a + b)[1..] == a[1..] + b;
      VersionSumAppend(a[1..], b);
    } else {
      assert a + b == b;
    }
  }

  /** A forest's versions are its top level's plus those of the level below; the level below is smaller. */
  lemma {:induction false} VersionSumLevels(ps: seq<Packet>)
    ensures VersionSum(ps) == TopVersions(ps) + VersionSum(Flatten(ps))
    ensures Size(ps) == |ps| + Size(Flatten(ps))
  {
    if ps != [] {
      VersionSumLevels(ps[1..]);
      VersionSumAppend(Children(ps[0]), Flatten(ps[1..]));
    }
  }

  /** `solution_a`: the loop adding up one level's versions and descending to the next. */
  method SolutionA(input: string) returns (versionSum: nat)
    requires IsHex(input) && ParseAllF(HexBits(input)).Some?
    ensures versionSum == VersionSum(ParseAllF(HexBits(input)).value)
  {
    var stream := new BitStream.FromHex(input);
    var packets := stream.Parse();
    ghost var all := packets;
    versionSum := 0;
    while packets != []
      invariant versionSum + VersionSum(packets) == VersionSum(all)
      decreases Size(packets)
    {
      VersionSumLevels(packets);
      versionSum := versionSum + TopVersions(packets);
      packets := Flatten(packets);
    }
  }

  // ---------------------------------------------------------------------------
  // Encoding: the parser reads back what an encoder writes.

  /** The number of 4-bit groups a literal is written in. */
  function Digits(v: nat): (r: nat)
    ensures r >= 1
  {
    if v < 16 then 1 else 1 + Digits(v / 16)
  }

  lemma {:induction false} DigitsBound(v: nat)
    ensures v < Pow2(4 * Digits(v))
  {
    assert Pow2(4) == 16;
    if v >= 16 {
      DigitsBound(v / 16);
      Pow2Add(4, 4 * Digits(v / 16));
    }
  }

  lemma {:induction false} Pow2Add(a: nat, b: nat)
    ensures Pow2(a + b) == Pow2(a) * Pow2(b)
  {
    if a > 0 {
      Pow2Add(a - 1, b);
    }
  }

  /** Data bits cut into 5-bit groups, each led by a continue bit that is 0 only on the last. */
  function Groups(bits: seq<bool>): (r: seq<bool>)
    requires |bits| >= 4 && |bits| % 4 == 0
    decreases |bits|
  {
    if |bits| == 4 then [false] + bits else [true] + bits[..4] + Groups(bits[4..])
  }

  lemma {:induction false} LiteralGroups(bits: seq<bool>, rest: seq<bool>)
    requires |bits| >= 4 && |bits| % 4 == 0
    ensures LiteralF(Groups(bits) + rest) == Some((bits, rest))
    decreases |bits|
  {
    var e := Groups(bits) + rest;
    if |bits| == 4 {
      assert e[1..5] == bits && e[5..] == rest;
    } else {
      assert e[1..5] == bits[..4] && e[5..] == Groups(bits[4..]) + rest;
      LiteralGroups(bits[4..], rest);
      assert bits[..4] + bits[4..] == bits;
    }
  }

  /** A packet as bits: version, type, then literal groups or a count of subpackets (length type 1) and the subpackets. */
  function EncodePacket(p: Packet): seq<bool>
    decreases p, 1
  {
    ToBits(p.version, 3) + ToBits(p.typeId, 3) +
    match p.data
    case Literal(v) => Groups(ToBits(v, 4 * Digits(v)))
    case Subpackets(ps) => [true] + ToBits(|ps|, 11) + EncodeAll(ps)
  }

  function EncodeAll(ps: seq<Packet>): seq<bool>
    decreases ps, 0
  {
    if ps == [] then [] else EncodePacket(ps[0]) + EncodeAll(ps[1..])
  }

  /** A well-formed packet whose operators have fewer than 2048 subpackets, all the way down. */
  predicate Encodable(p: Packet)
    decreases p, 1
  {
    p.version < 8 && p.typeId < 8 && (p.typeId == 4 <==> p.data.Literal?) &&
    (p.data.Subpackets? ==> |p.data.packets| < 2048 && AllEncodable(p.data.packets))
  }

  predicate AllEncodable(ps: seq<Packet>)
    decreases ps, 0
  {
    ps != [] ==> Encodable(ps[0]) && AllEncodable(ps[1..])
  }

  /** The parser reads an encoded packet back, and stops right after it. */
  lemma {:induction false} ParseEncode(p: Packet, rest: seq<bool>)
    requires Encodable(p)
    ensures ParsePacketF(EncodePacket(p) + rest) == Some((p, rest))
    decreases p, 2
  {
    match p.data
    case Literal(v) =>
      var bits := ToBits(v, 4 * Digits(v));
      LiteralGroups(bits, rest);
      DigitsBound(v);
      ValueToBits(v, 4 * Digits(v));
      ReadLiteral(p.version, Groups(bits), rest, bits);
    case Subpackets(ps) =>
      OperatorEncode(ps, rest);
      ReadOperator(p.version, p.typeId, [true] + ToBits(|ps|, 11) + EncodeAll(ps), rest, ps);
  }

  /** The 3-bit version and type read back as written; the packet's data follows. */
  lemma ParseHeader(version: nat, typeId: nat, tail: seq<bool>)
    requires version < 8 && typeId < 8
    ensures var e := ToBits(version, 3) + ToBits(typeId, 3) + tail;
      Value(e[..3]) == version && Value(e[3..6]) == typeId && e[6..] == tail
  {
    var e := ToBits(version, 3) + ToBits(typeId, 3) + tail;
    assert e[..3] == ToBits(version, 3) && e[3..6] == ToBits(typeId, 3);
    assert Pow2(3) == 8;
    ValueToBits(version, 3);
    ValueToBits(typeId, 3);
  }

  /** A header with type 4, then data the literal reader accepts: the parser builds that literal. */
  lemma ReadLiteral(version: nat, body: seq<bool>, rest: seq<bool>, bits: seq<bool>)
    requires version < 8 && LiteralF(body + rest) == Some((bits, rest))
    ensures ParsePacketF(ToBits(version, 3) + ToBits(4, 3) + body + rest)
      == Some((Packet(version, 4, Literal(Value(bits))), rest))
  {
    ParseHeader(version, 4, body + rest);
    assert ToBits(version, 3) + ToBits(4, 3) + body + rest == ToBits(version, 3) + ToBits(4, 3) + (body + rest);
  }

  /** A header with another type, then data the operator reader accepts: the parser builds that operator. */
  lemma ReadOperator(version: nat, typeId: nat, body: seq<bool>, rest: seq<bool>, ps: seq<Packet>)
    requires version < 8 && typeId < 8 && typeId != 4 && OperatorF(body + rest) == Some((ps, rest))
    ensures ParsePacketF(ToBits(version, 3) + ToBits(typeId, 3) + body + rest)
      == Some((Packet(version, typeId, Subpackets(ps)), rest))
  {
    ParseHeader(version, typeId, body + rest);
    assert ToBits(version, 3) + ToBits(typeId, 3) + body + rest == ToBits(version, 3) + ToBits(typeId, 3) + (body + rest);
  }

  /** Operator data written with length type 1 reads back as its subpackets. */
  lemma {:induction false} OperatorEncode(ps: seq<Packet>, rest: seq<bool>)
    requires |ps| < 2048 && AllEncodable(ps)
    ensures OperatorF([true] + ToBits(|ps|, 11) + EncodeAll(ps) + rest) == Some((ps, rest))
    decreases ps, 1
  {
    Pow2Add(3, 8);
    assert Pow2(3) == 8 && Pow2(8) == 256;
    ValueToBits(|ps|, 11);
    CountEncode(ps, rest);
    ReadCount(ToBits(|ps|, 11), EncodeAll(ps), rest);
  }

  /** Length type 1: the 11 bits after it count the packets that follow. */
  lemma ReadCount(n: seq<bool>, e: seq<bool>, rest: seq<bool>)
    requires |n| == 11
    ensures OperatorF([true] + n + e + rest) == CountF(e + rest, Value(n))
  {
    var t := [true] + n + e + rest;
    assert t[..1] == [true] && Value([true]) == 1;
    assert t[1..][..11] == n && t[1..][11..] == e + rest;
  }

  lemma {:induction false} CountEncode(ps: seq<Packet>, rest: seq<bool>)
    requires AllEncodable(ps)
    ensures CountF(EncodeAll(ps) + rest, |ps|) == Some((ps, rest))
    decreases ps, 0
  {
    if ps == [] {
      assert EncodeAll(ps) + rest == rest;
    } else {
      ParseEncode(ps[0], EncodeAll(ps[1..]) + rest);
      CountEncode(ps[1..], rest);
      CountCons(EncodePacket(ps[0]), EncodeAll(ps[1..]), rest, ps[0], ps[1..]);
      assert [ps[0]] + ps[1..] == ps;
    }
  }

  /** Packets one after another: the first, then the others. */
  lemma CountCons(e1: seq<bool>, e2: seq<bool>, rest: seq<bool>, p: Packet, ps: seq<Packet>)
    requires ParsePacketF(e1 + (e2 + rest)) == Some((p, e2 + rest))
    requires CountF(e2 + rest, |ps|) == Some((ps, rest))
    ensures CountF(e1 + e2 + rest, 1 + |ps|) == Some(([p] + ps, rest))
  {
    assert e1 + e2 + rest == e1 + (e2 + rest);
  }

  /** The zero bits that pad a transmission to whole hex digits. */
  function Zeros(k: nat): (r: seq<bool>)
    ensures |r| == k
  {
    seq(k, _ => false)
  }

  lemma {:induction false} HasOnePrefix(a: seq<bool>, b: seq<bool>)
    requires HasOne(a)
    ensures HasOne(a + b)
  {
    if !a[0] {
      HasOnePrefix(a[1..], b);
      assert (a + b)[1..] == a[1..] + b;
    }
  }

  lemma {:induction false} ZerosHaveNoOne(k: nat)
    ensures !HasOne(Zeros(k))
  {
    if k > 0 {
      ZerosHaveNoOne(k - 1);
      assert Zeros(k)[1..] == Zeros(k - 1);
    }
  }

  /**
   * A transmission of one encoded packet and any zero padding parses to
   * exactly that packet: the packet's bits always hold a 1 (type 4 is 100,
   * and an operator's length-type bit is 1), and `parse` stops at the padding.
   */
  lemma TransmissionEncode(p: Packet, k: nat)
    requires Encodable(p)
    ensures ParseAllF(EncodePacket(p) + Zeros(k)) == Some([p])
  {
    ParseEncode(p, Zeros(k));
    ZerosHaveNoOne(k);
    assert ParseAllF(Zeros(k)) == Some([]);
    EncodedHasOne(p);
    HasOnePrefix(EncodePacket(p), Zeros(k));
    var s := EncodePacket(p) + Zeros(k);
    assert ParsePacketF(s) == Some((p, Zeros(k)));
    assert ParseAllF(s) == Some([p] + []);
    assert [p] + [] == [p];
  }

  /** Every encoded packet holds a 1 bit. */
  lemma EncodedHasOne(p: Packet)
    requires p.typeId < 8 && (p.typeId == 4 <==> p.data.Literal?)
    ensures HasOne(EncodePacket(p))
  {
    var e := EncodePacket(p);
    if p.data.Literal? {
      assert ToBits(4, 3) == [true, false, false];
      assert e[3];
      OneAt(e, 3);
    } else {
      assert e[6];
      OneAt(e, 6);
    }
  }

  /** A stream with a 1 anywhere has a 1. */
  lemma {:induction false} OneAt(s: seq<bool>, k: nat)
    requires k < |s| && s[k]
    ensures HasOne(s)
  {
    if k > 0 && !s[0] {
      OneAt(s[1..], k - 1);
    }
  }
}

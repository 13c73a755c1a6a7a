/** Dive (day02.rs): folding submarine commands into a position, without and with aim. */
module Dive {

  datatype Direction = Forward | Down | Up
  datatype Command = Command(direction: Direction, distance: nat)

  /** `ParseLine`: the first word names the direction, the second is the distance; any other word is unreachable. */
  function ParseLine(word: string, distance: nat): (c: Command)
    requires word == "forward" || word == "down" || word == "up"
    ensures c.distance == distance
    ensures c.direction == Forward <==> word == "forward"
    ensures c.direction == Down <==> word == "down"
    ensures c.direction == Up <==> word == "up"
  {
    if word == "forward" then Command(Forward, distance)
    else if word == "down" then Command(Down, distance)
    else Command(Up, distance)
  }

  /** The total distance of the commands going one way. */
  function Total(cmds: seq<Command>, d: Direction): nat {
    if cmds == [] then 0
    else Total(cmds[..|cmds| - 1], d) + (if cmds[|cmds| - 1].direction == d then cmds[|cmds| - 1].distance else 0)
  }

  /** The vertical change of a command: down adds its distance, up subtracts it, forward none. */
  function Vertical(c: Command): int {
    match c.direction
    case Down => c.distance as int
    case Up => -(c.distance as int)
    case Forward => 0
  }

  /** The reported answer: horizontal distance times depth. */
  function Product(distance: nat, depth: int): (r: int)
    ensures depth >= 0 ==> r >= 0
  {
    distance * depth
  }

  /** The descent of a forward move at a given aim. */
  function Descent(distance: nat, aim: int): int {
    distance * aim
  }

  /** Part A's depth after the commands: down adds, up subtracts. */
  function DepthA(cmds: seq<Command>): int {
    if cmds == [] then 0
    else
      var c := cmds[|cmds| - 1];
      DepthA(cmds[..|cmds| - 1]) + Vertical(c)
  }

  /** Part B's aim after the commands: down adds, up subtracts. */
  function Aim(cmds: seq<Command>): int {
    if cmds == [] then 0
    else
      var c := cmds[|cmds| - 1];
      Aim(cmds[..|cmds| - 1]) + Vertical(c)
  }

  /** Part B's depth: every forward move descends by its distance times the aim at that moment. */
  function DepthB(cmds: seq<Command>): int {
    if cmds == [] then 0
    else
      var c := cmds[|cmds| - 1];
      DepthB(cmds[..|cmds| - 1]) + (if c.direction == Forward then Descent(c.distance, Aim(cmds[..|cmds| - 1])) else 0)
  }

  /** No prefix drives the value below zero: the `u32` subtraction never underflows. */
  ghost predicate NeverNegative(f: seq<Command> -> int, cmds: seq<Command>) {
    forall k :: 0 <= k <= |cmds| ==> f(cmds[..k]) >= 0
  }

  /** Part A's depth is the downward total less the upward total. */
  lemma {:induction false} DepthATotals(cmds: seq<Command>)
    ensures DepthA(cmds) == Total(cmds, Down) - Total(cmds, Up)
  {
    if cmds != [] {
      DepthATotals(cmds[..|cmds| - 1]);
    }
  }

  /** Part B's aim follows exactly the depth of part A. */
  lemma {:induction false} AimIsDepthA(cmds: seq<Command>)
    ensures Aim(cmds) == DepthA(cmds)
  {
    if cmds != [] {
      AimIsDepthA(cmds[..|cmds| - 1]);
    }
  }

  /** `solution_a`: horizontal distance times depth. */
  method SolutionA(cmds: seq<Command>) returns (r: nat)
    requires NeverNegative(DepthA, cmds)
    ensures r == Product(Total(cmds, Forward), Total(cmds, Down) - Total(cmds, Up))
  {
    var depth: nat := 0;
    var distance: nat := 0;
    for i := 0 to |cmds|
      invariant depth == DepthA(cmds[..i]) && distance == Total(cmds[..i], Forward)
    {
      assert cmds[..i + 1][..i] == cmds[..i];
      var c := cmds[i];
      match c.direction
      case Forward => distance := distance + c.distance;
      case Down => depth := depth + c.distance;
      case Up =>
        assert DepthA(cmds[..i + 1]) >= 0;
        depth := depth - c.distance;
    }
    assert cmds[..|cmds|] == cmds;
    DepthATotals(cmds);
    r := Product(distance, depth);
  }

  /** `solution_b`: horizontal distance times the aim-weighted depth. */
  method SolutionB(cmds: seq<Command>) returns (r: nat)
    requires NeverNegative(Aim, cmds)
    ensures r == Product(Total(cmds, Forward), DepthB(cmds))
    ensures Aim(cmds) == Total(cmds, Down) - Total(cmds, Up)
  {
    var depth: nat := 0;
    var distance: nat := 0;
    var aim: nat := 0;
    for i := 0 to |cmds|
      invariant aim == Aim(cmds[..i]) && depth == DepthB(cmds[..i]) && distance == Total(cmds[..i], Forward)
    {
      assert cmds[..i + 1][..i] == cmds[..i];
      var c := cmds[i];
      match c.direction
      case Down => aim := aim + c.distance;
      case Up =>
        assert Aim(cmds[..i + 1]) >= 0;
        aim := aim - c.distance;
      case Forward =>
        distance := distance + c.distance;
        assert Descent(c.distance, aim) >= 0;
        depth := depth + Descent(c.distance, aim);
    }
    assert cmds[..|cmds|] == cmds;
    AimIsDepthA(cmds);
    DepthATotals(cmds);
    r := Product(distance, depth);
  }
}

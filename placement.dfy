/**
 * Entity placement: the four robot colours and the room a pair of random
 * draws selects. The random source itself is not modelled; each draw is the
 * value rand.Intn(GRID_SIZE / 2) returned, supplied by the caller.
 */
module Placement {
  import opened Grid
  import opened BoardLayout

  /** The robot colours, in the order they are placed. */
  const Colors: seq<string> := ["R", "B", "G", "Y"]

  /** A value rand.Intn(GRID_SIZE / 2) can return: 0 to 15. */
  type DrawIndex = i: int | 0 <= i < GridSize / 2

  /** One placement attempt: the X draw, then the Y draw. */
  datatype Draw = Draw(ix: DrawIndex, iy: DrawIndex)

  /** The cell an attempt selects: index i stands for coordinate i * 2 + 1. */
  function DrawnRoom(d: Draw): (p: Position)
    ensures IsRoom(p)
  {
    Position(d.ix * 2 + 1, d.iy * 2 + 1)
  }

  /** The attempt that selects a given room; DrawnRoom is onto the rooms. */
  function DrawFor(p: Position): (d: Draw)
    requires IsRoom(p)
    ensures DrawnRoom(d) == p
  {
    Draw(p.x / 2, p.y / 2)
  }

  /** Different attempts select different rooms, so every room is drawn by exactly one attempt. */
  lemma DrawnRoomInjective(d: Draw, e: Draw)
    requires DrawnRoom(d) == DrawnRoom(e)
    ensures d == e
  {
  }

  /**
   * The source redraws while the selected cell is a wall. On the built board
   * no drawn cell is, so the first attempt is always accepted.
   */
  lemma FirstDrawAccepted(d: Draw)
    ensures !InitialWall(DrawnRoom(d).x, DrawnRoom(d).y)
  {
    NoRoomIsWall(DrawnRoom(d));
  }

  /** A cell where a robot or the target may be placed on the built board. */
  predicate OpenRoom(p: Position)
  {
    IsRoom(p) && !InitialWall(p.x, p.y)
  }

  /**
   * The robots map after placement: exactly the four colours are keys, each
   * robot carries its key as its colour and stands on an open room.
   */
  predicate RobotsPlaced(robots: map<string, Robot>)
  {
    robots.Keys == (set c | c in Colors) &&
    forall c :: c in robots ==> robots[c].color == c && OpenRoom(robots[c].pos)
  }

  /** Whether no two robots share a cell. */
  predicate DistinctPositions(robots: map<string, Robot>)
  {
    forall c, d :: c in robots && d in robots && c != d ==> robots[c].pos != robots[d].pos
  }

  /** The robots map once the first k colours have been placed, each with its own draw. */
  function PlacedAfter(draws: seq<Draw>, k: nat): map<string, Robot>
    requires |draws| == |Colors| && k <= |Colors|
  {
    if k == 0 then map[]
    else PlacedAfter(draws, k - 1)[Colors[k - 1] := Robot(Colors[k - 1], DrawnRoom(draws[k - 1]))]
  }

  /**
   * The robots map the placement loop builds: every colour is placed, on
   * the room of its own draw, and the placement invariant holds.
   */
  function PlacedRobots(draws: seq<Draw>): (m: map<string, Robot>)
    requires |draws| == |Colors|
    ensures RobotsPlaced(m)
    ensures forall i :: 0 <= i < |Colors| ==> m[Colors[i]] == Robot(Colors[i], DrawnRoom(draws[i]))
  {
    var m := PlacedAfter(draws, |Colors|);
    assert m == PlacedAfter(draws, 3)[Colors[3] := Robot(Colors[3], DrawnRoom(draws[3]))];
    assert PlacedAfter(draws, 3) == PlacedAfter(draws, 2)[Colors[2] := Robot(Colors[2], DrawnRoom(draws[2]))];
    assert PlacedAfter(draws, 2) == PlacedAfter(draws, 1)[Colors[1] := Robot(Colors[1], DrawnRoom(draws[1]))];
    assert PlacedAfter(draws, 1) == map[Colors[0] := Robot(Colors[0], DrawnRoom(draws[0]))];
    FirstDrawAccepted(draws[0]);
    FirstDrawAccepted(draws[1]);
    FirstDrawAccepted(draws[2]);
    FirstDrawAccepted(draws[3]);
    assert (set c | c in Colors) == {"R", "B", "G", "Y"};
    m
  }

  /**
   * Placement does not keep robots apart: drawing the same room for every
   * colour stacks all four robots on one cell.
   */
  lemma PlacementMayStack(d: Draw)
    ensures !DistinctPositions(PlacedRobots([d, d, d, d]))
  {
    var m := PlacedRobots([d, d, d, d]);
    assert m["R"].pos == m["B"].pos && "R" != "B";
  }
}

/**
 * Concrete slides that pin the movement rules down: sliding to the outer
 * ring and stopping in front of another robot.
 */
module Scenarios {
  import opened Grid
  import opened BoardLayout
  import opened Movement

  const Right: Step := Step(2, 0)

  /** A board whose only walls are the outer ring. */
  function RingGrid(): (g: Grid)
    ensures WellFormed(g)
    ensures forall y, x :: 0 <= y < GridSize && 0 <= x < GridSize ==> g[y][x] == OnRing(x, y)
  {
    seq(GridSize, y => seq(GridSize, x => OnRing(x, y)))
  }

  /** The cells a lone robot occupies: its own. */
  lemma OccupiedByOne(c: string, p: Position)
    ensures Occupied(map[c := Robot(c, p)]) == {p}
  {
    var robots := map[c := Robot(c, p)];
    assert robots.Keys == {c};
    assert robots[c].pos == p;
  }

  /**
   * With only the outer ring, a robot sliding right from a room with nothing
   * ahead of it on its row stops on the last room before the ring.
   */
  lemma {:induction false} SlideToRing(occupied: set<Position>, p: Position)
    requires IsRoom(p)
    requires forall q :: q in occupied ==> q.y != p.y || q.x <= p.x
    ensures Slide(RingGrid(), occupied, p, Right) == Position(GridSize - 2, p.y)
    decreases GridSize - p.x
  {
    var g := RingGrid();
    var n := Next(p, Right);
    if p.x < GridSize - 2 {
      assert Midpoint(p, n) == Position(p.x + 1, p.y);
      assert !g[p.y][p.x + 1];
      assert CanStep(g, occupied, p, Right);
      SlideToRing(occupied, n);
    } else {
      assert !CanStep(g, occupied, p, Right);
    }
  }

  /** A lone robot moving right on the ring board ends on the last room of its row. */
  lemma MoveToRing(c: string, p: Position)
    requires IsRoom(p)
    ensures Move(RingGrid(), map[c := Robot(c, p)], c, "right")[c].pos == Position(GridSize - 2, p.y)
  {
    OccupiedByOne(c, p);
    SlideToRing({p}, p);
    assert StepOf("right") == Right;
  }

  /** Sliding right from a room toward a robot two rooms ahead stops on the room between them. */
  lemma SlideBeforeRobot(p: Position, q: Position)
    requires IsRoom(p) && IsRoom(q) && q == Position(p.x + 4, p.y)
    ensures Slide(RingGrid(), {p, q}, p, Right) == Position(p.x + 2, p.y)
  {
    var g := RingGrid();
    var n := Next(p, Right);
    assert Midpoint(p, n) == Position(p.x + 1, p.y);
    assert !g[p.y][p.x + 1];
    assert CanStep(g, {p, q}, p, Right);
    assert Next(n, Right) == q;
    assert !CanStep(g, {p, q}, n, Right);
  }

  /** Red moving right toward blue two rooms ahead on the ring board stops next to blue. */
  lemma StopBeforeRobot(p: Position, q: Position)
    requires IsRoom(p) && IsRoom(q) && q == Position(p.x + 4, p.y)
    ensures var robots := map["R" := Robot("R", p), "B" := Robot("B", q)];
      Move(RingGrid(), robots, "R", "right")["R"].pos == Position(p.x + 2, p.y)
  {
    var robots := map["R" := Robot("R", p), "B" := Robot("B", q)];
    assert robots.Keys == {"R", "B"};
    assert robots["R"].pos == p && robots["B"].pos == q;
    assert Occupied(robots) == {p, q};
    SlideBeforeRobot(p, q);
    assert StepOf("right") == Right;
  }
}

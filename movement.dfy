/**
 * The movement engine: a robot slides one room (two cells) at a time along
 * one axis until the next room is off the board, the wall cell in between is
 * a wall, or some robot stands on the next room.
 */
module Movement {
  import opened Grid
  import opened BoardLayout
  import opened Placement

  /** The displacement (dx, dy) of one iteration of the slide. */
  datatype Step = Step(dx: int, dy: int)

  /** What an unrecognised direction leaves: dx = dy = 0. */
  const Stay: Step := Step(0, 0)

  predicate IsStep(s: Step)
  {
    s == Step(0, -2) || s == Step(0, 2) || s == Step(-2, 0) || s == Step(2, 0) || s == Stay
  }

  /** The switch on the direction name; any other name selects no displacement. */
  function StepOf(direction: string): (s: Step)
    ensures IsStep(s)
    ensures s == Stay <==> direction != "up" && direction != "down" && direction != "left" && direction != "right"
    ensures direction == "up" ==> s.dx == 0 && s.dy < 0
    ensures direction == "down" ==> s.dx == 0 && s.dy > 0
    ensures direction == "left" ==> s.dx < 0 && s.dy == 0
    ensures direction == "right" ==> s.dx > 0 && s.dy == 0
  {
    if direction == "up" then Step(0, -2)
    else if direction == "down" then Step(0, 2)
    else if direction == "left" then Step(-2, 0)
    else if direction == "right" then Step(2, 0)
    else Stay
  }

  function Next(p: Position, s: Step): Position
  {
    Position(p.x + s.dx, p.y + s.dy)
  }

  /** p advanced by k steps. */
  function Advance(p: Position, s: Step, k: nat): Position
    decreases k
  {
    if k == 0 then p else Advance(Next(p, s), s, k - 1)
  }

  /**
   * The cell between two cells of the board, (x + nx) / 2 and (y + ny) / 2.
   * The source's division truncates toward zero; on the non-negative
   * coordinates of the board that agrees with Dafny's.
   */
  function Midpoint(p: Position, n: Position): (m: Position)
    requires InBounds(p) && InBounds(n)
    ensures InBounds(m)
  {
    Position((p.x + n.x) / 2, (p.y + n.y) / 2)
  }

  /**
   * One iteration of the slide commits its step from p: the next cell is on
   * the board, the cell between is not a wall, and no robot stands on the
   * next cell (the three checks of the loop, in the source's order).
   */
  predicate CanStep(g: Grid, occupied: set<Position>, p: Position, s: Step)
    requires WellFormed(g) && InBounds(p)
  {
    var n := Next(p, s);
    InBounds(n) && !IsWall(g, Midpoint(p, n)) && n !in occupied
  }

  /** Distance left to the edge of the board in the direction of s. */
  function Remaining(p: Position, s: Step): nat
    requires InBounds(p)
  {
    if s.dx > 0 then GridSize - p.x
    else if s.dx < 0 then p.x
    else if s.dy > 0 then GridSize - p.y
    else if s.dy < 0 then p.y
    else 0
  }

  /**
   * The resting position of a slide from p over the cells a robot occupies.
   * When s is Stay the robot's own cell is among them, so the slide ends at
   * once: this is how the source's loop ends for an unrecognised direction.
   */
  function Slide(g: Grid, occupied: set<Position>, p: Position, s: Step): (r: Position)
    requires WellFormed(g) && InBounds(p) && IsStep(s)
    requires s == Stay ==> p in occupied
    ensures InBounds(r)
    ensures !CanStep(g, occupied, r, s)
    ensures r == p || r !in occupied
    decreases Remaining(p, s)
  {
    if CanStep(g, occupied, p, s) then Slide(g, occupied, Next(p, s), s) else p
  }

  /** A slide that starts on a room ends on a room. */
  lemma {:induction false} SlideKeepsRoom(g: Grid, occupied: set<Position>, p: Position, s: Step)
    requires WellFormed(g) && IsRoom(p) && IsStep(s)
    requires s == Stay ==> p in occupied
    ensures IsRoom(Slide(g, occupied, p, s))
    decreases Remaining(p, s)
  {
    if CanStep(g, occupied, p, s) {
      var n := Next(p, s);
      assert n.x % 2 == 1 && n.y % 2 == 1;
      SlideKeepsRoom(g, occupied, n, s);
    }
  }

  /** A slide keeps to the row or column of its direction and moves forward only. */
  lemma {:induction false} SlideAlongAxis(g: Grid, occupied: set<Position>, p: Position, s: Step)
    requires WellFormed(g) && InBounds(p) && IsStep(s)
    requires s == Stay ==> p in occupied
    ensures s.dx == 0 ==> Slide(g, occupied, p, s).x == p.x
    ensures s.dy == 0 ==> Slide(g, occupied, p, s).y == p.y
    ensures s.dx > 0 ==> Slide(g, occupied, p, s).x >= p.x
    ensures s.dx < 0 ==> Slide(g, occupied, p, s).x <= p.x
    ensures s.dy > 0 ==> Slide(g, occupied, p, s).y >= p.y
    ensures s.dy < 0 ==> Slide(g, occupied, p, s).y <= p.y
    decreases Remaining(p, s)
  {
    if CanStep(g, occupied, p, s) {
      SlideAlongAxis(g, occupied, Next(p, s), s);
    }
  }

  /** A committed step leaves the resting position unchanged: one turn of the source's loop. */
  lemma SlideAdvances(g: Grid, occupied: set<Position>, p: Position, s: Step)
    requires WellFormed(g) && InBounds(p) && IsStep(s)
    requires s == Stay ==> p in occupied
    requires CanStep(g, occupied, p, s)
    ensures s != Stay
    ensures Slide(g, occupied, p, s) == Slide(g, occupied, Next(p, s), s)
  {
  }

  /** The first k steps from p are all committed. */
  ghost predicate ClearRun(g: Grid, occupied: set<Position>, p: Position, s: Step, k: nat)
    requires WellFormed(g)
  {
    forall i :: 0 <= i < k ==> InBounds(Advance(p, s, i)) && CanStep(g, occupied, Advance(p, s, i), s)
  }

  /**
   * The slide ends k steps along the ray from p, every one of those steps
   * was committed (on the board, no wall crossed, no robot on the cell
   * entered), and the step after them is not.
   */
  lemma {:induction false} SlideIsFirstStop(g: Grid, occupied: set<Position>, p: Position, s: Step)
    requires WellFormed(g) && InBounds(p) && IsStep(s)
    requires s == Stay ==> p in occupied
    ensures exists k: nat :: ClearRun(g, occupied, p, s, k) && Slide(g, occupied, p, s) == Advance(p, s, k)
    decreases Remaining(p, s)
  {
    if CanStep(g, occupied, p, s) {
      var n := Next(p, s);
      SlideIsFirstStop(g, occupied, n, s);
      var k: nat :| ClearRun(g, occupied, n, s, k) && Slide(g, occupied, n, s) == Advance(n, s, k);
      forall i | 0 <= i < k + 1
        ensures InBounds(Advance(p, s, i)) && CanStep(g, occupied, Advance(p, s, i), s)
      {
        if i > 0 {
        } else {
          assert Advance(p, s, 0) == p;
        }
      }
      assert ClearRun(g, occupied, p, s, k + 1);
    } else {
      assert Advance(p, s, 0) == p;
      assert ClearRun(g, occupied, p, s, 0);
    }
  }

  /**
   * Conversely, a slide that can take k steps from p and no step after them
   * ends at the k-th: the resting position is the first blocked one.
   */
  lemma {:induction false} SlideStopsAtFirstBlock(g: Grid, occupied: set<Position>, p: Position, s: Step, k: nat)
    requires WellFormed(g) && InBounds(p) && IsStep(s)
    requires s == Stay ==> p in occupied
    requires ClearRun(g, occupied, p, s, k)
    requires InBounds(Advance(p, s, k)) && !CanStep(g, occupied, Advance(p, s, k), s)
    ensures Slide(g, occupied, p, s) == Advance(p, s, k)
    decreases k
  {
    if k == 0 {
      assert Advance(p, s, 0) == p;
    } else {
      assert Advance(p, s, 0) == p;
      var n := Next(p, s);
      forall i | 0 <= i < k - 1
        ensures InBounds(Advance(n, s, i)) && CanStep(g, occupied, Advance(n, s, i), s)
      {
        assert Advance(p, s, i + 1) == Advance(n, s, i);
      }
      assert Advance(p, s, k) == Advance(n, s, k - 1);
      SlideStopsAtFirstBlock(g, occupied, n, s, k - 1);
    }
  }

  /** The cells the robots stand on, the moving robot's own included. */
  function Occupied(robots: map<string, Robot>): (cells: set<Position>)
    ensures forall c :: c in robots ==> robots[c].pos in cells
  {
    set c | c in robots :: robots[c].pos
  }

  /**
   * The collision scan over every robot: whether any robot stands on n.
   * Map iteration order is unspecified, so any order of visiting is taken.
   */
  method Collides(robots: map<string, Robot>, n: Position) returns (collision: bool)
    ensures collision <==> n in Occupied(robots)
  {
    collision := false;
    var unvisited := robots.Keys;
    while unvisited != {}
      invariant unvisited <= robots.Keys
      invariant forall c :: c in robots && c !in unvisited ==> robots[c].pos != n
      decreases unvisited
    {
      var c :| c in unvisited;
      if robots[c].pos == n {
        collision := true;
        break;
      }
      unvisited := unvisited - {c};
    }
  }

  /**
   * The robots map after moving the robot of the given colour: an unknown
   * colour changes nothing; otherwise only that robot's position changes.
   */
  function Move(g: Grid, robots: map<string, Robot>, color: string, direction: string): (moved: map<string, Robot>)
    requires WellFormed(g)
    requires color in robots ==> InBounds(robots[color].pos)
    ensures color !in robots ==> moved == robots
    ensures moved.Keys == robots.Keys
    ensures forall c :: c in robots && c != color ==> moved[c] == robots[c]
    ensures color in robots ==> moved[color].color == robots[color].color
  {
    if color !in robots then robots
    else
      var robot := robots[color];
      robots[color := robot.(pos := Slide(g, Occupied(robots), robot.pos, StepOf(direction)))]
  }

  /** Move written out for a known colour whose slide ends at rest. */
  lemma MoveRestsAt(g: Grid, robots: map<string, Robot>, color: string, direction: string, rest: Position)
    requires WellFormed(g)
    requires color in robots && InBounds(robots[color].pos)
    requires rest == Slide(g, Occupied(robots), robots[color].pos, StepOf(direction))
    ensures Move(g, robots, color, direction) == robots[color := robots[color].(pos := rest)]
  {
  }

  /** The moved robot ends on the board; if it started on a room it ends on a room in the same row or column. */
  lemma MoveStaysOnAxis(g: Grid, robots: map<string, Robot>, color: string, direction: string)
    requires WellFormed(g)
    requires color in robots && InBounds(robots[color].pos)
    ensures var p, r := robots[color].pos, Move(g, robots, color, direction)[color].pos;
      && InBounds(r)
      && (IsRoom(p) ==> IsRoom(r))
      && (StepOf(direction).dx == 0 ==> r.x == p.x)
      && (StepOf(direction).dy == 0 ==> r.y == p.y)
  {
    var p, s := robots[color].pos, StepOf(direction);
    SlideAlongAxis(g, Occupied(robots), p, s);
    if IsRoom(p) {
      SlideKeepsRoom(g, Occupied(robots), p, s);
    }
  }

  /** An unrecognised direction leaves every robot where it is. */
  lemma MoveUnknownDirection(g: Grid, robots: map<string, Robot>, color: string, direction: string)
    requires WellFormed(g)
    requires color in robots ==> InBounds(robots[color].pos)
    requires StepOf(direction) == Stay
    ensures Move(g, robots, color, direction) == robots
  {
    if color in robots {
      var robot := robots[color];
      assert !CanStep(g, Occupied(robots), robot.pos, Stay);
      assert robot.(pos := robot.pos) == robot;
    }
  }

  /** Moving keeps the placement invariant: colours as keys, every robot on an open room. */
  lemma MoveKeepsPlaced(g: Grid, robots: map<string, Robot>, color: string, direction: string)
    requires WellFormed(g)
    requires RobotsPlaced(robots)
    ensures RobotsPlaced(Move(g, robots, color, direction))
  {
    if color in robots {
      var p := robots[color].pos;
      SlideKeepsRoom(g, Occupied(robots), p, StepOf(direction));
      NoRoomIsWall(Move(g, robots, color, direction)[color].pos);
    }
  }

  /** Moving keeps robots on distinct cells. */
  lemma MoveKeepsDistinct(g: Grid, robots: map<string, Robot>, color: string, direction: string)
    requires WellFormed(g)
    requires color in robots ==> InBounds(robots[color].pos)
    requires DistinctPositions(robots)
    ensures DistinctPositions(Move(g, robots, color, direction))
  {
  }

  /**
   * A second slide from the resting cell in the same direction goes nowhere,
   * as long as every cell occupied before, apart from the start, is still
   * occupied, and the resting cell is now occupied.
   */
  lemma SlideRestsAgain(g: Grid, occupied: set<Position>, occupied': set<Position>, p: Position, s: Step)
    requires WellFormed(g) && InBounds(p) && IsStep(s)
    requires s == Stay ==> p in occupied
    requires occupied - {p} <= occupied'
    requires Slide(g, occupied, p, s) in occupied'
    ensures Slide(g, occupied', Slide(g, occupied, p, s), s) == Slide(g, occupied, p, s)
  {
    var r := Slide(g, occupied, p, s);
    var n := Next(r, s);
    SlideAlongAxis(g, occupied, p, s);
    assert s != Stay ==> n != p;
    assert !CanStep(g, occupied', r, s);
  }

  /** Moving the same robot the same way a second time changes nothing. */
  lemma MoveIdempotent(g: Grid, robots: map<string, Robot>, color: string, direction: string)
    requires WellFormed(g)
    requires color in robots ==> InBounds(robots[color].pos)
    ensures var moved := Move(g, robots, color, direction);
      Move(g, moved, color, direction) == moved
  {
    if color in robots {
      var moved := Move(g, robots, color, direction);
      var p, s := robots[color].pos, StepOf(direction);
      var occupied, occupied' := Occupied(robots), Occupied(moved);
      forall q | q in occupied - {p}
        ensures q in occupied'
      {
        var c :| c in robots && robots[c].pos == q;
        assert moved[c] == robots[c];
      }
      var r := Slide(g, occupied, p, s);
      assert moved[color] == robots[color].(pos := r);
      assert r in occupied';
      SlideRestsAgain(g, occupied, occupied', p, s);
      assert Slide(g, occupied', moved[color].pos, s) == moved[color].pos;
      assert moved[color].(pos := moved[color].pos) == moved[color];
      assert moved[color := moved[color]] == moved;
    }
  }
}

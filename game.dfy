/**
 * The game state and the three operations that change it: building the
 * board, placing the robots and the target, and moving a robot.
 */
module Game {
  import opened Grid
  import opened BoardLayout
  import opened Placement
  import opened Movement

  class GameState {
    /** Board[y][x].IsWall; a fixed-size array that is never replaced. */
    const board: array2<bool>
    /** The robots, keyed by colour. */
    var robots: map<string, Robot>
    var target: Position

    ghost predicate Valid()
    {
      board.Length0 == GridSize && board.Length1 == GridSize
    }

    /** The board as a grid value, for the movement specification. */
    ghost function Cells(): (g: Grid)
      requires Valid()
      reads board
      ensures WellFormed(g)
      ensures forall y, x {:trigger g[y][x]} :: 0 <= y < GridSize && 0 <= x < GridSize ==> g[y][x] == board[y, x]
    {
      seq(GridSize, y requires 0 <= y < GridSize reads board =>
        seq(GridSize, x requires 0 <= x < GridSize reads board => board[y, x]))
    }

    /** The board is the one initializeGame builds. */
    ghost predicate BoardBuilt()
      requires Valid()
      reads board
    {
      forall y, x :: 0 <= y < GridSize && 0 <= x < GridSize ==> board[y, x] == InitialWall(x, y)
    }

    /** The state after initialization: built board, four robots and the target on open rooms. */
    ghost predicate Placed()
      requires Valid()
      reads this, board
    {
      BoardBuilt() && RobotsPlaced(robots) && OpenRoom(target)
    }

    /** The zero value of the game: no walls, no robots, the target at (0, 0). */
    constructor ()
      ensures Valid() && fresh(board)
      ensures forall y, x :: 0 <= y < GridSize && 0 <= x < GridSize ==> !board[y, x]
      ensures robots == map[] && target == Position(0, 0)
    {
      board := new bool[GridSize, GridSize]((y, x) => false);
      robots := map[];
      target := Position(0, 0);
    }

    /** Fills the board: the outer ring is wall, every other cell open, then the listed walls are set. */
    method InitBoard()
      requires Valid()
      modifies board
      ensures BoardBuilt()
    {
      for y := 0 to GridSize
        invariant forall yy, xx :: 0 <= yy < y && 0 <= xx < GridSize ==> board[yy, xx] == OnRing(xx, yy)
      {
        for x := 0 to GridSize
          invariant forall yy, xx :: 0 <= yy < y && 0 <= xx < GridSize ==> board[yy, xx] == OnRing(xx, yy)
          invariant forall xx :: 0 <= xx < x ==> board[y, xx] == OnRing(xx, y)
        {
          if x == 0 || x == GridSize - 1 || y == 0 || y == GridSize - 1 {
            board[y, x] := true;
          } else if x % 2 == 0 || y % 2 == 0 {
            board[y, x] := false;
          } else {
            board[y, x] := false;
          }
        }
      }
      forall w | w in CenterWalls
        ensures InBounds(w)
      {
        CenterWallBetweenRooms(w);
      }
      SetWalls(CenterWalls);
      forall y, x | 0 <= y < GridSize && 0 <= x < GridSize
        ensures board[y, x] == InitialWall(x, y)
      {
        ListedIsIn(CenterWalls, Position(x, y));
      }
    }

    /** The loop over centerWalls: every listed cell becomes a wall, every other cell keeps its value. */
    method SetWalls(walls: seq<Position>)
      requires Valid()
      requires forall w :: w in walls ==> InBounds(w)
      modifies board
      ensures forall y, x :: 0 <= y < GridSize && 0 <= x < GridSize ==>
        board[y, x] == (old(board[y, x]) || Position(x, y) in walls)
    {
      for i := 0 to |walls|
        invariant forall y, x :: 0 <= y < GridSize && 0 <= x < GridSize ==>
          board[y, x] == (old(board[y, x]) || Position(x, y) in walls[..i])
      {
        var w := walls[i];
        assert w in walls;
        board[w.y, w.x] := true;
        assert walls[..i + 1] == walls[..i] + [w];
      }
      assert walls[..|walls|] == walls;
    }

    /**
     * Places the robots, in the order of Colors, and then the target, each
     * on the room its draw selects. The robots map is made afresh.
     */
    method PlaceEntities(robotDraws: seq<Draw>, targetDraw: Draw)
      requires Valid() && BoardBuilt()
      requires |robotDraws| == |Colors|
      modifies this`robots, this`target
      ensures robots == PlacedRobots(robotDraws)
      ensures target == DrawnRoom(targetDraw)
      ensures Placed()
    {
      robots := map[];
      for i := 0 to |Colors|
        invariant robots == PlacedAfter(robotDraws, i)
      {
        var color := Colors[i];
        var p := DrawnRoom(robotDraws[i]);
        // The source draws again while the cell is a wall; the first draw never is.
        FirstDrawAccepted(robotDraws[i]);
        assert !board[p.y, p.x];
        robots := robots[color := Robot(color, p)];
      }
      var p := DrawnRoom(targetDraw);
      FirstDrawAccepted(targetDraw);
      assert !board[p.y, p.x];
      target := p;
    }

    /** initializeGame: builds the board, then places the robots and the target. */
    method Initialize(robotDraws: seq<Draw>, targetDraw: Draw)
      requires Valid()
      requires |robotDraws| == |Colors|
      modifies board, this`robots, this`target
      ensures Placed()
      ensures robots == PlacedRobots(robotDraws)
      ensures target == DrawnRoom(targetDraw)
    {
      InitBoard();
      PlaceEntities(robotDraws, targetDraw);
    }

    /**
     * The loop of moveRobot: from a cell on the board, advances the local
     * position (x, y) one step at a time until the next step is off the
     * board, crosses a wall or enters a cell some robot stands on.
     */
    method SlideFrom(from: Position, step: Step) returns (rest: Position)
      requires Valid() && InBounds(from) && IsStep(step)
      requires step == Stay ==> from in Occupied(robots)
      ensures rest == Slide(Cells(), Occupied(robots), from, step)
    {
      ghost var g, occupied := Cells(), Occupied(robots);
      var x, y := from.x, from.y;
      var dx, dy := step.dx, step.dy;
      while true
        invariant InBounds(Position(x, y))
        invariant step == Stay ==> Position(x, y) == from
        invariant Slide(g, occupied, Position(x, y), step) == Slide(g, occupied, from, step)
        decreases Remaining(Position(x, y), step)
      {
        var nx, ny := x + dx, y + dy;
        ghost var here, next := Position(x, y), Position(nx, ny);
        assert next == Next(here, step);
        if nx < 0 || ny < 0 || nx >= GridSize || ny >= GridSize {
          assert !CanStep(g, occupied, here, step);
          break;
        }
        var wx, wy := (x + nx) / 2, (y + ny) / 2;
        assert Position(wx, wy) == Midpoint(here, next);
        assert IsWall(g, Position(wx, wy)) == board[wy, wx];
        if board[wy, wx] {
          assert !CanStep(g, occupied, here, step);
          break;
        }
        var collision := Collides(robots, Position(nx, ny));
        if collision {
          assert !CanStep(g, occupied, here, step);
          break;
        }
        assert CanStep(g, occupied, here, step);
        SlideAdvances(g, occupied, here, step);
        x, y := nx, ny;
      }
      assert !CanStep(g, occupied, Position(x, y), step);
      rest := Position(x, y);
    }

    /**
     * moveRobot: slides the robot of the given colour in the given
     * direction. An unknown colour leaves the state alone; otherwise only
     * that robot's position changes, to the resting cell of the slide over
     * the cells all robots (itself included) occupied when the move began.
     */
    method MoveRobot(robotColor: string, direction: string)
      requires Valid()
      requires robotColor in robots ==> InBounds(robots[robotColor].pos)
      modifies this`robots
      ensures robots == Move(Cells(), old(robots), robotColor, direction)
      ensures old(Placed()) ==> Placed()
      ensures DistinctPositions(old(robots)) ==> DistinctPositions(robots)
    {
      if robotColor !in robots {
        // the source prints a notice and returns
        return;
      }
      ghost var g := Cells();
      if DistinctPositions(robots) {
        MoveKeepsDistinct(g, robots, robotColor, direction);
      }
      if RobotsPlaced(robots) {
        MoveKeepsPlaced(g, robots, robotColor, direction);
      }
      var robot := robots[robotColor];
      assert robot.pos in Occupied(robots);
      var rest := SlideFrom(robot.pos, StepOf(direction));
      MoveRestsAt(g, robots, robotColor, direction, rest);
      robots := robots[robotColor := robot.(pos := rest)];
    }
  }
}

/**
 * The board layout that initializeGame builds: the outer ring of walls and a
 * fixed list of interior walls (centerWalls), each sitting between two rooms.
 */
module BoardLayout {
  import opened Grid

  /** The outer ring: x or y is 0 or GridSize - 1. */
  predicate OnRing(x: int, y: int)
  {
    x == 0 || x == GridSize - 1 || y == 0 || y == GridSize - 1
  }

  /** Interior walls between two rooms side by side (even X, odd Y), as listed first in the source. */
  const WallsBetweenColumns: seq<Position> := [
    Position(12, 1), Position(20, 1), Position(28, 3), Position(6, 5), Position(22, 5),
    Position(10, 7), Position(6, 9), Position(10, 11), Position(28, 13), Position(22, 15),
    Position(22, 19), Position(8, 21), Position(12, 23), Position(30, 23), Position(4, 25),
    Position(18, 25), Position(8, 27), Position(26, 29), Position(8, 31), Position(28, 31)
  ]

  /** Interior walls between two rooms one above the other (odd X, even Y), listed second. */
  const WallsBetweenRows: seq<Position> := [
    Position(29, 2), Position(7, 4), Position(23, 6), Position(1, 8), Position(5, 8),
    Position(11, 8), Position(31, 8), Position(9, 12), Position(21, 14), Position(27, 14),
    Position(1, 20), Position(23, 20), Position(31, 20), Position(7, 22), Position(11, 22),
    Position(29, 22), Position(19, 24), Position(5, 26), Position(9, 26), Position(25, 30)
  ]

  /** The blockade around the four centre rooms, listed last. */
  const CentreBlockade: seq<Position> := [
    Position(14, 15), Position(14, 17), Position(18, 15), Position(18, 17),
    Position(15, 14), Position(17, 14), Position(15, 18), Position(17, 18)
  ]

  /** The whole list the source calls centerWalls, in its order. */
  const CenterWalls: seq<Position> := WallsBetweenColumns + WallsBetweenRows + CentreBlockade

  /** Whether p occurs in walls, looked up one entry at a time. */
  predicate Listed(walls: seq<Position>, p: Position)
    decreases |walls|
  {
    |walls| > 0 && (walls[0] == p || Listed(walls[1..], p))
  }

  /** The entry-by-entry lookup agrees with sequence membership. */
  lemma {:induction false} ListedIsIn(walls: seq<Position>, p: Position)
    ensures Listed(walls, p) <==> p in walls
    decreases |walls|
  {
    if |walls| > 0 {
      ListedIsIn(walls[1..], p);
      assert walls == [walls[0]] + walls[1..];
    }
  }

  /** Whether cell (x, y) is a wall once the board has been built. */
  predicate InitialWall(x: int, y: int)
  {
    OnRing(x, y) || Listed(CenterWalls, Position(x, y))
  }

  /** A wall cell strictly inside the outer ring with exactly one even coordinate. */
  predicate BetweenRooms(w: Position)
  {
    0 < w.x < GridSize - 1 && 0 < w.y < GridSize - 1 && (w.x % 2 == 0) != (w.y % 2 == 0)
  }

  lemma ColumnWallsBetweenRooms()
    ensures forall i :: 0 <= i < |WallsBetweenColumns| ==>
      BetweenRooms(WallsBetweenColumns[i]) && WallsBetweenColumns[i].x % 2 == 0
  {
  }

  lemma RowWallsBetweenRooms()
    ensures forall i :: 0 <= i < |WallsBetweenRows| ==>
      BetweenRooms(WallsBetweenRows[i]) && WallsBetweenRows[i].y % 2 == 0
  {
  }

  lemma BlockadeBetweenRooms()
    ensures forall i :: 0 <= i < |CentreBlockade| ==> BetweenRooms(CentreBlockade[i])
  {
  }

  /**
   * Every listed wall lies strictly inside the outer ring and has exactly one
   * even coordinate: it is the wall cell between two horizontally or
   * vertically adjacent rooms.
   */
  lemma CenterWallBetweenRooms(w: Position)
    requires w in CenterWalls
    ensures BetweenRooms(w)
  {
    ColumnWallsBetweenRooms();
    RowWallsBetweenRooms();
    BlockadeBetweenRooms();
  }

  /** No room cell is a wall on the built board. */
  lemma NoRoomIsWall(p: Position)
    requires IsRoom(p)
    ensures !InitialWall(p.x, p.y)
  {
    ListedIsIn(CenterWalls, p);
    if p in CenterWalls {
      CenterWallBetweenRooms(p);
    }
  }

  /**
   * On the built board the outer ring is wall, and an interior cell is a wall
   * exactly when it is listed; no listed wall is on the ring.
   */
  lemma InitialLayout(x: int, y: int)
    requires 0 <= x < GridSize && 0 <= y < GridSize
    ensures OnRing(x, y) ==> InitialWall(x, y) && Position(x, y) !in CenterWalls
    ensures !OnRing(x, y) ==> (InitialWall(x, y) <==> Position(x, y) in CenterWalls)
  {
    ListedIsIn(CenterWalls, Position(x, y));
    if Position(x, y) in CenterWalls {
      CenterWallBetweenRooms(Position(x, y));
    }
  }
}

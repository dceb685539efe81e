# Ricochet Robots board, placement and movement

This project models the game core of a small Go Ricochet Robots program and
proves properties of that model. The program lives in `main.go`. It uses a
33 × 33 grid. A cell with both coordinates odd is a *room*, where a robot can
stand. Every other cell is a *wall cell* between rooms, or part of the outer
ring.

The model covers three parts of the program:

- **Board construction** (`initializeGame`). Nested loops make the outer
  ring wall and every interior cell open. A fixed list (`centerWalls`) of
  interior cells is then set to wall.
- **Entity placement** (`initializeGame`). The robots R, B, G and Y, and
  then the target, are each placed on the room selected by a pair of random
  draws. A draw that lands on a wall is retried.
- **Movement** (`moveRobot`). A robot slides two cells at a time until one
  of three things happens: the next room is off the board, the cell in
  between is a wall, or any robot stands on the next room.

Modules:

- `Grid` (grid.dfy) holds positions, robots and the row-major grid view
  `g[y][x]`.
- `BoardLayout` (board.dfy) holds the ring and the wall list, with its
  geometry.
- `Placement` (placement.dfy) holds draws and the robots map the placement
  loop builds.
- `Movement` (movement.dfy) holds the slide as a recursive function `Slide`,
  and the move as a map update `Move`. It also has the collision scan as a
  method, plus lemmas relating them. Among these are the characterization of
  the resting cell as the first blocked step, idempotence and the invariants
  a move keeps.
- `Game` (game.dfy) holds the `GameState` class in the source's form:
  - `board` is an `array2<bool>` filled by nested loops;
  - `robots` is a `map<string, Robot>`;
  - `target` is a position.

  The methods `InitBoard`, `SetWalls`, `PlaceEntities`, `Initialize`,
  `SlideFrom` and `MoveRobot` carry the source's loops. Each is proved
  against the functions of the modules above.
- `Scenarios` (scenarios.dfy) holds concrete slides on a board with only the
  outer ring.

Random numbers are parameters. A `Draw(ix, iy)` is the pair of values
`rand.Intn(GRID_SIZE / 2)` returned for one placement attempt. The retry loop
needs no model, because the first attempt is provably always accepted.

The model follows main.go as written:

- The wall list at main.go:54-56 has 48 entries: 20 on line 54, 20 on
  line 55 and the 8-entry centre blockade on line 56. Line 53 is a comment
  and contributes nothing.
- Placement (main.go:67-86) has no distinctness check: robots may share a
  room with each other or with the target.
- The collision scan at main.go:163-168 covers every robot, the moving one
  included.
- The wall layout is fixed; nothing in main.go permutes or transforms it.

## Model

| member | source | states |
|---|---|---|
| BoardLayout.ListedIsIn | main.go:58-60 | Membership in the wall list, looked up entry by entry, is exactly sequence membership; this is the form the board invariant uses |
| BoardLayout.CenterWallBetweenRooms | main.go:54-56 | Every listed wall lies strictly inside the outer ring and has exactly one even coordinate, so it sits between two adjacent rooms |
| BoardLayout.NoRoomIsWall | main.go:38-60 | No room (odd, odd) is a wall on the built board: not on the ring and not in the list |
| BoardLayout.InitialLayout | main.go:38-60 | On the built board every ring cell is wall and none of them is listed; an interior cell is wall exactly when it is in centerWalls |
| Placement.DrawnRoom | main.go:69 | The cell a draw selects, `ix*2+1, iy*2+1`, is always a room |
| Placement.DrawnRoomInjective | main.go:69 | Different index pairs select different rooms |
| Placement.DrawFor | main.go:69 | Every room is selected by some draw: DrawnRoom is onto the rooms |
| Placement.FirstDrawAccepted | main.go:69-71 | The wall check at the retry loop never rejects: the first drawn cell is never a wall on the built board (the same holds for the target draw at lines 80-82) |
| Placement.PlacedRobots | main.go:63-76 | After the colour loop, the keys are exactly R, B, G and Y. Each robot's colour equals its key and it stands on an open room. The robot for the i-th colour is on the room of the i-th draw |
| Placement.PlacementMayStack | main.go:67-86 | Placement has no distinctness check: four equal draws stack all robots on one cell |
| Movement.StepOf | main.go:133-144 | The direction switch: up, down, left and right give the step with the matching sign on the matching axis, and any other name gives dx = dy = 0 |
| Movement.Slide | main.go:147-175 | The resting cell is on the board and the step from it is not committed: off the board, a wall in between, or a robot on the next cell. The slide leaves the start only for a cell no robot occupies |
| Movement.SlideKeepsRoom | main.go:147-175 | A slide from a room ends on a room, since each step moves by two cells |
| Movement.SlideAlongAxis | main.go:147-175 | The slide stays in the row (column) of a horizontal (vertical) step and never moves backwards |
| Movement.SlideIsFirstStop | main.go:147-175 | The resting cell is k steps along the ray, for some k. Each of those steps was committed: in bounds, no wall midpoint crossed, no robot on the cell entered |
| Movement.SlideStopsAtFirstBlock | main.go:147-175 | Conversely, if k steps can be committed and step k+1 cannot, the slide ends after exactly k steps |
| Movement.Collides | main.go:162-168 | The collision scan reports true exactly when some robot, the mover included, stands on the next cell, whatever the map's iteration order |
| Movement.Move | main.go:125-179 | An unknown colour changes nothing. Otherwise the keys are the same, every other robot is unchanged, and the moved robot keeps its colour |
| Movement.MoveStaysOnAxis | main.go:147-178 | The moved robot ends on the board. If it started on a room it ends on a room, and it moves only along the axis of its direction |
| Movement.MoveUnknownDirection | main.go:135-171 | An unrecognised direction leaves every robot in place: the loop ends at once because the mover collides with itself |
| Movement.MoveKeepsPlaced | main.go:125-179 | Moving keeps the placement invariant: the four colours as keys, colour equal to key, every robot on an open room |
| Movement.MoveKeepsDistinct | main.go:162-178 | If no two robots shared a cell before a move, none do after it |
| Movement.SlideRestsAgain | main.go:147-175 | From the resting cell, with the mover now standing there, a second slide in the same direction does not move |
| Movement.MoveIdempotent | main.go:125-179 | Repeating the same move right away changes nothing |
| Game.GameState.constructor | main.go:27-33 | The zero value of the global game: a fresh 33 × 33 board with every cell open, an empty robots map and the target at (0, 0) |
| Game.GameState.InitBoard | main.go:38-60 | After the fill loops and the wall loop, every cell of the array equals the built layout (InitialWall) |
| Game.GameState.SetWalls | main.go:58-60 | Each listed cell becomes wall and every other cell keeps its value |
| Game.GameState.PlaceEntities | main.go:62-86 | The robots map is exactly the one PlacedRobots gives for the draws, and the target is the room of its draw. The placement invariant holds afterwards |
| Game.GameState.Initialize | main.go:36-89 | initializeGame: the built board, the robots from the draws and the target from its draw |
| Game.GameState.SlideFrom | main.go:147-175 | The loop over the local (x, y) ends at exactly the resting cell Slide describes, checking the array and scanning the robots |
| Game.GameState.MoveRobot | main.go:125-179 | The new robots map is Move of the old one on the current board; the placement invariant and pairwise-distinct positions are preserved. Only `robots` may change |
| Scenarios.SlideToRing | main.go:147-175 | On a board with only the outer ring, sliding right with nothing ahead in the row stops on x = 31, the last room before the ring |
| Scenarios.MoveToRing | main.go:125-179 | A lone robot moving right on that board ends at x = 31 on its row |
| Scenarios.SlideBeforeRobot | main.go:147-175 | Sliding right toward a robot two rooms ahead stops on the room between them |
| Scenarios.StopBeforeRobot | main.go:125-179 | R moving right toward B two rooms ahead stops next to B |

## Left out

- `printBoard` (main.go:92-122) is console output and is not modelled.
- `main` (main.go:181-199) is a fixed demo sequence of calls and is not modelled.
- `rand.Seed` and `rand.Intn`: the random source is replaced by caller-supplied `Draw` values in 0..15.
- The retry loops at main.go:68-75 and main.go:79-86 are not run as unbounded loops: FirstDrawAccepted proves that the first draw is taken.
- The `fmt.Println` messages (main.go:88, main.go:128) have no effect on the state and are not modelled.
- Movement.Move and Game.GameState.MoveRobot require the moving robot to start on the board. The source does not check this. From some such starts (e.g. x = -2 moving right) the midpoint index is -1 and Go panics; from others the loop stops at once. Every robot the program moves was placed on a room.
- Game.GameState.MoveRobot states the unchanged board and target through its `modifies` clause (only `robots`), not through a separate postcondition.
- The Go `Cell` struct with its single `IsWall` field is modelled as a `bool` per cell.
- Map iteration order in the collision scan is left unspecified. Collides holds for every order.

# Verified model of three small robotics and puzzle programs

This project is a Dafny model of the algorithmic core of three programs from
the `python-projects` repository, with proofs of what each part promises.

- **Maze-solving bot simulator** (`maze-solving-bot-simulator/`). A robot
  on an N x N tile maze keeps its pose: a cell and a heading in 0..3, turned
  by +1 or -1 modulo 4. It explores the maze in one of three ways:
  - a depth-first explorer with an explicit backtracking stack, which
    records the open sides as a symmetric graph; a breadth-first labelling
    from the ground-marker cell and a greedy descent along strictly smaller
    labels then plan the route back;
  - a flood-fill re-planner that records sensed walls, recomputes the whole
    distance grid after every move and steps to the best neighbour, shuttling
    between the centre and the start. It exists in a tuple-cell form and in a
    flat-index form whose walls are integer codes of cell pairs;
  - right-hand-rule controllers.

  The simulated robot and vehicle (ray-walking distance sensors, bounded
  steps, a remember-flag traversal), the `Point` arithmetic and the
  depth-first search demos belong to the same model.
- **Escape-room terminals** (`decrypt-escape-room-terminal/serverhack.py`
  and `terminal.py`). An in-memory folder tree with `get_file` (including
  "." and ".."), `cd`, which enters folders only, a recursive `path()`, a
  sorted (serverhack) or newline-joined (terminal) listing, and zip
  extraction into a new folder. A shell loop parses each line into a command
  and an argument and appends downloaded or extracted entries to the
  current folder.
- **Piano-tile bot** (`piano-tile-bot/user/userlogic.py`). `detect_line`
  scans one row of a colour mask for white runs, with a gap tolerance, and
  returns the segments and their midpoints. The loops of `detect_buttons`
  group template-match points by row, pair them with play points and choose
  the topmost.

Code that updates objects in place is modelled with Dafny classes, and loops
are methods whose loop invariants are proved:
- the scripts' pose fields;
- the explorer's stack, visited set and graph;
- the flood grids: an array of arrays, or one flat array;
- the folders' entry lists;
- the shells' current folder.

Each such method is specified by functions, and the properties of those
functions are proved as lemmas. Pure code (direction arithmetic, `Point`,
wall codes, tokenising) is modelled as functions and lemmas.

| module | file | models |
|---|---|---|
| `Wrappers` | wrappers.dfy | `Option` and `Result` |
| `SetLemmas` | sets.dfy | cardinality facts for termination measures |
| `Datatypes` | datatypes.dfy | direction and status codes, tiles in a direction, `Point` |
| `Pose` | pose.dfy | the tuple-cell base scripts |
| `FlatPose` | flat_pose.dfy | the flat-index base script |
| `MazeGraph` | maze_graph.dfy | the adjacency dictionary of sets |
| `RightHandRule` | right_hand_rule.dfy | both right-hand-rule controllers |
| `Robots` | robot.dfy | robot.py |
| `Vehicles` | vehicle.dfy | vehicle.py |
| `Planner` | planner.dfy | `bfs`, `shortest_path`, `go_to_center` |
| `DepthFirst` | depth_first.dfy | both depth-first explorer scripts |
| `DfsDemos` | dfs.dfy | test.py and test/algo.py |
| `FloodFill` | flood_fill.dfy | scripts/flood_fill.py |
| `OptimizedFloodFill` | optimized_flood_fill.dfy | optimized/optimized_flood_fill.py |
| `CommandLine` | command_line.dfy | line stripping and tokenising in both shells |
| `Vfs` | vfs.dfy | folders and files of both shells |
| `ServerHack` | serverhack.dfy | the serverhack.py session |
| `Terminal` | terminal.dfy | the terminal.py session |
| `PianoTiles` | piano.dfy | userlogic.py |

Sensors, key presses, the log text read from disk and the random picks of
`generateRandomString` are parameters of the operations that use them.

## Model

| member | source | states |
|---|---|---|
| Datatypes.StatusCodesDistinct | maze-solving-bot-simulator/datatypes.py:1-15 | the four directions and the two run-status codes are distinct, and a direction is exactly one of NORTH, EAST, SOUTH, WEST |
| Datatypes.RightOf | maze-solving-bot-simulator/scripts/base_script.py:27-31 | `(d + 1) % 4` is a direction, different from `d` |
| Datatypes.LeftOf | maze-solving-bot-simulator/scripts/base_script.py:33-37 | `(d - 1) % 4` (Python's floored modulo) is a direction, different from `d` and from its right |
| Datatypes.Behind | maze-solving-bot-simulator/scripts/base_script.py:57-61 | two right turns face a third direction, different from the front, right and left |
| Datatypes.RightLeftInverse | maze-solving-bot-simulator/scripts/base_script.py:27-37 | a right turn undoes a left turn and vice versa (modulo 4) |
| Datatypes.FourRightTurns | maze-solving-bot-simulator/scripts/base_script.py:27-37 | four right turns are the identity; two right turns and two left turns both face behind |
| Datatypes.TileInDirection | maze-solving-bot-simulator/scripts/base_script.py:87-99 | for a direction the result is the adjacent cell on that axis; any other value leaves the cell unchanged |
| Datatypes.StepBackReturns | maze-solving-bot-simulator/scripts/base_script.py:87-99 | a step in `d` followed by a step in the direction behind returns to the start |
| Datatypes.NeighbourIsOneOfFour | maze-solving-bot-simulator/scripts/base_script.py:87-99 | every adjacent cell is the front, right, left or rear tile for any heading |
| Datatypes.Trunc | maze-solving-bot-simulator/datatypes.py:49-53 | Python's `int()` on a number: truncation toward zero |
| Datatypes.Negated | maze-solving-bot-simulator/datatypes.py:26-37 | negating an operand keeps its kind and its length |
| Datatypes.Addition | maze-solving-bot-simulator/datatypes.py:26-37 | raises IndexError exactly for a tuple or list shorter than two; an unsupported operand gives the point back |
| Datatypes.StrictAddition | maze-solving-bot-simulator/point.py:11-31 | raises ValueError exactly for an unsupported operand and IndexError exactly for a short sequence |
| Datatypes.StrictAgreesExceptUnsupported | maze-solving-bot-simulator/point.py:11-31 | the point.py helper agrees with the datatypes.py one on every operand except an unsupported one |
| Datatypes.StrictAddSubRoundTrip | maze-solving-bot-simulator/point.py:33-57 | in point.py, `(p + v) - v == p` whenever `p + v` does not raise, and `p - v == p + (-v)` |
| Datatypes.Iter | maze-solving-bot-simulator/datatypes.py:49-53 | the yielded integers are no larger in magnitude than the coordinates |
| Datatypes.AddSubRoundTrip | maze-solving-bot-simulator/datatypes.py:39-47 | `(p + v) - v == p` whenever `p + v` does not raise |
| Datatypes.SubIsAddNegated | maze-solving-bot-simulator/datatypes.py:39-47 | `p - v == p + (-v)` for every operand |
| Datatypes.AddPointsCommutes | maze-solving-bot-simulator/datatypes.py:34-42 | adding two points is commutative |
| Pose.Forward | maze-solving-bot-simulator/scripts/base_script.py:39-43 | a step keeps the heading and moves to an adjacent cell; an invalid heading leaves the cell unchanged |
| Pose.TurnedRight | maze-solving-bot-simulator/scripts/base_script.py:27-31 | a right turn stays in the cell and yields a valid heading |
| Pose.TurnedLeft | maze-solving-bot-simulator/scripts/base_script.py:33-37 | a left turn stays in the cell and yields a valid heading |
| Pose.TurnsAreInverse | maze-solving-bot-simulator/scripts/base_script.py:27-37 | right and left turns undo each other, and four right turns change nothing |
| Pose.ToRight | maze-solving-bot-simulator/scripts/base_script.py:47-50 | go_to_right lands on the tile to the right of the starting pose and faces right |
| Pose.ToLeft | maze-solving-bot-simulator/scripts/base_script.py:52-55 | go_to_left lands on the tile to the left of the starting pose and faces left |
| Pose.Backward | maze-solving-bot-simulator/scripts/base_script.py:57-61 | go_backward lands on the tile behind the starting pose and faces back |
| Pose.Sensed | maze-solving-bot-simulator/scripts/base_script.py:67-77 | each side is reported walled exactly when its sensor reading is shorter than the cell side |
| Pose.BackwardTwiceRestores | maze-solving-bot-simulator/scripts/base_script.py:57-61 | going backward twice restores the pose |
| Pose.UserPressedExitStatus | maze-solving-bot-simulator/base_script.py:116-123 | STOP_SIMULATION exactly when the key is Escape (27), RESUME_SIMULATION otherwise |
| Pose.UserPressedExit | maze-solving-bot-simulator/base.py:102-108 | true exactly when the key is Escape |
| Pose.UserScript.Setup | maze-solving-bot-simulator/scripts/base_script.py:133-139 | start (0, 0), cell (0, 0), heading NORTH, 100 ms between frames |
| Pose.UserScript.Loop | maze-solving-bot-simulator/scripts/base_script.py:141-144 | the default hook reports RESUME_SIMULATION |
| Pose.UserScript.TurnRight | maze-solving-bot-simulator/scripts/base_script.py:27-31 | the new pose is the right turn of the old one, with one screen refresh |
| Pose.UserScript.TurnLeft | maze-solving-bot-simulator/scripts/base_script.py:33-37 | the new pose is the left turn of the old one, with one screen refresh |
| Pose.UserScript.GoForward | maze-solving-bot-simulator/scripts/base_script.py:39-43 | the new pose is one step forward, with one screen refresh |
| Pose.UserScript.GoToRight | maze-solving-bot-simulator/scripts/base_script.py:47-50 | the new pose is the right tile facing right, with two refreshes |
| Pose.UserScript.GoToLeft | maze-solving-bot-simulator/scripts/base_script.py:52-55 | the new pose is the left tile facing left, with two refreshes |
| Pose.UserScript.GoBackward | maze-solving-bot-simulator/scripts/base_script.py:57-61 | the new pose is the rear tile facing back, with three refreshes |
| FlatPose.GetY | maze-solving-bot-simulator/optimized/optimized_base_script.py:68-69 | the floored remainder lies in 0..N-1 |
| FlatPose.EncodeDecode | maze-solving-bot-simulator/optimized/optimized_base_script.py:65-72 | `get_pos(get_x_coord(p), get_y_coord(p)) == p` for every integer index |
| FlatPose.DecodeGetPos | maze-solving-bot-simulator/optimized/optimized_base_script.py:65-72 | decoding `get_pos(x, y)` with y in 0..N-1 gives (x, y) back |
| FlatPose.GetX | maze-solving-bot-simulator/optimized/optimized_base_script.py:65-66 | the floored quotient is the column x with x * N <= pos < x * N + N |
| FlatPose.TileIndexInDirection | maze-solving-bot-simulator/optimized/optimized_base_script.py:51-63 | east adds N, west subtracts N, north subtracts 1, south adds 1, anything else keeps the index |
| FlatPose.NorthWrapsToPreviousColumn | maze-solving-bot-simulator/optimized/optimized_base_script.py:51-72 | the index north of the top of a column decodes to the bottom of the previous column |
| FlatPose.SouthWrapsToNextColumn | maze-solving-bot-simulator/optimized/optimized_base_script.py:51-72 | the index south of the bottom of a column decodes to the top of the next column |
| FlatPose.Forward | maze-solving-bot-simulator/optimized/optimized_base_script.py:92-96 | a step keeps the heading and, for a valid heading, changes the index |
| FlatPose.Backward | maze-solving-bot-simulator/optimized/optimized_base_script.py:110-114 | two left turns then a step land on the rear tile and face back |
| FlatPose.BackwardReverses | maze-solving-bot-simulator/optimized/optimized_base_script.py:110-114 | going backward twice restores the pose |
| FlatPose.TurnsAreInverse | maze-solving-bot-simulator/optimized/optimized_base_script.py:80-90 | right and left turns undo each other, and four right turns change nothing |
| FlatPose.OptimizedUserScript.constructor | maze-solving-bot-simulator/optimized/optimized_base_script.py:19-31 | N is the squares per side and START is 0 |
| FlatPose.OptimizedUserScript.Setup | maze-solving-bot-simulator/optimized/optimized_base_script.py:37-41 | the pose is START facing NORTH |
| FlatPose.OptimizedUserScript.TurnRight | maze-solving-bot-simulator/optimized/optimized_base_script.py:80-84 | the new pose is the right turn of the old one |
| FlatPose.OptimizedUserScript.TurnLeft | maze-solving-bot-simulator/optimized/optimized_base_script.py:86-90 | the new pose is the left turn of the old one |
| FlatPose.OptimizedUserScript.GoForward | maze-solving-bot-simulator/optimized/optimized_base_script.py:92-96 | the new pose is one step forward |
| FlatPose.OptimizedUserScript.GoToRight | maze-solving-bot-simulator/optimized/optimized_base_script.py:100-103 | the new pose is a right turn followed by a step |
| FlatPose.OptimizedUserScript.GoToLeft | maze-solving-bot-simulator/optimized/optimized_base_script.py:105-108 | the new pose is a left turn followed by a step |
| FlatPose.OptimizedUserScript.GoBackward | maze-solving-bot-simulator/optimized/optimized_base_script.py:110-114 | the new pose is two left turns followed by a step |
| Pose.UserScript.constructor | maze-solving-bot-simulator/base_script.py:11-17 | a new script has not called the refresh callback yet |
| MazeGraph.SymmetricIsClosed | maze-solving-bot-simulator/scripts.py:61-68 | in a graph where every edge is recorded both ways, every neighbour is itself a key |
| MazeGraph.AddEdge | maze-solving-bot-simulator/scripts.py:61-68 | both ends become keys, each is in the other's set, no other key changes, and the only new edges are a–b and b–a |
| MazeGraph.AddEdgeIdempotent | maze-solving-bot-simulator/scripts.py:61-68 | recording an edge twice, or in the other orientation, gives the same graph |
| MazeGraph.AddEdgePreservesSymmetry | maze-solving-bot-simulator/scripts.py:61-68 | adding an edge keeps the graph symmetric |
| MazeGraph.AddEdgeKeepsGridEdges | maze-solving-bot-simulator/scripts.py:124-130 | recording edges only between side-sharing cells keeps every edge a grid step |
| MazeGraph.NeighboursAreInUnion | maze-solving-bot-simulator/scripts.py:209-213 | every neighbour of a key is in the union of all neighbour sets |
| RightHandRule.Choose | maze-solving-bot-simulator/scripts/right_hand_rule.py:27-34 | right exactly when the right is open; ahead exactly when only the right is walled off; left exactly when right and front are walled and left is open; back exactly when all three are walled |
| RightHandRule.MoveGoesThroughChosenSide | maze-solving-bot-simulator/scripts/right_hand_rule.py:27-34 | each move ends one tile along its new heading, and the side it leaves through is one the sensors report open |
| RightHandRule.FlatMoveGoesThroughChosenSide | maze-solving-bot-simulator/optimized/optimized_right_hand_rule.py:19-26 | the same for the flat-index pose: the new index is the tile along the new heading |
| RightHandRule.WalkStaysOnHeadings | maze-solving-bot-simulator/optimized/optimized_right_hand_rule.py:18-26 | the heading stays valid through the walk and each move steps one tile along its heading |
| RightHandRule.RightHandRuleScript.constructor | maze-solving-bot-simulator/scripts/right_hand_rule.py:8-10 | the script drives the given base pose |
| RightHandRule.RightHandRuleScript.Setup | maze-solving-bot-simulator/scripts/right_hand_rule.py:16-18 | the base setup: (0, 0) facing NORTH, 100 ms wait |
| RightHandRule.RightHandRuleScript.Loop | maze-solving-bot-simulator/scripts/right_hand_rule.py:20-36 | exactly the chosen compound move (with its number of refreshes), then the Escape status of the key read |
| RightHandRule.OptimizedRightHandRuleScript.constructor | maze-solving-bot-simulator/optimized/optimized_right_hand_rule.py:5-7 | the script drives the given flat pose |
| RightHandRule.OptimizedRightHandRuleScript.Setup | maze-solving-bot-simulator/optimized/optimized_right_hand_rule.py:9-11 | the base setup: START facing NORTH |
| RightHandRule.OptimizedRightHandRuleScript.Loop | maze-solving-bot-simulator/optimized/optimized_right_hand_rule.py:13-26 | `reached` exactly when some reading's ground sensor sees the centre; the loop stops at the first such reading, or after all the readings when none does, and the pose is the walk of the chosen moves up to there |
| Robots.GoTo | maze-solving-bot-simulator/robot.py:50-66 | raises UndefinedDirectionError exactly when the heading is not one of the four |
| Robots.GoStepsOneTile | maze-solving-bot-simulator/robot.py:50-66 | forward lands on the tile ahead, backward on the tile behind, each adjacent to the start |
| Robots.ForwardBackwardRestores | maze-solving-bot-simulator/robot.py:99-111 | a forward step followed by a backward step (or the reverse) returns to the starting cell |
| Robots.NumpyIndex | maze-solving-bot-simulator/robot.py:78-97 | numpy indexing of `mazeMap[y][x]`: defined exactly for -len <= i < len, a negative index counting from the end |
| Robots.SignalFrom | maze-solving-bot-simulator/robot.py:86-97 | the rest of the ray walk never ends with the counter unbound, and a distance it returns lies between the current iteration and maxSignalDist - 1 |
| Robots.SignalFromFindsBarrier | maze-solving-bot-simulator/robot.py:86-97 | a returned distance k is in range, every pixel before it is clear, and pixel k is the barrier unless the walk ran out |
| Robots.FirstBarrierIsFound | maze-solving-bot-simulator/robot.py:86-97 | when pixel k is the first barrier on a defined ray, the walk returns k |
| Robots.Signal | maze-solving-bot-simulator/robot.py:78-97 | `__sendSignal` leaves its counter unbound exactly when maxSignalDist is not positive; a returned distance lies in [0, maxSignalDist) |
| Robots.SignalIsFirstBarrier | maze-solving-bot-simulator/robot.py:78-97 | `__sendSignal` returns the index of the first barrier pixel on the ray, or maxSignalDist - 1; both directions of the characterisation; an undefined direction raises unless the start is a barrier |
| Robots.WalkRay | maze-solving-bot-simulator/robot.py:78-97 | the imperative loop computes the ray characterised by SignalIsFirstBarrier |
| Robots.UndefinedRayStopsAtStart | maze-solving-bot-simulator/robot.py:86-97 | with an undefined direction the pixel never moves, so a returned distance is 0 |
| Robots.CenterPixelOfEvenSide | maze-solving-bot-simulator/robot.py:22-34 | for an even side the centre point is (x·side − side/2, y·side − side/2) |
| Robots.Robot.constructor | maze-solving-bot-simulator/robot.py:5-20 | the robot stores the given cell, heading, map and side |
| Robots.Robot.LeftSideDirection | maze-solving-bot-simulator/robot.py:36-41 | the left side direction is a direction whose right is the heading |
| Robots.Robot.RightSideDirection | maze-solving-bot-simulator/robot.py:43-48 | the right side direction is a direction whose left is the heading |
| Robots.Robot.Go | maze-solving-bot-simulator/robot.py:50-66 | the cell becomes the GoTo result, and stays unchanged when that raises |
| Robots.Robot.Rotate | maze-solving-bot-simulator/robot.py:68-76 | the heading becomes its right or its left |
| Robots.Robot.GoForward | maze-solving-bot-simulator/robot.py:99-104 | `__go(True)` |
| Robots.Robot.GoBackward | maze-solving-bot-simulator/robot.py:106-111 | `__go(False)` |
| Robots.Robot.TurnClockwise | maze-solving-bot-simulator/robot.py:113-118 | the heading becomes its right |
| Robots.Robot.TurnCounterClockwise | maze-solving-bot-simulator/robot.py:120-125 | the heading becomes its left |
| Robots.Robot.SendSignal | maze-solving-bot-simulator/robot.py:78-97 | the result is the first-barrier distance from the centre pixel |
| Robots.Robot.FrontSensor | maze-solving-bot-simulator/robot.py:127-132 | the first-barrier distance ahead, at most 1000 pixels, barrier colour 0 |
| Robots.Robot.LeftSensor | maze-solving-bot-simulator/robot.py:134-139 | the same along the left side direction |
| Robots.Robot.RightSensor | maze-solving-bot-simulator/robot.py:141-146 | the same along the right side direction |
| Robots.TurnsAndStepsUndo | maze-solving-bot-simulator/robot.py:99-125 | a turn and its opposite restore the heading; a forward then backward step restores the cell |
| Vehicles.GetPoint | maze-solving-bot-simulator/vehicle.py:90-100 | defined exactly for the four directions, where it is the adjacent tile in that direction; otherwise it raises |
| Vehicles.BoundedStepStopsAtBound | maze-solving-bot-simulator/vehicle.py:206-227 | raises exactly for an undefined heading; stays put when the bound ahead equals the coordinate, otherwise reaches the tile ahead; a vehicle inside its bounds stays inside |
| Vehicles.AddDirected | maze-solving-bot-simulator/vehicle.py:125-132 | `graph[this].add(p)` after creating the key: only that key changes, gaining exactly `p` |
| Vehicles.OpenEdgesAreTheOpenSides | maze-solving-bot-simulator/vehicle.py:124-132 | recording the open sides adds exactly their tiles to the current cell's set and changes no other key |
| Vehicles.Traverse | maze-solving-bot-simulator/vehicle.py:102-143 | every call keeps the invariant: the two remember flags are never both set, and a set flag comes with a defined heading |
| Vehicles.PendingFlagComesFirst | maze-solving-bot-simulator/vehicle.py:102-115 | a pending forward step or clockwise turn is done first, records nothing and clears its flag (a turn leaves a forward step pending) |
| Vehicles.FreshCallRecordsAndPrefersRight | maze-solving-bot-simulator/vehicle.py:116-143 | without a pending flag the cell is marked visited, an edge is added to each open side and nothing else, and the move prefers right, then front, then left; a dead end turns clockwise twice over two calls |
| Vehicles.RightTurnCompletesNextCall | maze-solving-bot-simulator/vehicle.py:102-143 | an open right side takes an unbounded vehicle onto its right tile in two calls, with no flag left |
| Vehicles.IsPath | maze-solving-bot-simulator/vehicle.py:72-88 | a side reported open lies along a defined direction |
| Vehicles.Sense | maze-solving-bot-simulator/vehicle.py:102-123 | an open front reading implies a defined heading |
| Vehicles.OpenMeansClearRay | maze-solving-bot-simulator/vehicle.py:72-88 | an open side has more than one tile side of clear pixels along its ray |
| Vehicles.Vehicle.constructor | maze-solving-bot-simulator/vehicle.py:13-37 | the vehicle starts at the given cell and heading, unbounded, with an empty graph, nothing visited and no pending move |
| Vehicles.Vehicle.Left | maze-solving-bot-simulator/vehicle.py:270-271 | the left direction of the heading |
| Vehicles.Vehicle.Right | maze-solving-bot-simulator/vehicle.py:273-274 | the right direction of the heading |
| Vehicles.Vehicle.SetBoundaries | maze-solving-bot-simulator/vehicle.py:146-160 | exactly the four bounds are set |
| Vehicles.Vehicle.Go | maze-solving-bot-simulator/vehicle.py:206-227 | a backward call does nothing; a forward call makes the bounded step, or raises and stays put |
| Vehicles.Vehicle.GoForward | maze-solving-bot-simulator/vehicle.py:239-244 | the bounded step ahead, or the error of an undefined heading |
| Vehicles.Vehicle.GoBackward | maze-solving-bot-simulator/vehicle.py:246-251 | the position does not change |
| Vehicles.Vehicle.Turn | maze-solving-bot-simulator/vehicle.py:229-237 | the heading becomes its right or its left |
| Vehicles.Vehicle.TurnClockwise | maze-solving-bot-simulator/vehicle.py:253-258 | the heading becomes its right |
| Vehicles.Vehicle.TurnCounterClockwise | maze-solving-bot-simulator/vehicle.py:260-265 | the heading becomes its left |
| Vehicles.Vehicle.SendSignal | maze-solving-bot-simulator/vehicle.py:72-88 | the reading is the open-path test of that side |
| Vehicles.Vehicle.Sensors | maze-solving-bot-simulator/vehicle.py:116-123 | the front, left and right readings, stopping at the first that raises |
| Vehicles.Vehicle.AddEdgeToward | maze-solving-bot-simulator/vehicle.py:125-132 | the graph gains the edge from the current cell to the tile in that direction |
| Vehicles.Vehicle.RecordAndMove | maze-solving-bot-simulator/vehicle.py:124-143 | the new state is the open sides recorded plus the preferred move started |
| Vehicles.Vehicle.DoTraverse | maze-solving-bot-simulator/vehicle.py:102-143 | a reading that raises leaves the state unchanged; otherwise the new state is `Traverse` of the old one |
| DepthFirst.OpenSides | maze-solving-bot-simulator/scripts/depth_first_search.py:68-93 | the tiles on the open sides: at most three, each adjacent to the robot, the front tile among them exactly when the front is open |
| DepthFirst.Record | maze-solving-bot-simulator/scripts/depth_first_search.py:87-93 | each open tile gets an edge to the top in both directions, no other edge appears, no edge is lost, and no open side changes nothing |
| DepthFirst.RecordSnoc | maze-solving-bot-simulator/scripts/depth_first_search.py:87-93 | recording one more open tile is one more add_edge_between |
| DepthFirst.RecordKeepsMazeShape | maze-solving-bot-simulator/scripts/depth_first_search.py:87-93 | recording the open sides keeps the graph symmetric with grid-step edges |
| DepthFirst.MoveToward | maze-solving-bot-simulator/scripts/depth_first_search.py:111-118 | moving toward an adjacent choice lands on it with a valid heading |
| DepthFirst.Turned | maze-solving-bot-simulator/scripts/depth_first_search.py:51-53 | any number of right turns leaves a valid heading |
| DepthFirst.ExploreStepKeepsInv | maze-solving-bot-simulator/scripts/depth_first_search.py:65-118 | every discover step keeps the explorer invariant (robot on the stack top, stack a walk of graph edges from the start, graph symmetric with grid-step edges) |
| DepthFirst.SetupEstablishesInv | maze-solving-bot-simulator/scripts/depth_first_search.py:37-44 | after setup the robot on the start with an empty graph and the start as the only stack entry satisfies the invariant |
| DepthFirst.ExitTestAsWritten | maze-solving-bot-simulator/scripts.py:101-103 | the truth test on the returned status code stops for every key |
| DepthFirst.ExitRequested | maze-solving-bot-simulator/scripts.py:101-103 | the intended test stops exactly when the key is Escape |
| DepthFirst.ExitTestAsWrittenIgnoresKey | maze-solving-bot-simulator/scripts.py:101-103 | a key that is not Escape stops the written test but not the intended one |
| DepthFirst.Explorer.constructor | maze-solving-bot-simulator/scripts/depth_first_search.py:11-17 | no centre, no visited cells, no edges, empty stack, not yet running |
| DepthFirst.Explorer.AddEdgeBetween | maze-solving-bot-simulator/scripts/depth_first_search.py:24-31 | the graph becomes AddEdge of the old graph |
| DepthFirst.Explorer.Setup | maze-solving-bot-simulator/scripts/depth_first_search.py:37-44 | the base pose, nothing visited, no edges, the start as the only stack entry, not yet running |
| DepthFirst.Explorer.InitialTurn | maze-solving-bot-simulator/scripts/depth_first_search.py:50-54 | turns right while the front is walled: every skipped heading is walled, the final one open, and four turns exactly when all four are walled |
| DepthFirst.Explorer.ChooseUnvisited | maze-solving-bot-simulator/scripts/depth_first_search.py:95-101 | a choice found is an unvisited neighbour of the top; none found means every neighbour is visited |
| DepthFirst.Explorer.Move | maze-solving-bot-simulator/scripts/depth_first_search.py:111-118 | the pose becomes MoveToward of the old pose |
| DepthFirst.Explorer.RecordSides | maze-solving-bot-simulator/scripts/depth_first_search.py:87-93 | the graph becomes Record of the old graph with the open sides |
| DepthFirst.Explorer.Advance | maze-solving-bot-simulator/scripts/depth_first_search.py:95-118 | push an unvisited neighbour, or pop and return the status when the stack empties, then move onto the new top |
| DepthFirst.Explorer.Explore | maze-solving-bot-simulator/scripts/depth_first_search.py:65-118 | the new state is one ExploreStep of the old one |
| DepthFirst.Explorer.Discover | maze-solving-bot-simulator/scripts/depth_first_search.py:65-118 | one ExploreStep, returning RESUME_SIMULATION when the stack runs empty |
| DepthFirst.Explorer.LegacyDiscover | maze-solving-bot-simulator/scripts.py:98-155 | Escape stops before any change; otherwise one ExploreStep, returning RESUME_LOOP when the stack runs empty (exit test as corrected in ## Findings) |
| DepthFirst.Explorer.GoToCenter | maze-solving-bot-simulator/scripts/depth_first_search.py:120-149 | the pose is the replay of the returned route; a reachable centre gives a route; with a symmetric grid graph the route ends on the centre |
| DepthFirst.Explorer.Loop | maze-solving-bot-simulator/scripts/depth_first_search.py:46-59 | spins exactly when all four sides are walled on the first frame, turning past each walled side and changing nothing else; otherwise the first frame turns to the first open side; a discovery frame is one discovery step (`ExploreStep`) from the turned pose and reports RESUME_SIMULATION when it empties the stack; with an empty stack the robot follows the found route (`Replay`) and reports STOP_SIMULATION, or the search error with the pose kept, and reaches the centre whenever the start is reachable |
| DepthFirst.Explorer.Frame | maze-solving-bot-simulator/scripts/depth_first_search.py:56-59 | once the front is open: with cells on the stack the frame is one discovery step (`ExploreStep`) and reports RESUME_SIMULATION when it empties the stack; with an empty stack nothing but the pose changes, the robot follows the found route (`Replay`) and reports STOP_SIMULATION, or the search error with the pose kept, and it reaches the centre whenever the start is reachable |
| DepthFirst.Explorer.LegacyLoop | maze-solving-bot-simulator/scripts.py:82-92 | Escape during discovery stops with LEGACY_STOP and changes nothing; otherwise a discovery frame is one discovery step (`ExploreStep`), reporting RESUME_LOOP when it empties the stack; with an empty stack the robot follows the found route (`Replay`) and reports STOP, or the search error with the pose kept (exit test as corrected in ## Findings) |
| Planner.ClosedSetTrapsPaths | maze-solving-bot-simulator/scripts/depth_first_search.py:166-178 | a path that starts in a neighbour-closed set stays in it |
| Planner.ClosedSetSeparates | maze-solving-bot-simulator/scripts/depth_first_search.py:166-178 | no path leads out of a neighbour-closed set |
| Planner.Expand | maze-solving-bot-simulator/scripts/depth_first_search.py:174-178 | exactly the unlabelled neighbours are labelled, with the node's label plus one, and pushed; existing labels are kept |
| Planner.BfsInvBoundsLabels | maze-solving-bot-simulator/scripts/depth_first_search.py:166-178 | while the loop invariant holds no label exceeds the current level plus one |
| Planner.ExpandedStaysClosed | maze-solving-bot-simulator/scripts/depth_first_search.py:174-178 | after expanding a node every expanded cell has all neighbours labelled at most one more than itself |
| Planner.ExpandKeepsCovers | maze-solving-bot-simulator/scripts/depth_first_search.py:166-178 | every labelled cell is still expanded or queued after a round |
| Planner.ExpandKeepsLevels | maze-solving-bot-simulator/scripts/depth_first_search.py:166-178 | the queue still holds two adjacent levels, the new cells one more than the dequeued node |
| Planner.ExpandKeepsTree | maze-solving-bot-simulator/scripts/depth_first_search.py:174-178 | each new label has an expanded parent one less, and expanded cells stay closed |
| Planner.ExpandKeepsInv | maze-solving-bot-simulator/scripts/depth_first_search.py:166-178 | one expansion keeps the whole bfs loop invariant |
| Planner.BfsRound | maze-solving-bot-simulator/scripts/depth_first_search.py:166-178 | a round stops with the labels promised, or an empty queue meaning the searched cell is unreachable, or a KeyError meaning the centre is missing or the graph is not closed; otherwise the invariant holds again and the measure decreases |
| Planner.LabelNeighbours | maze-solving-bot-simulator/scripts/depth_first_search.py:174-178 | labelling the unlabelled neighbours of the dequeued cell one level further and queueing them keeps the search invariant and decreases the measure (unlabelled cells, queue length) |
| Planner.LabellingShrinks | maze-solving-bot-simulator/scripts/depth_first_search.py:174-178 | a round that labels a new cell shrinks the set of unlabelled cells; one that labels none leaves the queue one shorter |
| Planner.Bfs | maze-solving-bot-simulator/scripts/depth_first_search.py:155-180 | on success the centre is labelled 0, the searched cell is labelled, every label has a neighbour parent one less, and labels up to the searched one are breadth-first distances; an empty queue means unreachable; a KeyError means no centre, a missing key or an open graph |
| Planner.BfsInit | maze-solving-bot-simulator/scripts/depth_first_search.py:157-164 | the invariant holds with only the centre labelled and queued |
| Planner.BfsExhausted | maze-solving-bot-simulator/scripts/depth_first_search.py:166-168 | popping an empty deque means the searched cell is not reachable from the centre |
| Planner.BfsMissingKey | maze-solving-bot-simulator/scripts/depth_first_search.py:174 | a dequeued cell that is not a key means the centre is missing or the graph is not closed |
| Planner.BfsFinish | maze-solving-bot-simulator/scripts/depth_first_search.py:170-172 | dequeuing the searched cell gives labels that meet Bfs's promise |
| Planner.BfsLabelsDescend | maze-solving-bot-simulator/scripts/depth_first_search.py:182-209 | bfs labels on a symmetric graph let every cell up to the searched label descend by one each step |
| Planner.ShortestPath | maze-solving-bot-simulator/scripts/depth_first_search.py:182-209 | a start without a label raises KeyError; otherwise the path is a greedy descent ending at label 0, of length equal to the start's label (one when it is 0) whenever the labels descend |
| Planner.LowerNeighbour | maze-solving-bot-simulator/scripts/depth_first_search.py:191-201 | under descending labels a positive cell has a neighbour one less and none lower |
| Planner.GreedyStepsExtend | maze-solving-bot-simulator/scripts/depth_first_search.py:202-204 | appending to the path keeps earlier greedy steps greedy |
| Planner.StepToward | maze-solving-bot-simulator/scripts/depth_first_search.py:129-143 | turning toward an adjacent path cell and stepping lands on it |
| Planner.DescentReachesCentre | maze-solving-bot-simulator/scripts/depth_first_search.py:182-209 | over bfs labels of a grid graph the descent is a walk of side-sharing cells ending on the centre |
| Planner.RouteArrives | maze-solving-bot-simulator/scripts/depth_first_search.py:120-149 | following the route from the searched cell ends on the centre, except when the robot already stands there: it then steps off |
| Planner.Replay | maze-solving-bot-simulator/scripts/depth_first_search.py:129-143 | replaying a walk of adjacent cells from a pose next to its first cell ends on the last cell with a valid heading |
| Planner.ReplayOfOwnCellStepsAway | maze-solving-bot-simulator/scripts/depth_first_search.py:129-143 | a path of the robot's own cell still makes it step forward, off that cell |
| Planner.FollowPath | maze-solving-bot-simulator/scripts/depth_first_search.py:129-143 | the pose becomes the replay of the path |
| Planner.TurnAndStep | maze-solving-bot-simulator/scripts/depth_first_search.py:131-143 | one pass turns toward the next cell of the path (back, right or left, or not at all) and steps, as `StepToward` says |
| DfsDemos.ReachesSelf | maze-solving-bot-simulator/test/algo.py:11-18 | every node reaches itself |
| DfsDemos.ReachesExtend | maze-solving-bot-simulator/test/algo.py:11-18 | reaching a node and taking one of its edges reaches the edge's end |
| DfsDemos.ReachesPrepend | maze-solving-bot-simulator/test/algo.py:4-8 | taking an edge and then reaching a node reaches that node |
| DfsDemos.ClosedSetTrapsPaths | maze-solving-bot-simulator/test/algo.py:11-18 | a path that starts in a set closed under the edges ends in it |
| DfsDemos.SearchResultIsReachableSet | maze-solving-bot-simulator/test/algo.py:11-18 | a closed visited set of reachable nodes that holds the start is exactly the set of nodes reachable from it |
| DfsDemos.RecursiveResultIsReachableSet | maze-solving-bot-simulator/test/algo.py:4-8 | for the recursive search, the visited set is exactly the nodes reachable by at least one edge |
| DfsDemos.CountInAppendUnvisited | maze-solving-bot-simulator/test/algo.py:16-18 | pushing only unvisited nodes does not add to the count of visited entries on the stack |
| DfsDemos.MultisetOfDisjointUnion | maze-solving-bot-simulator/test/algo.py:4-8 | the multiset of a disjoint union is the sum of the multisets |
| DfsDemos.RecursionKeepsClosed | maze-solving-bot-simulator/test/algo.py:5-8 | the closure facts of a call and of its recursive call combine |
| DfsDemos.RecursionKeepsReach | maze-solving-bot-simulator/test/algo.py:5-8 | nodes reached by a recursive call on a neighbour are reached from the caller |
| DfsDemos.RecursionExtendsLog | maze-solving-bot-simulator/test/algo.py:5-8 | the call log of a recursive call extends the caller's: each newly visited node is recursed on once |
| DfsDemos.FreshIsUnvisitedPart | maze-solving-bot-simulator/test/algo.py:16-18 | the pushed neighbours are exactly the unvisited ones |
| DfsDemos.FreshAvoids | maze-solving-bot-simulator/test/algo.py:16-18 | no pushed neighbour is visited |
| DfsDemos.IterStepReaches | maze-solving-bot-simulator/test/algo.py:13-18 | after one pass every stacked node is still reachable from the start |
| DfsDemos.IterStepPending | maze-solving-bot-simulator/test/algo.py:13-18 | after one pass every neighbour of a newly visited node is visited or stacked |
| DfsDemos.IterStepDescends | maze-solving-bot-simulator/test/algo.py:13-18 | one pass marks a new node or removes a marked entry from the stack |
| DfsDemos.IterStepKeepsInv | maze-solving-bot-simulator/test/algo.py:13-18 | one pass keeps the loop invariant and decreases the termination measure |
| DfsDemos.RecPushKeepsPath | maze-solving-bot-simulator/test/algo.py:27-30 | pushing a neighbour keeps the stack a path of reachable nodes from the start, visited below the top |
| DfsDemos.RecPushKeepsPending | maze-solving-bot-simulator/test/algo.py:27-30 | pushing keeps every visited node with an unvisited neighbour on the stack |
| DfsDemos.RecPushShrinks | maze-solving-bot-simulator/test/algo.py:27-30 | pushing a node neither visited nor stacked shrinks the set of nodes outside both |
| DfsDemos.RecPushKeepsInv | maze-solving-bot-simulator/test/algo.py:27-30 | pushing keeps the loop invariant and decreases the measure |
| DfsDemos.RecPopKeepsInv | maze-solving-bot-simulator/test/algo.py:31-32 | popping a top whose neighbours are all visited keeps the invariant and the visited-or-stacked set |
| DfsDemos.PopKeepsPath | maze-solving-bot-simulator/test/algo.py:31-32 | after the pop the stack still starts at the start node, holds reachable cells joined by edges, and every visited cell is reachable |
| DfsDemos.PopKeepsClosure | maze-solving-bot-simulator/test/algo.py:31-32 | after the pop every neighbour of a newly visited cell is visited or still on the stack |
| DfsDemos.DfsDemo.constructor | maze-solving-bot-simulator/test.py:19 | the search starts with nothing visited |
| DfsDemos.DfsDemo.Dfs | maze-solving-bot-simulator/test.py:20-24 | every neighbour ends visited, newly visited nodes are closed and reachable by at least one edge, and each was recursed on exactly once |
| DfsDemos.DfsDemo.PopAndPush | maze-solving-bot-simulator/test.py:29-33 | the top is marked and replaced by its unvisited neighbours in list order |
| DfsDemos.DfsDemo.DfsIter | maze-solving-bot-simulator/test.py:26-33 | the start is visited and the newly visited nodes are closed and reachable from it |
| DfsDemos.DfsDemo.DeepenOrBacktrack | maze-solving-bot-simulator/test.py:37-46 | the top is marked, then the first unvisited neighbour in list order is pushed, or the top is popped when there is none |
| DfsDemos.DfsDemo.DfsIterRec | maze-solving-bot-simulator/test.py:35-46 | the start is visited and the newly visited nodes are closed and reachable from it |
| DfsDemos.TestEdgeSymmetric | maze-solving-bot-simulator/test.py:1-17 | every listed edge names nodes of the graph and is listed the other way round |
| DfsDemos.TestGraphSymmetric | maze-solving-bot-simulator/test.py:1-17 | the literal graph is undirected |
| DfsDemos.TestGraphClosed | maze-solving-bot-simulator/test.py:1-17 | every listed neighbour is a key |
| DfsDemos.TestNeighboursVisited | maze-solving-bot-simulator/test.py:1-17 | a closed visited set holds all neighbours of its nodes |
| DfsDemos.TestGraphConnected | maze-solving-bot-simulator/test.py:1-17 | a closed visited set holding node 0 holds every node |
| DfsDemos.TestRun | maze-solving-bot-simulator/test.py:48-49 | `dfs_iter_rec(0)` visits exactly the nodes 0..14 |
| FloodFill.Square | maze-solving-bot-simulator/scripts/flood_fill.py:37 | the N x N grid holds exactly the in-range cells |
| FloodFill.FourNeighbours | maze-solving-bot-simulator/scripts/flood_fill.py:141-144 | four cells, in the order left, right, up, down, each adjacent |
| FloodFill.AdjacentIsOneOfFour | maze-solving-bot-simulator/scripts/flood_fill.py:141-144 | every side-sharing cell is one of the four |
| FloodFill.TransposedSeedIsNotZero | maze-solving-bot-simulator/scripts/flood_fill.py:136-140 | since the 0 is written at [seed.1][seed.0] but the search starts from seed, a seed off the diagonal never holds 0 |
| FloodFill.LabelledCellsAreReached | maze-solving-bot-simulator/scripts/flood_fill.py:128-158 | with the seed on the diagonal every labelled cell is reached by an open walk of exactly its value in steps |
| FloodFill.ReachedCellsAreLabelled | maze-solving-bot-simulator/scripts/flood_fill.py:128-158 | with the seed on the diagonal every cell an open walk reaches is labelled |
| FloodFill.SeedInv | maze-solving-bot-simulator/scripts/flood_fill.py:130-137 | after the reset and the seed write, the loop invariant holds with the seed queued |
| FloodFill.PopStartsRound | maze-solving-bot-simulator/scripts/flood_fill.py:139-140 | popping the right end of the queue starts a round of the invariant |
| FloodFill.LabelKeepsGridInv | maze-solving-bot-simulator/scripts/flood_fill.py:157 | labelling an open unlabelled neighbour one more than the current cell keeps the grid facts |
| FloodFill.LabelKeepsQueueInv | maze-solving-bot-simulator/scripts/flood_fill.py:157-158 | pushing the labelled neighbour on the left keeps the queue facts |
| FloodFill.LabelKeepsCovered | maze-solving-bot-simulator/scripts/flood_fill.py:157-158 | every labelled cell stays expanded or queued |
| FloodFill.LabelKeepsClosed | maze-solving-bot-simulator/scripts/flood_fill.py:157 | raising a -1 keeps every expanded cell closed |
| FloodFill.VisitExtends | maze-solving-bot-simulator/scripts/flood_fill.py:145-156 | a skipped neighbour (out of range, labelled or walled off) extends the visited prefix |
| FloodFill.LabelKeepsVisited | maze-solving-bot-simulator/scripts/flood_fill.py:157 | labelling a neighbour extends the visited prefix |
| FloodFill.VisitKeepsInv | maze-solving-bot-simulator/scripts/flood_fill.py:145-158 | an unlabelled, in-range, unwalled neighbour is labelled one more and pushed; any other changes nothing; the round invariant is kept |
| FloodFill.RoundEnds | maze-solving-bot-simulator/scripts/flood_fill.py:139-158 | after the four neighbours the popped cell is closed and the loop invariant holds |
| FloodFill.FloodEnds | maze-solving-bot-simulator/scripts/flood_fill.py:139 | an empty queue leaves the flood result |
| FloodFill.BestMoveLands | maze-solving-bot-simulator/scripts/flood_fill.py:217-224 | the move lands on a neighbouring choice, and on the tile behind when the choice is the robot's own cell |
| FloodFill.BestFrom | maze-solving-bot-simulator/scripts/flood_fill.py:197-215 | the chosen cell is no larger than the start value and than every eligible node, and is the start or an eligible node strictly smaller |
| FloodFill.BestCell | maze-solving-bot-simulator/scripts/flood_fill.py:187-215 | the chosen cell is the robot's own or an eligible neighbour, with a value no larger |
| FloodFill.WallsAddedRecordsSensed | maze-solving-bot-simulator/scripts/flood_fill.py:175-185 | every sensed wall around an in-range robot is recorded, the record stays symmetric, and only walls from the robot's cell to in-range tiles are added |
| FloodFill.ShortReadingRecordedAsWall | maze-solving-bot-simulator/scripts/flood_fill.py:175-185 | a distance reading shorter than the cell side on any of the three sensors (the `is_wall_in_*` test) ends up as a wall recorded in both directions between the robot's cell and the tile on that side, when that tile is on the board |
| FloodFill.GuardedWallKeepsShape | maze-solving-bot-simulator/scripts/flood_fill.py:160-173 | one guarded add_wall_between keeps the record symmetric and adds only walls at that cell between in-range tiles |
| FloodFill.BestCellDescends | maze-solving-bot-simulator/scripts/flood_fill.py:187-215 | on a grid flooded from a diagonal target, from a cell labelled 1 or more with the sensed walls recorded, the chosen cell is a neighbour with a strictly smaller label |
| FloodFill.ChaseStep | maze-solving-bot-simulator/scripts/flood_fill.py:47-75 | a chasing frame moves to a strictly smaller label or, at the target, keeps a valid heading |
| FloodFill.InitialTurns | maze-solving-bot-simulator/scripts/flood_fill.py:85-94 | no turn exactly when only the front is open, two turns exactly when all three are walled |
| FloodFill.WallsAdded | maze-solving-bot-simulator/scripts/flood_fill.py:175-185 | add_walls only adds walls |
| FloodFill.AddWallIfInRange | maze-solving-bot-simulator/scripts/flood_fill.py:160-173 | the record is unchanged, or the wall is added both ways when sensed and both cells are in range |
| FloodFill.FloodFillScript.constructor | maze-solving-bot-simulator/scripts/flood_fill.py:17-24 | the script drives the given pose on an N x N grid |
| FloodFill.FloodFillScript.Setup | maze-solving-bot-simulator/scripts/flood_fill.py:31-38 | the base pose, every phase flag off, centre (N/2, N/2), a fresh grid of -1 and no walls |
| FloodFill.FloodFillScript.AddWallBetween | maze-solving-bot-simulator/scripts/flood_fill.py:160-173 | nothing happens unless both cells are in range; then the wall is recorded both ways |
| FloodFill.FloodFillScript.AddWalls | maze-solving-bot-simulator/scripts/flood_fill.py:175-185 | the walls become WallsAdded of the old ones |
| FloodFill.FloodFillScript.Visit | maze-solving-bot-simulator/scripts/flood_fill.py:145-158 | the neighbour is pushed exactly when in range, unlabelled and not walled off, and then labelled one more than the current cell |
| FloodFill.FloodFillScript.ResetGrid | maze-solving-bot-simulator/scripts/flood_fill.py:130-133 | every cell becomes -1 |
| FloodFill.FloodFillScript.VisitStep | maze-solving-bot-simulator/scripts/flood_fill.py:145-158 | one neighbour visit keeps the round invariant |
| FloodFill.FloodFillScript.VisitNeighbours | maze-solving-bot-simulator/scripts/flood_fill.py:141-158 | the four visits keep the round invariant |
| FloodFill.FloodFillScript.FloodRound | maze-solving-bot-simulator/scripts/flood_fill.py:139-158 | a round keeps the loop invariant and decreases the measure |
| FloodFill.FloodFillScript.Flood | maze-solving-bot-simulator/scripts/flood_fill.py:128-158 | the grid is the breadth-first labelling from the seed, 0 written at the transposed seed, never across a wall or outside the grid |
| FloodFill.FloodFillScript.BestNeighbour | maze-solving-bot-simulator/scripts/flood_fill.py:187-215 | the chosen cell is BestCell of the grid |
| FloodFill.FloodFillScript.MoveToBest | maze-solving-bot-simulator/scripts/flood_fill.py:217-224 | the pose becomes BestMove toward the chosen cell |
| FloodFill.FloodFillScript.GoToBestCell | maze-solving-bot-simulator/scripts/flood_fill.py:187-226 | returns BestCell and moves toward it |
| FloodFill.FloodFillScript.RecordAndFlood | maze-solving-bot-simulator/scripts/flood_fill.py:47-51 | the walls are WallsAdded, every sensed wall is recorded, and the grid is the flood result from the target |
| FloodFill.FloodFillScript.Chase | maze-solving-bot-simulator/scripts/flood_fill.py:47-51 | one frame adds walls, floods from the target and moves to BestCell |
| FloodFill.FloodFillScript.DriveAlongCorridor | maze-solving-bot-simulator/scripts/flood_fill.py:99-101 | ends exactly when some reading has a side open, and then on the first such reading; otherwise it has driven past every reading; one step east and one refresh per reading passed |
| FloodFill.FloodFillScript.DriveBackToWall | maze-solving-bot-simulator/scripts/flood_fill.py:114-118 | ends exactly when some reading sees a front wall, and then on the first such reading; otherwise it has driven past every reading; one step west and one refresh per reading passed |
| FloodFill.FloodFillScript.FaceOpenSide | maze-solving-bot-simulator/scripts/flood_fill.py:85-94 | the first turn of discover_facing_direction: right if the right side is open, else left if the left is, none if only the front is, else around; the robot stays on its cell and the refreshes are the turns made |
| FloodFill.FloodFillScript.DiscoverFacingDirection | maze-solving-bot-simulator/scripts/flood_fill.py:80-125 | done exactly when both loops end within the readings; then the flag is set and the robot is back on the row it started, heading EAST or SOUTH by which side opened; otherwise the flag is unchanged and the robot stands where the readings leave it, heading EAST in the corridor or WEST on the way back; the refreshes the moves make |
| FloodFill.FloodFillScript.ReturnToWall | maze-solving-bot-simulator/scripts/flood_fill.py:103-125 | done exactly when some back reading sees the wall; then the flag is set and the robot is back by the steps it drove, heading SOUTH when the right side at the opening was walled and EAST otherwise; otherwise the flag is unchanged and the robot heads WEST; the setup invariant (`Ready`) is kept |
| FloodFill.FloodFillScript.AdvancePhase | maze-solving-bot-simulator/scripts/flood_fill.py:53-75 | the phase flags move on when the robot reaches the centre or the start |
| FloodFill.FloodFillScript.ChasePhase | maze-solving-bot-simulator/scripts/flood_fill.py:47-75 | one chasing frame toward the phase's target, then the flag update |
| FloodFill.FloodFillScript.Target | maze-solving-bot-simulator/scripts/flood_fill.py:47-75 | the phase's target is the centre or the start |
| FloodFill.FloodFillScript.Loop | maze-solving-bot-simulator/scripts/flood_fill.py:40-78 | a chase frame, and a discovery frame exactly when both its loops end within the readings, report RESUME_SIMULATION; a discovery frame that does not end reports None with the flag still off; discovery changes no flag or wall and leaves the robot `steps - returned` cells east on its row, facing EAST in the corridor, WEST on the way back, or EAST or SOUTH when done; chase frames chase the phase's target |
| OptimizedFloodFill.EncodeDecodeWall | maze-solving-bot-simulator/optimized/optimized_flood_fill.py:73-82 | decoding the code of a wall between two board indices gives the smaller and then the larger index |
| OptimizedFloodFill.DecodeWallA | maze-solving-bot-simulator/optimized/optimized_flood_fill.py:78-79 | the floored quotient a satisfies a * N * N <= code < a * N * N + N * N |
| OptimizedFloodFill.DecodeWallB | maze-solving-bot-simulator/optimized/optimized_flood_fill.py:81-82 | the remainder lies in 0..N*N-1 and with decode_wall_a reassembles the code |
| OptimizedFloodFill.WallCodeIdentifiesPair | maze-solving-bot-simulator/optimized/optimized_flood_fill.py:73-76 | two board walls share a code exactly when they join the same two indices, in either order |
| OptimizedFloodFill.CoordsInRangeIsInGrid | maze-solving-bot-simulator/optimized/optimized_flood_fill.py:152-156 | the coordinate range test accepts exactly the indices 0..N*N-1 |
| OptimizedFloodFill.FlatNeighbours | maze-solving-bot-simulator/optimized/optimized_flood_fill.py:145-148 | the four re-encoded neighbours are p - N, p + N, p - 1 and p + 1, in that order |
| OptimizedFloodFill.ShiftedIndices | maze-solving-bot-simulator/optimized/optimized_flood_fill.py:145-148 | moving x by one moves the index by N |
| OptimizedFloodFill.RowWrap | maze-solving-bot-simulator/optimized/optimized_flood_fill.py:145-156 | the "up" neighbour of the top cell of any column but the first passes the range test and is the bottom of the previous column |
| OptimizedFloodFill.LabelledCellsAreReached | maze-solving-bot-simulator/optimized/optimized_flood_fill.py:130-165 | every labelled index is reached from the seed by an open walk of exactly its value in steps |
| OptimizedFloodFill.ReachedCellsAreLabelled | maze-solving-bot-simulator/optimized/optimized_flood_fill.py:130-165 | every index an open walk reaches from the seed is labelled |
| OptimizedFloodFill.SeedInv | maze-solving-bot-simulator/optimized/optimized_flood_fill.py:132-138 | after the reset and the seed write the loop invariant holds with the seed queued |
| OptimizedFloodFill.PopStartsRound | maze-solving-bot-simulator/optimized/optimized_flood_fill.py:140-141 | popping the right end starts a round of the invariant |
| OptimizedFloodFill.LabelKeepsGridInv | maze-solving-bot-simulator/optimized/optimized_flood_fill.py:164 | labelling an open unlabelled linked index keeps the grid facts |
| OptimizedFloodFill.LabelKeepsQueueInv | maze-solving-bot-simulator/optimized/optimized_flood_fill.py:164-165 | pushing the labelled index keeps the queue facts |
| OptimizedFloodFill.LabelKeepsClosed | maze-solving-bot-simulator/optimized/optimized_flood_fill.py:164 | raising a -1 keeps every expanded index closed |
| OptimizedFloodFill.VisitExtends | maze-solving-bot-simulator/optimized/optimized_flood_fill.py:150-163 | a skipped index extends the visited prefix |
| OptimizedFloodFill.LabelKeepsVisited | maze-solving-bot-simulator/optimized/optimized_flood_fill.py:164 | labelling extends the visited prefix |
| OptimizedFloodFill.VisitKeepsInv | maze-solving-bot-simulator/optimized/optimized_flood_fill.py:150-165 | an unlabelled board index with no listed wall is labelled one more and pushed; any other changes nothing; the round invariant is kept |
| OptimizedFloodFill.RoundEnds | maze-solving-bot-simulator/optimized/optimized_flood_fill.py:140-165 | after the four indices the popped index is closed and the loop invariant holds |
| OptimizedFloodFill.FloodEnds | maze-solving-bot-simulator/optimized/optimized_flood_fill.py:140 | an empty queue leaves the flood result |
| OptimizedFloodFill.BestMoveLands | maze-solving-bot-simulator/optimized/optimized_flood_fill.py:226-233 | the move lands on a linked choice, and on the tile behind when the choice is the robot's own index |
| OptimizedFloodFill.BestFrom | maze-solving-bot-simulator/optimized/optimized_flood_fill.py:204-224 | the chosen index is no larger than the start value and every eligible node, and is the start or an eligible node strictly smaller |
| OptimizedFloodFill.BestCell | maze-solving-bot-simulator/optimized/optimized_flood_fill.py:192-224 | the chosen index is the robot's own or an eligible linked index with a value no larger |
| OptimizedFloodFill.AddWallIfInRange | maze-solving-bot-simulator/optimized/optimized_flood_fill.py:167-178 | the code is appended, even when already listed, exactly when both indices pass the range test |
| OptimizedFloodFill.WallsAdded | maze-solving-bot-simulator/optimized/optimized_flood_fill.py:180-190 | add_walls appends at most three codes and keeps the earlier list as a prefix |
| OptimizedFloodFill.DuplicateWallBlocksNothingNew | maze-solving-bot-simulator/optimized/optimized_flood_fill.py:167-178 | appending a listed wall lengthens the list but blocks no new pair |
| OptimizedFloodFill.WallsAddedRecordsSensed | maze-solving-bot-simulator/optimized/optimized_flood_fill.py:180-190 | every sensed wall around a robot on the board is recorded and every earlier wall kept |
| OptimizedFloodFill.BestCellDescends | maze-solving-bot-simulator/optimized/optimized_flood_fill.py:192-224 | on a flooded grid with the sensed walls recorded, from an index labelled 1 or more the chosen index is linked and labelled strictly less |
| OptimizedFloodFill.ChaseStep | maze-solving-bot-simulator/optimized/optimized_flood_fill.py:41-69 | a chasing frame makes progress toward the target and keeps the heading valid |
| OptimizedFloodFill.OptimizedFloodFillScript.constructor | maze-solving-bot-simulator/optimized/optimized_flood_fill.py:13-23 | the script drives the given pose with START 0 |
| OptimizedFloodFill.OptimizedFloodFillScript.Setup | maze-solving-bot-simulator/optimized/optimized_flood_fill.py:25-32 | the base pose, every phase flag off, N*N values of -1 and no walls |
| OptimizedFloodFill.OptimizedFloodFillScript.AddWallBetween | maze-solving-bot-simulator/optimized/optimized_flood_fill.py:167-178 | the walls become AddWallIfInRange of the old list |
| OptimizedFloodFill.OptimizedFloodFillScript.AddWalls | maze-solving-bot-simulator/optimized/optimized_flood_fill.py:180-190 | the walls become WallsAdded of the old list |
| OptimizedFloodFill.OptimizedFloodFillScript.Visit | maze-solving-bot-simulator/optimized/optimized_flood_fill.py:150-165 | the index is pushed exactly when on the board, unlabelled and not walled off, and then labelled one more |
| OptimizedFloodFill.OptimizedFloodFillScript.ResetGrid | maze-solving-bot-simulator/optimized/optimized_flood_fill.py:133-134 | every value becomes -1 |
| OptimizedFloodFill.OptimizedFloodFillScript.VisitStep | maze-solving-bot-simulator/optimized/optimized_flood_fill.py:150-165 | one visit keeps the round invariant |
| OptimizedFloodFill.OptimizedFloodFillScript.VisitNeighbours | maze-solving-bot-simulator/optimized/optimized_flood_fill.py:145-165 | the four visits keep the round invariant |
| OptimizedFloodFill.OptimizedFloodFillScript.FloodRound | maze-solving-bot-simulator/optimized/optimized_flood_fill.py:140-165 | a round keeps the loop invariant and decreases the measure |
| OptimizedFloodFill.OptimizedFloodFillScript.Flood | maze-solving-bot-simulator/optimized/optimized_flood_fill.py:130-165 | the array is the breadth-first labelling from the search index, never across a listed wall or off the board |
| OptimizedFloodFill.OptimizedFloodFillScript.BestNeighbour | maze-solving-bot-simulator/optimized/optimized_flood_fill.py:192-224 | the chosen index is BestCell of the array |
| OptimizedFloodFill.OptimizedFloodFillScript.MoveToBest | maze-solving-bot-simulator/optimized/optimized_flood_fill.py:226-233 | the pose becomes BestMove toward the chosen index |
| OptimizedFloodFill.OptimizedFloodFillScript.GoToBestCell | maze-solving-bot-simulator/optimized/optimized_flood_fill.py:192-235 | returns BestCell and moves toward it |
| OptimizedFloodFill.OptimizedFloodFillScript.RecordAndFlood | maze-solving-bot-simulator/optimized/optimized_flood_fill.py:43-44 | the walls are WallsAdded, every sensed wall is recorded, and the array is the flood result from the target |
| OptimizedFloodFill.OptimizedFloodFillScript.Chase | maze-solving-bot-simulator/optimized/optimized_flood_fill.py:43-45 | one frame adds walls, floods from the target and moves to BestCell |
| OptimizedFloodFill.OptimizedFloodFillScript.DriveAlongCorridor | maze-solving-bot-simulator/optimized/optimized_flood_fill.py:101-103 | ends exactly when some reading has a side open, and then on the first such reading; otherwise it has driven past every reading; N added per reading passed |
| OptimizedFloodFill.OptimizedFloodFillScript.DriveBackToWall | maze-solving-bot-simulator/optimized/optimized_flood_fill.py:116-120 | ends exactly when some reading sees a front wall, and then on the first such reading; otherwise it has driven past every reading; N subtracted per reading passed |
| OptimizedFloodFill.OptimizedFloodFillScript.DiscoverFacingDirection | maze-solving-bot-simulator/optimized/optimized_flood_fill.py:84-128 | done exactly when both loops end within the readings; then the flag is set and the robot is back where the corridor drive started, heading EAST or SOUTH by which side opened; otherwise the flag is unchanged and the robot stands where the readings leave it, heading EAST or WEST |
| OptimizedFloodFill.OptimizedFloodFillScript.AdvancePhase | maze-solving-bot-simulator/optimized/optimized_flood_fill.py:47-69 | the phase flags move on when the robot is on CENTER or START |
| OptimizedFloodFill.OptimizedFloodFillScript.Target | maze-solving-bot-simulator/optimized/optimized_flood_fill.py:41-69 | the phase's target is CENTER or START |
| OptimizedFloodFill.OptimizedFloodFillScript.ChasePhase | maze-solving-bot-simulator/optimized/optimized_flood_fill.py:41-69 | one chasing frame toward the phase's target, then the flag update |
| OptimizedFloodFill.OptimizedFloodFillScript.CenterInGrid | maze-solving-bot-simulator/optimized/optimized_flood_fill.py:20 | CENTER, the index of (N/2, N/2), is on the board |
| OptimizedFloodFill.OptimizedFloodFillScript.Loop | maze-solving-bot-simulator/optimized/optimized_flood_fill.py:34-71 | a chase frame, and a discovery frame exactly when both its loops end within the readings, report RESUME_SIMULATION; a discovery frame that does not end reports None with the flag still off; discovery changes no flag or wall and leaves the robot at index pos + (steps - returned) * N, facing EAST in the corridor, WEST on the way back, or EAST or SOUTH when done |
| CommandLine.SpacesFrom | decrypt-escape-room-terminal/serverhack.py:270 | the index is the first non-whitespace at or after k, with only whitespace skipped |
| CommandLine.SpacesBefore | decrypt-escape-room-terminal/serverhack.py:270 | the index starts the whitespace run that ends at k |
| CommandLine.Strip | decrypt-escape-room-terminal/serverhack.py:270 | `strip()` removes only whitespace at the ends, keeps a slice that starts and ends with non-whitespace, and is empty exactly for an all-whitespace line |
| CommandLine.WordLength | decrypt-escape-room-terminal/serverhack.py:273 | the length of the maximal whitespace-free prefix |
| CommandLine.Split | decrypt-escape-room-terminal/serverhack.py:273 | `split()` yields only non-empty whitespace-free tokens |
| CommandLine.SplitEmptyIffAllSpace | decrypt-escape-room-terminal/serverhack.py:271-273 | a line splits into no tokens exactly when it is all whitespace |
| CommandLine.SplitIgnoresLeadingSpace | decrypt-escape-room-terminal/serverhack.py:273 | leading whitespace does not change the tokens |
| CommandLine.SplitIgnoresTrailingSpace | decrypt-escape-room-terminal/serverhack.py:273 | one trailing whitespace character does not change the tokens |
| CommandLine.WordLengthOfExtension | decrypt-escape-room-terminal/serverhack.py:273 | text appended after a whitespace boundary does not change the first word |
| CommandLine.SplitIgnoresTrailingSpaces | decrypt-escape-room-terminal/serverhack.py:273 | trailing whitespace does not change the tokens |
| CommandLine.SplitOfStrip | decrypt-escape-room-terminal/serverhack.py:270-273 | stripping before splitting does not change the tokens |
| CommandLine.SplitJoinWords | decrypt-escape-room-terminal/serverhack.py:273 | splitting tokens joined by single spaces gives the tokens back |
| CommandLine.ParseLine | decrypt-escape-room-terminal/serverhack.py:267-275 | an all-whitespace line is skipped; otherwise the command is the first token and the argument the second, or "." |
| CommandLine.ParseCommandAlone | decrypt-escape-room-terminal/terminal.py:135-140 | a command typed alone takes "." as its argument |
| CommandLine.ParseCommandWithArgument | decrypt-escape-room-terminal/terminal.py:135-140 | "command arg" parses to that command and that argument |
| CommandLine.StripToken | decrypt-escape-room-terminal/serverhack.py:61 | a token has nothing to strip |
| Vfs.MakeZip | decrypt-escape-room-terminal/serverhack.py:195-198 | building an archive fails exactly when a folder is among its entries; otherwise it keeps the name and entries |
| Vfs.ZipSizeBounds | decrypt-escape-room-terminal/serverhack.py:196-198 | with a non-negative ratio and sizes, the archive size is at least 10 and at most the scaled sum plus 10 |
| Vfs.SumSizesNonNegative | decrypt-escape-room-terminal/serverhack.py:197 | entries of non-negative size sum to a non-negative size |
| Vfs.RandomText | decrypt-escape-room-terminal/serverhack.py:164-180 | the text has `size` characters, or none for a negative size, all from the alphabet |
| Vfs.Read | decrypt-escape-room-terminal/serverhack.py:154-158 | reading a folder raises; a text file reads as its content |
| Vfs.ReadLengthIsSize | decrypt-escape-room-terminal/serverhack.py:157-188 | every file reads as many characters as its size; a text file's size is its content's length |
| Vfs.ExtractedName | decrypt-escape-room-terminal/serverhack.py:201 | `name[:-4]` is the name without its last four characters, or empty |
| Vfs.ExtractedNameDropsExtension | decrypt-escape-room-terminal/serverhack.py:201 | "base.zip" extracts to a folder named "base" |
| Vfs.FindFrom | decrypt-escape-room-terminal/serverhack.py:131-135 | the index found is the first at or after k with that name; none means no such entry |
| Vfs.Entry | decrypt-escape-room-terminal/serverhack.py:131-135 | an entry is found exactly when one has that name, and it is the first such |
| Vfs.FindFromAppend | decrypt-escape-room-terminal/serverhack.py:131-135 | appending an entry changes the search only when no earlier entry matched |
| Vfs.EntryAfterAppend | decrypt-escape-room-terminal/serverhack.py:131-135 | appending never changes what an existing name resolves to |
| Vfs.FoldersInAppend | decrypt-escape-room-terminal/serverhack.py:78 | the folders of a concatenation are the union of each part's folders |
| Vfs.FoldersInMember | decrypt-escape-room-terminal/serverhack.py:115 | a list's folders are the union of its entries' folders |
| Vfs.FoldersInOfPermutation | decrypt-escape-room-terminal/serverhack.py:118 | reordering the entries keeps the same folders |
| Vfs.EntryFoldersInList | decrypt-escape-room-terminal/serverhack.py:126-135 | an entry found by name, and an archive's content, hold only folders the list holds |
| Vfs.LexLeRefl | decrypt-escape-room-terminal/serverhack.py:118 | the string order is reflexive |
| Vfs.LexLeTotal | decrypt-escape-room-terminal/serverhack.py:118 | the string order is total |
| Vfs.LexLeTrans | decrypt-escape-room-terminal/serverhack.py:118 | the string order is transitive |
| Vfs.LexLeAntisym | decrypt-escape-room-terminal/serverhack.py:118 | the string order is antisymmetric |
| Vfs.InsertPermutes | decrypt-escape-room-terminal/serverhack.py:118 | insertion adds exactly the inserted entry |
| Vfs.InsertKeepsSorted | decrypt-escape-room-terminal/serverhack.py:118 | insertion into a key-sorted list keeps it sorted |
| Vfs.InsertIsStable | decrypt-escape-room-terminal/serverhack.py:118 | insertion puts the new entry before the entries with its key |
| Vfs.SortByKeyCorrect | decrypt-escape-room-terminal/serverhack.py:118 | the sort is a permutation, key-sorted and stable |
| Vfs.KeySortedAllPairs | decrypt-escape-room-terminal/serverhack.py:118 | adjacent key order gives order between any two positions |
| Vfs.LsOrder | decrypt-escape-room-terminal/serverhack.py:117-119 | the listing is a permutation with every folder before every file, each group by name, equal keys in their original order |
| Vfs.LineLength | decrypt-escape-room-terminal/terminal.py:34 | the length of the text before the first newline |
| Vfs.SplitLines | decrypt-escape-room-terminal/terminal.py:34 | splitting at newlines yields at least one piece |
| Vfs.LineLengthOfExtension | decrypt-escape-room-terminal/terminal.py:34 | a newline-free prefix ends at the following newline |
| Vfs.SplitJoinLines | decrypt-escape-room-terminal/terminal.py:32-34 | splitting the listing at newlines gives back the names, when there is one and none holds a newline |
| Vfs.Names | decrypt-escape-room-terminal/terminal.py:33 | the names of the entries, in order |
| Vfs.VirtualFolder.constructor | decrypt-escape-room-terminal/serverhack.py:111-124 | a folder with no parent is its own parent with path ""; under a rooted parent its path is the parent's path, "/" and its name |
| Vfs.VirtualFolder.GetFile | decrypt-escape-room-terminal/serverhack.py:126-135 | "." is the folder itself, ".." its parent, anything else the first entry with that name or nothing |
| Vfs.VirtualFolder.Cd | decrypt-escape-room-terminal/serverhack.py:137-145 | `cd` moves to the folder `get_file` finds, and stays for a file or nothing |
| Vfs.VirtualFolder.Listing | decrypt-escape-room-terminal/terminal.py:32-34 | the names joined by newlines split back into the names, and an empty folder lists as "" |
| Vfs.VirtualFolder.Ls | decrypt-escape-room-terminal/serverhack.py:117-119 | the entries are sorted in place by key and returned |
| Vfs.OccurrencesAppend | decrypt-escape-room-terminal/serverhack.py:121-124 | counts of a character add up over a concatenation |
| Vfs.NoOccurrences | decrypt-escape-room-terminal/serverhack.py:121-124 | an absent character occurs zero times |
| Vfs.PathEmptyOnlyAtRoot | decrypt-escape-room-terminal/serverhack.py:121-124 | the path is empty exactly at the root |
| Vfs.PathHasOneSlashPerAncestor | decrypt-escape-room-terminal/serverhack.py:121-124 | with slash-free names, the path has one slash per ancestor |
| Vfs.CdTargets | decrypt-escape-room-terminal/serverhack.py:137-145 | `cd` stays on ".", goes to the parent on "..", and otherwise moves only into an entry folder with that name |
| Vfs.Extract | decrypt-escape-room-terminal/serverhack.py:200-201 | only an archive extracts, to a fresh folder named without ".zip", holding its entries, under the given parent; other files raise a CRC error and folders NotImplementedError |
| Vfs.ExtractFileCommand | decrypt-escape-room-terminal/serverhack.py:72-81 | the entry named arg is extracted and the new folder appended; a missing entry or a failed extraction leaves the entries unchanged |
| Vfs.AppendKeepsEnclosed | decrypt-escape-room-terminal/serverhack.py:78 | appending an entry whose folders are in a closed set keeps the set closed |
| Vfs.ExtractKeepsEnclosed | decrypt-escape-room-terminal/serverhack.py:72-81 | after `extract` the set with the new folder is closed again |
| Vfs.CdStaysEnclosed | decrypt-escape-room-terminal/serverhack.py:137-145 | `cd` from a folder of a closed set stays in the set |
| Vfs.SortKeepsEnclosed | decrypt-escape-room-terminal/serverhack.py:117-119 | sorting one folder's entries keeps a closed set closed |
| ServerHack.ActionOfParsed | decrypt-escape-room-terminal/serverhack.py:266-275 | the action a line takes is skip for an empty line and otherwise the dispatch of its parsed command and argument |
| ServerHack.Dispatch | decrypt-escape-room-terminal/serverhack.py:277-303 | `list`, `cd`, `extract` and `exit` select their actions, `wget` hands its argument to `download_file_command`, and every other command does nothing |
| ServerHack.ActionOfDownload | decrypt-escape-room-terminal/serverhack.py:61-64 | a line downloads (`wget` with an address that, stripped, is accepted) exactly when its first token is `wget` and its second is one of the four accepted addresses |
| ServerHack.DispatchAsWritten | decrypt-escape-room-terminal/serverhack.py:277-303 | as written, a request takes the intended action except that `wget`, `extract` and `exit` change nothing |
| ServerHack.ActionAsWritten | decrypt-escape-room-terminal/serverhack.py:266-303 | as written, a line takes the intended action except that `wget`, `extract` and `exit` change nothing |
| ServerHack.AsWrittenNeitherDownloadsNorExits | decrypt-escape-room-terminal/serverhack.py:57-81 | `wget 178.345.235.23/bk.tools.zip`, `extract bk.tools.zip` and `exit` download, unpack and quit in the intended shell and do nothing as written |
| ServerHack.Shell.constructor | decrypt-escape-room-terminal/serverhack.py:241-264 | the tree: root "" with folders "log", "usr", "lib" whose parent is the root, then "iporf.chr"; "log" holds "server.log"; the archive "bk.tools.zip" holds "cr.pdf", "run.txt", "camera.shl"; the tree is closed under parents and entries |
| ServerHack.Shell.Execute | decrypt-escape-room-terminal/serverhack.py:265-307 | one line, as a relation between the sessions before and after: `list` sorts the current entries, `cd` moves to the folder `cd` names, `wget` with an accepted address appends the archive, `extract` adds the unpacked folder, and any other line leaves the session as it was; every other folder keeps its entries, `exit` is reported exactly for an `exit` line, and the tree stays closed |
| ServerHack.Shell.ListCurrent | decrypt-escape-room-terminal/serverhack.py:117-119 | the current entries are sorted in place, folders first and then by name, and no other folder changes |
| ServerHack.Shell.DownloadArchive | decrypt-escape-room-terminal/serverhack.py:57-70 | the archive is appended to the current folder, and no other folder changes |
| ServerHack.Shell.ExtractInCurrent | decrypt-escape-room-terminal/serverhack.py:72-81 | an archive named arg becomes a fresh folder, named without ".zip", whose parent is the current folder, appended to the current folder's entries and holding the archive's entries; no other folder changes; anything else leaves the session as it was |
| ServerHack.Shell.Run | decrypt-escape-room-terminal/serverhack.py:265-301 | lines are read up to and including the first `exit`; the trace starts at the session before the loop, each line read takes one session of the trace to the next as `Execute` states, and the trace ends at the final session; the tree stays closed |
| ServerHack.NoQuitExtends | decrypt-escape-room-terminal/serverhack.py:299-301 | a non-`exit` line extends the prefix of lines without `exit` |
| ServerHack.NoFoldersAmongFiles | decrypt-escape-room-terminal/serverhack.py:241-253 | a list of plain files holds no folder |
| ServerHack.RootWithThreeFoldersEnclosed | decrypt-escape-room-terminal/serverhack.py:256-262 | the root with its three folders and one file is closed under parents and entries |
| Terminal.ActionOfParsed | decrypt-escape-room-terminal/terminal.py:135-140 | the action a line takes is skip for an empty line and otherwise the dispatch of its parsed command and argument |
| Terminal.Dispatch | decrypt-escape-room-terminal/terminal.py:142-168 | `cd`, `extract` and `exit` select their actions, `wget` downloads exactly with the one accepted address, and every other command does nothing |
| Terminal.DownloadLineAccepted | decrypt-escape-room-terminal/terminal.py:157-160 | "wget 178.345.235.23/hhtgh.zip" downloads |
| Terminal.NoQuitExtends | decrypt-escape-room-terminal/terminal.py:167-168 | a non-`exit` line extends the prefix of lines without `exit` |
| Terminal.Shell.constructor | decrypt-escape-room-terminal/terminal.py:115-128 | the tree: root "" holding folder "log", whose parent is the root and which holds "server.log"; the archive "hhtgh.zip" holds "cr.pdf" |
| Terminal.Shell.Execute | decrypt-escape-room-terminal/terminal.py:129-185 | one line, as a relation between the sessions before and after: `cd` moves to the folder `cd` names, `wget` with the one address appends the archive, `extract` adds the unpacked folder, and any other line leaves the session as it was; every other folder keeps its entries, `exit` is reported exactly for an `exit` line, and the tree stays closed |
| Terminal.Shell.DownloadArchive | decrypt-escape-room-terminal/terminal.py:157-160 | the archive is appended to the current folder, and no other folder changes |
| Terminal.Shell.ExtractInCurrent | decrypt-escape-room-terminal/terminal.py:161-166 | an archive named arg becomes a fresh folder, named without ".zip", whose parent is the current folder, appended to the current folder's entries and holding the archive's entries; no other folder changes; anything else leaves the session as it was |
| Terminal.Shell.Run | decrypt-escape-room-terminal/terminal.py:129-168 | lines are read up to and including the first `exit`; the trace starts at the session before the loop, each line read takes one session of the trace to the next as `Execute` states, and the trace ends at the final session; the tree stays closed |
| PianoTiles.Midpoint | piano-tile-bot/user/userlogic.py:44 | `int((a + b) / 2)` truncates the half toward zero and lies between a and b |
| PianoTiles.DetectLine | piano-tile-bot/user/userlogic.py:20-45 | the lines are those of the row scan, and each midpoint is the truncated middle of its line on row y |
| PianoTiles.Step | piano-tile-bot/user/userlogic.py:28-37 | one pixel of the scan never lowers the gap count, keeps the lines found and appends at most one, on row y |
| PianoTiles.ScanToOk | piano-tile-bot/user/userlogic.py:26-37 | the scan state after k pixels satisfies the scan invariant |
| PianoTiles.Lines | piano-tile-bot/user/userlogic.py:26-40 | the lines returned are those the scan emitted, in order, followed by at most one more |
| PianoTiles.LinesAreEmitted | piano-tile-bot/user/userlogic.py:26-40 | every line lies on row y, starts on a white pixel after pixel 0, is ended by a gap or runs to the last pixel, and the lines are ordered by start |
| PianoTiles.GapNeverDecreases | piano-tile-bot/user/userlogic.py:28-34 | the dark-pixel count is never reset along the row |
| PianoTiles.LongGapEndsLaterRunsAtOnce | piano-tile-bot/user/userlogic.py:29-34 | once the count exceeds max_gap, any later run ends at its first dark pixel |
| PianoTiles.AllWhiteScan | piano-tile-bot/user/userlogic.py:28-37 | in an all-white row the run beginning at pixel 0 is taken to begin at pixel 1 and nothing ends it |
| PianoTiles.AllWhiteRow | piano-tile-bot/user/userlogic.py:26-40 | an all-white row gives one line from pixel 1 to the last pixel, or none when it is not longer than min_len |
| PianoTiles.Grouped | piano-tile-bot/user/userlogic.py:72-78 | there are at most as many keys as empty-button points, and some key exactly when there is a point |
| PianoTiles.GroupedRows | piano-tile-bot/user/userlogic.py:72-78 | the keys are input points on distinct rows, and every input point is on the row of a key |
| PianoTiles.GroupedKeysArePoints | piano-tile-bot/user/userlogic.py:72-78 | every key of the grouping is one of the input points |
| PianoTiles.GroupedKeysOnDistinctRows | piano-tile-bot/user/userlogic.py:72-78 | no two keys of the grouping lie on the same row |
| PianoTiles.GroupedCoversPoints | piano-tile-bot/user/userlogic.py:72-78 | every input point lies on the row of some key |
| PianoTiles.GroupEmpty | piano-tile-bot/user/userlogic.py:72-78 | the grouping loop computes the grouped keys |
| PianoTiles.FirstNear | piano-tile-bot/user/userlogic.py:81-85 | the index is the first key within 20 rows of the point; none means no key is |
| PianoTiles.Pairing | piano-tile-bot/user/userlogic.py:80-85 | one slot per key |
| PianoTiles.FirstClaim | piano-tile-bot/user/userlogic.py:80-85 | the first play point whose first key on its row is key i; none when no point has it |
| PianoTiles.FirstClaimAppend | piano-tile-bot/user/userlogic.py:80-85 | a later play point claims a key only if no earlier one did |
| PianoTiles.PairingIsFirstClaim | piano-tile-bot/user/userlogic.py:80-85 | each key is paired with its first claiming play point, or nothing |
| PianoTiles.PairPlay | piano-tile-bot/user/userlogic.py:80-85 | the pairing loop computes the pairing |
| PianoTiles.TopButton | piano-tile-bot/user/userlogic.py:87-98 | none when no paired point is above y = 9999; otherwise the first paired point of least y, shifted by (75, 38) |
| PianoTiles.DetectButtons | piano-tile-bot/user/userlogic.py:61-98 | the chosen button is the top pair of the grouped empty points and the play points |

## Left out

- Drawing and window handling are not modelled: `refresh_screen`, `show_debug_data`, `set_ball_color`, cv2 windows, `waitKey`, `sleep` and `wait_for_user_key`. Every move counts its calls of the refresh callback instead.
- Key presses and sensor distances are inputs, and so is the ground sensor. They arrive as a key code, as booleans thresholded at the tile side, or as the thresholded maze image for the robot's ray walk. The pixel geometry that produces the distances is left out.
- The `SystemExit` raised by `user_pressed_exit` is left out. The model returns the status code instead.
- Float arithmetic is modelled as follows:
  - `Point` coordinates are exact reals, and `int()` is truncation toward zero (`Datatypes.Trunc`).
  - The robot's and the vehicle's centre pixel is the tile corner minus half a side, computed in reals and truncated by `Point` iteration.
  - `int((a + b) / 2)` in `detect_line` is truncation of the exact half.
  - Rounding of Python floats is not modelled.
- Vfs.MakeZip: the archive size is `int(sum * ratio + 10)` computed with exact reals. Float rounding of the ratio 0.91 is not modelled.
- `generateRandomString` draws its characters through a `choice` function parameter. The source's randomness is not modelled.
- `PrintableFile.print` and `ExecutableFile.run` are not modelled, because they call `lp`, `input` and the camera program. The commands `read`, `run`, `print`, `clear` and `help` change no state and are modelled as doing nothing. Their output, the help and header files and the progress bars are left out.
- The `VirtualInstance` base class's own methods all raise `NotImplementedError`. They appear only as the `NotImplemented` error of folders in `Vfs.Read` and `Vfs.Extract`.
- The prompt text (IP address and `path()`) is printed only. `path()` itself is modelled by `Vfs.VirtualFolder.Path`.
- Vfs.VirtualFolder.constructor: a folder's parent is fixed when it is built. The source's later `folder.parent = root` assignments are folded into building the children after the root, so the tree is the same.
- Vfs.Extract: the new folder shares the archive's entry values. The source shares the very list object, so a later append to an extracted folder would also show in the archive and in a second extraction; this aliasing is not modelled.
- Planner.ShortestPath: when no neighbour has a strictly smaller label the source loops forever. The model returns `NoDescent` instead, and it proves that this cannot happen over breadth-first labels.
- DepthFirst.Explorer.InitialTurn: when all four sides are walled the source turns right forever. The model stops after four turns.
- FloodFill.FloodFillScript.DriveAlongCorridor: the source drives on until a side opens, forever if none does. The model reads a finite sequence of readings and, when none opens a side, reports that the loop has not ended after them.
- FloodFill.FloodFillScript.DriveBackToWall: the source drives on until the front sensor sees a wall, forever if it never does. The model reports that the loop has not ended after the readings given.
- FloodFill.FloodFillScript.DiscoverFacingDirection: when either loop does not end within the readings given, the model stops there with the heading not discovered; the source would still be driving.
- FloodFill.FloodFillScript.Loop: a discovery frame that does not end within the readings given reports `None`, standing for a frame that has not returned. A chase frame requires the robot on the board. The source reads `flooded_grid[x][y]` (scripts/flood_fill.py:197) with no range check, which Python wraps for a negative index and rejects beyond N; such frames are not modelled. In a walled maze the robot does not leave the board.
- OptimizedFloodFill.OptimizedFloodFillScript.DriveAlongCorridor: as in FloodFill, the endless drive when no side opens is reported as a loop not ended after the readings given.
- OptimizedFloodFill.OptimizedFloodFillScript.DriveBackToWall: as in FloodFill, the endless drive when no front wall is seen is reported as a loop not ended after the readings given.
- OptimizedFloodFill.OptimizedFloodFillScript.DiscoverFacingDirection: when either loop does not end within the readings given, the model stops there with the heading not discovered.
- OptimizedFloodFill.OptimizedFloodFillScript.Loop: a discovery frame that does not end within the readings given reports `None`. A chase frame requires a board index. The source reads `flooded_grid[pos]` (optimized/optimized_flood_fill.py:204) with no range check, which Python wraps for a negative index and rejects beyond N * N; such frames are not modelled.
- RightHandRule.OptimizedRightHandRuleScript.Loop: the source moves until the ground sensor sees the centre, forever if it never does. The model makes one move per reading given and reports whether the centre was seen.
- ServerHack.Shell.Execute: models the shell as intended, with a `terminal` module whose `show_progress` takes the two arguments serverhack.py passes and which defines `clear_terminal`. As written, `wget`, `extract` and `exit` change nothing; see Findings.
- ServerHack.Shell.DownloadArchive: as written, the two-argument `show_progress` call raises TypeError before the address is checked, so nothing is downloaded; see Findings.
- ServerHack.Shell.ExtractInCurrent: as written, the two-argument `show_progress` call raises TypeError before an existing archive is extracted; see Findings.
- ServerHack.Shell.Run: as written, `exit` raises AttributeError on `terminal.clear_terminal`, which the loop catches, so the session does not end. `server_hack_task` also calls `terminal.clear_terminal` before it builds the tree (serverhack.py:231), and the script's entry calls it and `terminal.center` first (serverhack.py:310-312), so as written the shell is never reached. The model takes the terminal module as providing both.
- Vfs.ExtractFileCommand: in serverhack.py the extraction is preceded by the two-argument `show_progress` call, which as written raises TypeError; the model is the intended extraction, which terminal.py's own shell performs with its one-argument call.
- Python's set iteration order is not modelled. Where the source takes "the first" element of a set (the explorer's neighbour scan, `shortest_path`'s neighbour loop), the model chooses any element.
- The DFS demos of `test/algo.py` require a graph in which every listed neighbour is a node. The source raises `KeyError` otherwise, and that error path is not modelled.
- robot.py imports `UndefinedDirectionError` from datatypes.py, which does not define it. The model takes the module as loading and reports an undefined direction as the error value `UndefinedDirection`.
- `Vehicle.drawVehicle` is not modelled, because it is drawing.
- `detect_buttons`: the template matching and the circle drawn at the chosen point are not modelled. The matched points are inputs, in match order, and the dictionary `p_buttons` is a sequence of keys in insertion order.
- `filter_black`, `filter_custom`, `draw_lines_and_dots` and `load_templates` are not modelled, because they wrap cv2. A mask row is a sequence of booleans, white being true.
- PianoTiles.DetectLine: `mid` is built by appending one midpoint per line rather than by filling a pre-sized list; the result is the same.

## Findings

| source | as written | input that shows it | evidently intended | confidence | as-written member | corrected member |
|---|---|---|---|---|---|---|
| maze-solving-bot-simulator/scripts.py:102 | `if self.user_pressed_exit(10)` tests the truth of the status code that base_script.py returns. Both codes, 0x234 and 0x345, are non-zero, so the first `discover` call always stops the run | any key other than Escape, e.g. key code 0 | stop only when Escape (27) was pressed | not executed | DepthFirst.ExitTestAsWritten | DepthFirst.ExitRequested |
| decrypt-escape-room-terminal/serverhack.py:57-81 | `download_file_command` and `extract_file_command` call `terminal.show_progress(…, 100)` with two arguments, but terminal.py defines `show_progress(wait)` with one, so both raise TypeError before changing anything; `exit` (line 300) calls `terminal.clear_terminal`, which terminal.py does not define. The loop catches all three and goes on | `wget 178.345.235.23/bk.tools.zip`, then `extract bk.tools.zip`, then `exit` | download the archive, unpack it, end the session | not executed | ServerHack.AsWrittenNeitherDownloadsNorExits | ServerHack.Shell.Execute |

# Battlesnake move server: board model and move rule

This project models the core of a Battlesnake move server in Dafny. That core is two things:

- An occupancy grid. Each cell is empty or names the snake on it. The grid is filled from every snake's body and is updated in place when the agent's tail is pruned.
- The per-turn move rule. It plans a path from the agent's head to the first food item. Any cell that path shares with the return path from the food to the agent's tail tip is blocked, except the food cell. The rule then searches again and turns the second point of the final path into `up`, `down`, `left` or `right`.

Files:

- `outcomes.dfy`: `Option`, `Result`, and the Python exceptions the code can raise (`IndexError`, `KeyError`, `AttributeError`).
- `snake.dfy`: `Point`, the `Snake` record and its accessors, the tip-stack count, and the Manhattan distance.
- `board.dfy`: the `Board` class, the painting order of the grid, tail pruning, the lookups and the parse helpers.
- `moves.dfy`: `Direction`, `MapMove` and the move rule `GetMove`.

Modelling choices:

- The grid is an `array2` allocated exactly as the source allocates it: `width` rows of `height` cells. It is indexed `grid[y, x]`, as the source indexes `_grid[y][x]`. This is consistent only when every `y < width` and every `x < height`, for instance on a square board.
- The bounds test compares with `==`, as the source does. So a coordinate it misses but that names no allocated cell gives `Err(IndexError)`, which is what the Python raises. `GetCell`, `At` and `IsOpponentHead` state exactly when that happens.
- Python exceptions become `Err(...)` results instead of preconditions. This covers a missing agent (`KeyError` in pruning, `AttributeError` in the move rule), an empty food list, a final path shorter than two points, and a prune count longer than the body. When pruning raises `IndexError` for a count past the body, the agent's tail cells have already been cleared, and the model says so. A missing agent raises `KeyError` before anything changes. Likewise, when the move rule's final path has fewer than two points, `IndexError` comes only after the shared cells have been marked. Four members differ: the snake accessors `Head`, `Tip` and `IsHead`, and `MapMove`, which uses the head. They take a non-empty body as a precondition where Python would raise `IndexError`, because a snake's body is never empty and every caller in the model checks this first.
- The snake dictionary must be keyed by snake id. `ParseSnakes` is proved to build such a dictionary. The dictionary's iteration order, which the source does not fix, is an explicit `order` parameter of the constructor. The constructor requires every body point to name an allocated cell.
- The A* search (`find_path`) is an abstract function value of type `PathFinder`. It maps a snapshot of the grid rows and two points to a sequence of points. The only thing assumed about it is that it returns cells of the grid it is given, as the path-finding library does. The library builds its grid from `len(board)` rows of `len(board[0])` cells.

Where the code differs from how its behaviour is commonly described, or from its own comments, the model follows the code:

- Tip stacking is usually read as the run of trailing duplicates of the tip, but `tip_stack` counts every occurrence of the tip in the body. `TipStackCountsEveryOccurrence` shows a body where the two numbers differ.
- The comment in `_populate_grid` says the tip is excluded, but every body point, tip included, is painted.
- `prune_agent_tail(n)` frees the last `n` tail points and keeps `tail[:-n]` marked. It does not keep the last `n` cells occupied.
- `map_move` returns `up` when the point is the head itself. It does not leave that case undefined.
- Bounds: a bounds test is usually read as catching every coordinate at or beyond the size, but the code catches only exactly `width` or `height`. Beyond the size, the lookup raises unless the transposed allocation happens to have that cell. For example, with width 5 and height 8, `get_cell(6, 2)` returns `_grid[2][6]`.

## Model

| member | source | states |
|---|---|---|
| `Snakes.BodySplit` | app/board.py:18-28 | for a non-empty body: `body == [head] + tail`, the tail is one shorter, and the tip is the last tail point (or the head when the tail is empty) |
| `Snakes.Count` | app/board.py:31 | the summed comprehension is the number of occurrences of the point (`multiset(s)[x]`), so at most the length and positive iff the point occurs |
| `Snakes.Snake.TipStack` | app/board.py:30-31 | 0 for an empty body; otherwise the number of occurrences of the tip anywhere in the body, so between 1 and the body length and at least the trailing run of tip duplicates |
| `Snakes.TrailingRunAtMostCount` | app/board.py:30-31 | the trailing run of copies of a point never exceeds its total occurrence count |
| `Snakes.TipStackCountsEveryOccurrence` | app/board.py:30-31 | for body `[(1,1),(1,2),(1,1)]` the tip stack is 2 while the trailing run is 1 |
| `Snakes.Snake.Head` | app/board.py:18-20 | the head followed by the tail is the body |
| `Snakes.Snake.Tip` | app/board.py:22-24 | the tip is a body point: the last tail point, or the head when the tail is empty |
| `Snakes.Snake.Tail` | app/board.py:26-28 | the tail is the body without its first point, empty for an empty body |
| `Snakes.Snake.IsHead` | app/board.py:33-34 | true iff the head equals the point (x, y) |
| `Snakes.Snake.Len` | app/board.py:36-37 | 0 iff the body is empty; otherwise one more than the tail length |
| `Snakes.PtDistance` | app/board.py:76-77 | non-negative, zero iff the points are equal, at least each coordinate difference |
| `Snakes.DistanceSymmetric` | app/board.py:76-77 | the distance is symmetric |
| `Snakes.DistanceTriangle` | app/board.py:76-77 | the distance satisfies the triangle inequality |
| `Boards.LastOwner` | app/board.py:88-92 | empty iff no painted body contains the point; otherwise a painted snake whose body contains it |
| `Boards.LastOwnerIsLastPainted` | app/board.py:88-92 | where bodies overlap, the cell holds the snake painted last |
| `Boards.DropLast` | app/board.py:72 | `s[:-n]` is the prefix of `s` that is `n` shorter, or empty when `n` exceeds its length |
| `Boards.Board.constructor` | app/board.py:41-49 | keeps the inputs; each cell holds the last-painted snake on it; a cell is empty iff no body contains it |
| `Boards.Board.PopulateGrid` | app/board.py:88-92 | painting all bodies in dictionary order leaves each cell holding the last snake whose body contains it |
| `Boards.Board.AgentSnake` | app/board.py:51-55 | returns a snake of the dictionary carrying the agent id, or none when there is no such snake; for an id-keyed dictionary that is `snakes[agent_id]` |
| `Boards.Board.OutOfBounds` | app/board.py:84-85 | out iff a coordinate is negative or exactly equal to the width or height; so coordinates past the size are not caught |
| `Boards.Board.GetCell` | app/board.py:79-85 | empty when x<0, x==width, y<0 or y==height; `IndexError` exactly when the test passes but the row or column was never allocated; otherwise `_grid[y][x]` |
| `Boards.Board.At` | app/board.py:98-102 | the point lookup agrees with `GetCell` |
| `Boards.Board.Rows` | app/board.py:98-106 | the matrix seen through `len(board)` and `board[y]`: `width` rows of `height` cells, each the grid cell `_grid[y][x]` |
| `Boards.Board.Row` | app/board.py:98-103 | integer lookup returns row i, counted from the end for negative i, and raises outside `-width..width-1`; each row has `height` cells |
| `Boards.Board.Size` | app/board.py:105-106 | the board's length is its width and the number of rows |
| `Boards.Board.IsOpponentHead` | app/board.py:57-64 | false when the bounds test fires; raises `IndexError` only for unallocated cells; true iff the cell holds a snake other than the agent whose head is exactly (x, y) |
| `Boards.Board.ClearPoints` | app/board.py:70-71 | every given point's cell becomes empty, every other cell is unchanged |
| `Boards.Board.MarkPoints` | app/board.py:72-73 | every given point's cell holds the agent, every other cell is unchanged |
| `Boards.Board.PruneAgentTail` | app/board.py:66-74 | n=0 returns `None` and changes nothing; a missing agent raises `KeyError` and changes nothing; otherwise the result is `body[len-n]` (`tail[len(tail)-n]` when n <= len(tail)) or `IndexError` past the body, and kept tail points hold the agent, other tail points are empty, and all other cells are unchanged |
| `Boards.ParseFood` | app/board.py:112-113 | the food list keeps its length and order |
| `Boards.HealthOf` | app/board.py:119 | `snake.get('health', 0)`: 0 when health is missing, otherwise the given health |
| `Boards.ToSnake` | app/board.py:120-121 | the record keeps id, health and length, and its body points in order |
| `Boards.ParsedKeyedAndAlive` | app/board.py:116-122 | the parsed dictionary is keyed by id and holds only snakes with positive health |
| `Boards.ParsedKeys` | app/board.py:116-122 | an id is a key iff some record with it has positive health (missing health counts as 0) |
| `Boards.ParsedLastWins` | app/board.py:116-122 | the last live record with an id is the one kept |
| `Boards.ParseSnakes` | app/board.py:116-122 | the loop's dictionary is keyed by id, holds only live snakes, has exactly the ids of live records and keeps the last live record of each |
| `Moves.Direction.Name` | app/main.py:44-49 | each direction answers with its own string: `up`, `down`, `left`, `right` |
| `Moves.FindPathStaysOnGrid` | app/main.py:52-59 | the abstract search returns only points that name a row of the matrix it was given and a cell of that row |
| `Moves.MapMove` | app/main.py:39-49 | right when head.x < x, left when head.x > x; otherwise down when head.y < y, and up in every other case, the head itself included |
| `Moves.MapMoveReachesNeighbour` | app/main.py:39-49 | for a point at distance 1 from the head, the unit step in the chosen direction lands on it |
| `Moves.MapMoveInvertsStep` | app/main.py:39-49 | the point one unit step away maps back to that step's direction |
| `Moves.MapMoveExamples` | app/main.py:39-49 | from head (5,5): (5,4) up, (6,5) right, (4,5) left, (5,6) down |
| `Moves.SharedCells` | app/main.py:70-73 | the blocked cells are exactly the points on both paths other than the food, so the food cell is never among them and disjoint paths block nothing |
| `Moves.BlockCells` | app/main.py:74-75 | each cell of the set holds the agent, every other cell is unchanged |
| `Moves.GetMove` | app/main.py:62-78 | no food gives `IndexError` first; a missing agent gives `AttributeError`; otherwise the shared cells of the head-to-`food[0]` and food-to-tip searches are marked as the agent's and nothing else changes, and the result is `MapMove` of the second point of the re-run search, or `IndexError` when that path has fewer than two points |

## Left out

- `find_path` (app/main.py:52-59): the A* search of the external path-finding library is abstract. Only the fact that its result lies on the grid it was given is assumed.
- The HTTP handlers `static`, `start` and `move`, the WSGI application and `bottle.run` (app/main.py:12-36, 81-100): network I/O and process setup.
- `get_board` (app/board.py:125-128) and the JSON key access in the parse helpers: the parse helpers are modelled over already-decoded records.
- `Board.__str__` (app/board.py:108-109): debug printing.
- Negative body coordinates: Python list indexing would wrap them to the end of a row. The model requires every body point to name an allocated cell instead.
- Negative `width`, `height` or prune counts: the model takes them as natural numbers.
- Dictionary ordering: the parsed dictionary's insertion order and `agent_snake`'s iteration order are not modelled beyond a given painting order.
- Grid cells: every grid write stores the snake's id where the source stores the snake object itself. This applies to construction, tail pruning and the move rule's blocking step. The two agree because the dictionary is keyed by id.

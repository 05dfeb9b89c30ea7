/** The per-turn move rule of app/main.py. */
module Moves {
  import opened Outcomes
  import opened Snakes
  import opened Boards

  /** The four answers the move server can give. */
  datatype Direction = Up | Down | Left | Right
  {
    /** The string sent back to the game. */
    function Name(): (r: string)
      ensures r == "up" <==> this == Up
      ensures r == "down" <==> this == Down
      ensures r == "left" <==> this == Left
      ensures r == "right" <==> this == Right
    {
      match this
      case Up => "up"
      case Down => "down"
      case Left => "left"
      case Right => "right"
    }
  }

  /** The point one step from `p` in direction `d`; `y` grows downwards. */
  function Step(p: Point, d: Direction): (q: Point)
    ensures PtDistance(p, q) == 1
  {
    match d
    case Right => Point(p.x + 1, p.y)
    case Left => Point(p.x - 1, p.y)
    case Down => Point(p.x, p.y + 1)
    case Up => Point(p.x, p.y - 1)
  }

  /** `map_move(snake, point)`: the direction from the head towards `point`; a difference in x
      decides first, and a point level with the head (the head itself included) gives up. */
  function MapMove(snake: Snake, point: Point): (d: Direction)
    requires |snake.body| > 0
    ensures snake.Head().x < point.x ==> d == Right
    ensures snake.Head().x > point.x ==> d == Left
    ensures snake.Head().x == point.x && snake.Head().y < point.y ==> d == Down
    ensures snake.Head().x == point.x && snake.Head().y >= point.y ==> d == Up
  {
    var x := snake.Head().x - point.x;
    var y := snake.Head().y - point.y;
    if x != 0 then
      if x < 0 then Right else Left
    else
      if y < 0 then Down else Up
  }

  /** For a neighbouring point, the chosen direction steps the head onto it. */
  lemma MapMoveReachesNeighbour(snake: Snake, point: Point)
    requires |snake.body| > 0 && PtDistance(snake.Head(), point) == 1
    ensures Step(snake.Head(), MapMove(snake, point)) == point
  {
  }

  /** Mapping the point one step away gives back the step's direction. */
  lemma MapMoveInvertsStep(snake: Snake, d: Direction)
    requires |snake.body| > 0
    ensures MapMove(snake, Step(snake.Head(), d)) == d
  {
  }

  /** The four neighbours of the head at (5, 5). */
  lemma MapMoveExamples()
    ensures var s := Snake([Point(5, 5)], 1, 100, "agent");
      MapMove(s, Point(5, 4)) == Up && MapMove(s, Point(6, 5)) == Right &&
      MapMove(s, Point(4, 5)) == Left && MapMove(s, Point(5, 6)) == Down
  {
  }

  /** The cells the return route shares with the route to the food, without the food cell:
      `set(path_init) & set(path_return)`, with the food removed when it is there. */
  function SharedCells(pathInit: seq<Point>, pathReturn: seq<Point>, food: Point): (s: set<Point>)
    ensures forall p :: p in s <==> p in pathInit && p in pathReturn && p != food
    ensures food !in s
  {
    var intersects := set p | p in pathInit && p in pathReturn;
    if intersects != {} then (if food in intersects then intersects - {food} else intersects)
    else intersects
  }

  /** The search returns cells of the grid it was given, as the path-finding library does. */
  ghost predicate StaysOnGrid(f: (Matrix, Point, Point) -> seq<Point>)
  {
    forall rows, a, b, i :: 0 <= i < |f(rows, a, b)| ==>
      0 <= f(rows, a, b)[i].y < |rows| && 0 <= f(rows, a, b)[i].x < |rows[f(rows, a, b)[i].y]|
  }

  /** `find_path(board, start, end)`: the A* search of an external library, left abstract. */
  type PathFinder = f: (Matrix, Point, Point) -> seq<Point> | StaysOnGrid(f)
    witness (rows: Matrix, a: Point, b: Point) => []

  /** Every point a search returns names a row of the rows it was given and a cell of that row. */
  lemma FindPathStaysOnGrid(findPath: PathFinder, rows: Matrix, start: Point, end: Point)
    ensures forall p :: p in findPath(rows, start, end) ==> 0 <= p.y < |rows| && 0 <= p.x < |rows[p.y]|
  {
  }

  /** The move rule gets past its lookups: there is food and an agent snake with a body. */
  predicate Plans(board: Board)
  {
    |board.food| > 0 && board.agentId in board.snakes && |board.snakes[board.agentId].body| > 0
  }

  /** The shared cells lie on the path to the food, so on allocated cells. */
  lemma SharedCellsIndexable(board: Board, findPath: PathFinder, rows: Matrix, head: Point,
                             food: Point, pathReturn: seq<Point>)
    requires board.WellFormed() && |rows| == board.width
    requires forall y :: 0 <= y < |rows| ==> |rows[y]| == board.height
    ensures forall p :: p in SharedCells(findPath(rows, head, food), pathReturn, food) ==>
      board.Indexable(p.x, p.y)
  {
  }

  /** The loop `for x, y in intersects: board[y][x] = snake`: marks each cell of `cells` as
      held by snake `id`, in whatever order the set yields them. */
  method BlockCells(board: Board, cells: set<Point>, id: SnakeId)
    requires board.Valid()
    requires forall p :: p in cells ==> board.Indexable(p.x, p.y)
    requires id in board.snakes && |board.snakes[id].body| > 0
    modifies board.grid
    ensures board.Valid()
    ensures forall y, x :: 0 <= y < board.width && 0 <= x < board.height ==>
      board.grid[y, x] == if Point(x, y) in cells then Some(id) else old(board.grid[y, x])
  {
    var remaining := cells;
    while remaining != {}
      invariant remaining <= cells
      invariant board.Valid()
      invariant forall y, x :: 0 <= y < board.width && 0 <= x < board.height ==>
        board.grid[y, x] == if Point(x, y) in cells - remaining then Some(id)
                            else old(board.grid[y, x])
      decreases |remaining|
    {
      var p :| p in remaining;
      board.grid[p.y, p.x] := Some(id);
      remaining := remaining - {p};
    }
  }

  /** `get_move(board)`: searches head to first food and food to tail tip, marks the cells the two
      routes share (except the food) as the agent's, searches head to food again and maps the
      second point of that path to a move. */
  method GetMove(board: Board, findPath: PathFinder) returns (r: Result<Direction>)
    requires board.Valid()
    modifies board.grid
    ensures board.Valid()
    ensures |board.food| == 0 ==> r == Err(IndexError)
    ensures |board.food| > 0 && board.agentId !in board.snakes ==> r == Err(AttributeError)
    ensures |board.food| > 0 && board.agentId in board.snakes && board.snakes[board.agentId].body == [] ==>
      r == Err(IndexError)
    ensures !Plans(board) ==>
      forall y, x :: 0 <= y < board.width && 0 <= x < board.height ==>
        board.grid[y, x] == old(board.grid[y, x])
    ensures Plans(board) ==>
      var agent := board.snakes[board.agentId];
      var target := board.food[0];
      var blocked := SharedCells(findPath(old(board.Rows()), agent.Head(), target),
                                 findPath(old(board.Rows()), target, agent.Tip()), target);
      forall y, x :: 0 <= y < board.width && 0 <= x < board.height ==>
        board.grid[y, x] == if Point(x, y) in blocked then Some(board.agentId) else old(board.grid[y, x])
    ensures Plans(board) ==>
      var agent := board.snakes[board.agentId];
      var pathFinal := findPath(board.Rows(), agent.Head(), board.food[0]);
      r == if |pathFinal| >= 2 then Ok(MapMove(agent, pathFinal[1])) else Err(IndexError)
  {
    var found := board.AgentSnake();
    if |board.food| == 0 {
      return Err(IndexError);
    }
    var food := board.food[0];
    if found.None? {
      return Err(AttributeError);
    }
    var snake := found.value;
    if |snake.body| == 0 {
      return Err(IndexError);
    }
    var rows := board.Rows();
    var pathInit := findPath(rows, snake.Head(), food);
    var pathReturn := findPath(rows, food, snake.Tip());
    var blocked := SharedCells(pathInit, pathReturn, food);
    SharedCellsIndexable(board, findPath, rows, snake.Head(), food, pathReturn);
    BlockCells(board, blocked, snake.id);
    var pathFinal := findPath(board.Rows(), snake.Head(), food);
    if |pathFinal| < 2 {
      return Err(IndexError);
    }
    return Ok(MapMove(snake, pathFinal[1]));
  }
}

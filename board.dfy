/** The occupancy grid of app/board.py: the `Board` class and the parse helpers. */
module Boards {
  import opened Outcomes
  import opened Snakes

  /** A row-major snapshot of the grid: `Rows()[y][x]` is the cell that `_grid[y][x]` holds. */
  type Matrix = seq<seq<Option<SnakeId>>>

  /** Every snake is stored under its own id, as the parse helper builds the dictionary. */
  ghost predicate KeyedById(snakes: map<SnakeId, Snake>)
  {
    forall k :: k in snakes ==> snakes[k].id == k
  }

  /** The snake painted last on point `p` when the snakes are painted in the order `ids`,
      or `None` when no body in `ids` contains `p`. */
  function LastOwner(ids: seq<SnakeId>, snakes: map<SnakeId, Snake>, p: Point): (r: Option<SnakeId>)
    requires forall k :: k in ids ==> k in snakes
    ensures r.None? <==> forall k :: k in ids ==> p !in snakes[k].body
    ensures r.Some? ==> r.value in ids && p in snakes[r.value].body
  {
    if ids == [] then None
    else if p in snakes[ids[|ids| - 1]].body then Some(ids[|ids| - 1])
    else LastOwner(ids[..|ids| - 1], snakes, p)
  }

  /** Where bodies overlap, the snake painted last wins. */
  lemma {:induction false} LastOwnerIsLastPainted(ids: seq<SnakeId>, snakes: map<SnakeId, Snake>, p: Point, i: nat)
    requires forall k :: k in ids ==> k in snakes
    requires i < |ids| && p in snakes[ids[i]].body
    requires forall j :: i < j < |ids| ==> p !in snakes[ids[j]].body
    ensures LastOwner(ids, snakes, p) == Some(ids[i])
  {
    if i < |ids| - 1 {
      var prefix := ids[..|ids| - 1];
      assert prefix[i] == ids[i];
      forall j | i < j < |prefix|
        ensures p !in snakes[prefix[j]].body
      {
        assert prefix[j] == ids[j];
      }
      LastOwnerIsLastPainted(prefix, snakes, p, i);
    }
  }

  /** Python's `s[:-n]` for `n >= 1`: `s` without its last `n` entries, or empty when `n`
      exceeds its length. */
  function DropLast(s: seq<Point>, n: nat): (r: seq<Point>)
    requires n >= 1
    ensures |r| == if n <= |s| then |s| - n else 0
    ensures r == s[..|r|]
  {
    if n <= |s| then s[..|s| - n] else []
  }

  class Board {
    const agentId: SnakeId
    const width: nat
    const height: nat
    const snakes: map<SnakeId, Snake>
    const food: seq<Food>
    /** Allocated as `width` rows of `height` cells and indexed `grid[y, x]`, as `_grid[y][x]`. */
    const grid: array2<Option<SnakeId>>

    /** Whether `_grid[y][x]` names an allocated cell (row `y < width`, column `x < height`). */
    predicate Indexable(x: int, y: int)
    {
      0 <= y < width && 0 <= x < height
    }

    /** The facts about the immutable fields that construction establishes. */
    ghost predicate WellFormed()
    {
      grid.Length0 == width && grid.Length1 == height &&
      KeyedById(snakes) &&
      forall k, i :: k in snakes && 0 <= i < |snakes[k].body| ==>
        Indexable(snakes[k].body[i].x, snakes[k].body[i].y)
    }

    /** The object invariant: every occupied cell names a snake of the board whose body is non-empty. */
    ghost predicate Valid()
      reads grid
    {
      WellFormed() &&
      forall y, x :: 0 <= y < width && 0 <= x < height && grid[y, x].Some? ==>
        grid[y, x].value in snakes && |snakes[grid[y, x].value].body| > 0
    }

    /** Builds the board and paints every body onto the grid; `order` is the iteration order of
        the snake dictionary, which the source does not fix. */
    constructor (agentId: SnakeId, width: nat, height: nat, snakes: map<SnakeId, Snake>,
                 food: seq<Food>, order: seq<SnakeId>)
      requires KeyedById(snakes)
      requires forall k :: k in snakes <==> k in order
      requires forall k, i :: k in snakes && 0 <= i < |snakes[k].body| ==>
        0 <= snakes[k].body[i].y < width && 0 <= snakes[k].body[i].x < height
      ensures Valid() && fresh(grid)
      ensures this.agentId == agentId && this.width == width && this.height == height
      ensures this.snakes == snakes && this.food == food
      ensures forall y, x :: 0 <= y < width && 0 <= x < height ==>
        grid[y, x] == LastOwner(order, snakes, Point(x, y))
      ensures forall y, x :: 0 <= y < width && 0 <= x < height ==>
        (grid[y, x].None? <==> forall k :: k in snakes ==> Point(x, y) !in snakes[k].body)
    {
      this.agentId := agentId;
      this.width := width;
      this.height := height;
      this.snakes := snakes;
      this.food := food;
      grid := new Option<SnakeId>[width, height]((y, x) => None);
      new;
      PopulateGrid(order);
    }

    /** Paints the body points of the snakes in `order` onto an empty grid, one snake after the other. */
    method PopulateGrid(order: seq<SnakeId>)
      requires WellFormed()
      requires forall k :: k in order ==> k in snakes
      requires forall y, x :: 0 <= y < width && 0 <= x < height ==> grid[y, x] == None
      modifies grid
      ensures Valid()
      ensures forall y, x :: 0 <= y < width && 0 <= x < height ==>
        grid[y, x] == LastOwner(order, snakes, Point(x, y))
    {
      var i := 0;
      while i < |order|
        invariant 0 <= i <= |order|
        invariant forall y, x :: 0 <= y < width && 0 <= x < height ==>
          grid[y, x] == LastOwner(order[..i], snakes, Point(x, y))
      {
        var id := order[i];
        var body := snakes[id].body;
        var j := 0;
        while j < |body|
          invariant 0 <= j <= |body|
          invariant forall y, x :: 0 <= y < width && 0 <= x < height ==>
            grid[y, x] == if Point(x, y) in body[..j] then Some(id)
                          else LastOwner(order[..i], snakes, Point(x, y))
        {
          var p := body[j];
          assert Indexable(snakes[id].body[j].x, snakes[id].body[j].y);
          grid[p.y, p.x] := Some(id);
          assert body[..j + 1] == body[..j] + [p];
          j := j + 1;
        }
        assert body[..j] == body;
        assert order[..i + 1][..i] == order[..i];
        i := i + 1;
      }
      assert order[..i] == order;
    }

    /** `agent_snake`: the first snake of the dictionary whose id is the agent's, or `None`. */
    method AgentSnake() returns (r: Option<Snake>)
      ensures r.Some? ==> r.value in snakes.Values && r.value.id == agentId
      ensures r.None? ==> forall s :: s in snakes.Values ==> s.id != agentId
      ensures KeyedById(snakes) ==> r == if agentId in snakes then Some(snakes[agentId]) else None
    {
      if KeyedById(snakes) && agentId in snakes {
        assert snakes[agentId] in snakes.Values;
      }
      var remaining := snakes.Values;
      while remaining != {}
        invariant remaining <= snakes.Values
        invariant forall s :: s in snakes.Values - remaining ==> s.id != agentId
        decreases |remaining|
      {
        var s :| s in remaining;
        if s.id == agentId {
          return Some(s);
        }
        remaining := remaining - {s};
      }
      return None;
    }

    /** `_out_of_bounds`: the bounds test, which compares with `==` rather than `>=`. */
    function OutOfBounds(x: int, y: int): (r: bool)
      ensures x < 0 || y < 0 ==> r
      ensures 0 <= x < width && 0 <= y < height ==> !r
      ensures x == width || y == height ==> r
      ensures 0 <= x && 0 <= y && x != width && y != height ==> !r
    {
      x < 0 || x == width || y < 0 || y == height
    }

    /** `get_cell(x, y)`: `None` when the bounds test fires, otherwise `_grid[y][x]`, which
        raises when the row or column was never allocated. */
    function GetCell(x: int, y: int): (r: Result<Option<SnakeId>>)
      requires WellFormed()
      reads grid
      ensures (x < 0 || x == width || y < 0 || y == height) ==> r == Ok(None)
      ensures r.Err? <==> 0 <= x && 0 <= y && x != width && y != height && (y >= width || x >= height)
      ensures r.Err? ==> r.error == IndexError
      ensures r.Ok? && r.value.Some? ==> Indexable(x, y) && r.value == grid[y, x]
      ensures !OutOfBounds(x, y) && Indexable(x, y) ==> r == Ok(grid[y, x])
    {
      if OutOfBounds(x, y) then Ok(None)
      else if !Indexable(x, y) then Err(IndexError)
      else Ok(grid[y, x])
    }

    /** `board[point]`: the point lookup, written out separately in the source. */
    function At(p: Point): (r: Result<Option<SnakeId>>)
      requires WellFormed()
      reads grid
      ensures r == GetCell(p.x, p.y)
    {
      if OutOfBounds(p.x, p.y) then Ok(None)
      else if 0 <= p.y < grid.Length0 && 0 <= p.x < grid.Length1 then Ok(grid[p.y, p.x])
      else Err(IndexError)
    }

    /** The grid as the rows that `board[y]` and `len(board)` expose to the path search. */
    function Rows(): (r: Matrix)
      reads grid
      ensures |r| == grid.Length0
      ensures forall y :: 0 <= y < |r| ==> |r[y]| == grid.Length1
      ensures forall y, x :: 0 <= y < grid.Length0 && 0 <= x < grid.Length1 ==> r[y][x] == grid[y, x]
    {
      seq(grid.Length0, y reads grid requires 0 <= y < grid.Length0 =>
        seq(grid.Length1, x reads grid requires 0 <= x < grid.Length1 => grid[y, x]))
    }

    /** `board[i]` for an integer `i`: row `i` of the grid, counted from the end when negative. */
    function Row(i: int): (r: Result<seq<Option<SnakeId>>>)
      requires WellFormed()
      reads grid
      ensures r.Ok? <==> -(width as int) <= i < width
      ensures r.Err? ==> r.error == IndexError
      ensures 0 <= i < width ==> r == Ok(Rows()[i])
      ensures -(width as int) <= i < 0 ==> r == Ok(Rows()[width + i])
      ensures r.Ok? ==> |r.value| == height
    {
      if 0 <= i < grid.Length0 then Ok(Rows()[i])
      else if -grid.Length0 <= i < 0 then Ok(Rows()[grid.Length0 + i])
      else Err(IndexError)
    }

    /** `len(board)`: the number of rows, which is the width. */
    function Size(): (r: nat)
      requires WellFormed()
      reads grid
      ensures r == width
      ensures r == |Rows()|
    {
      grid.Length0
    }

    /** `is_opponent_head(x, y)`: whether the cell holds a snake other than the agent whose head
        is exactly (x, y); false when the bounds test fires. */
    function IsOpponentHead(x: int, y: int): (r: Result<bool>)
      requires Valid()
      reads grid
      ensures OutOfBounds(x, y) ==> r == Ok(false)
      ensures r.Err? <==> !OutOfBounds(x, y) && !Indexable(x, y)
      ensures r.Err? ==> r.error == IndexError
      ensures r == Ok(true) <==>
        !OutOfBounds(x, y) && Indexable(x, y) && grid[y, x].Some? &&
        grid[y, x].value != agentId && snakes[grid[y, x].value].Head() == Point(x, y)
    {
      if OutOfBounds(x, y) then Ok(false)
      else if !Indexable(x, y) then Err(IndexError)
      else
        match grid[y, x]
        case None => Ok(false)
        case Some(k) =>
          var cell := snakes[k];
          Ok(cell.id != agentId && snakes[cell.id].IsHead(x, y))
    }

    /** Whether every point of `ps` names an allocated cell. */
    predicate AllIndexable(ps: seq<Point>)
    {
      forall i :: 0 <= i < |ps| ==> Indexable(ps[i].x, ps[i].y)
    }

    /** The first loop of `prune_agent_tail`: sets the cell of every point of `ps` to `None`. */
    method ClearPoints(ps: seq<Point>)
      requires Valid() && AllIndexable(ps)
      modifies grid
      ensures Valid()
      ensures forall y, x :: 0 <= y < width && 0 <= x < height ==>
        grid[y, x] == if Point(x, y) in ps then None else old(grid[y, x])
    {
      var i := 0;
      while i < |ps|
        invariant 0 <= i <= |ps|
        invariant Valid()
        invariant forall y, x :: 0 <= y < width && 0 <= x < height ==>
          grid[y, x] == if Point(x, y) in ps[..i] then None else old(grid[y, x])
      {
        var p := ps[i];
        grid[p.y, p.x] := None;
        assert ps[..i + 1] == ps[..i] + [p];
        i := i + 1;
      }
      assert ps[..i] == ps;
    }

    /** The second loop of `prune_agent_tail`: sets the cell of every point of `ps` to snake `id`. */
    method MarkPoints(ps: seq<Point>, id: SnakeId)
      requires Valid() && AllIndexable(ps)
      requires id in snakes && |snakes[id].body| > 0
      modifies grid
      ensures Valid()
      ensures forall y, x :: 0 <= y < width && 0 <= x < height ==>
        grid[y, x] == if Point(x, y) in ps then Some(id) else old(grid[y, x])
    {
      var i := 0;
      while i < |ps|
        invariant 0 <= i <= |ps|
        invariant Valid()
        invariant forall y, x :: 0 <= y < width && 0 <= x < height ==>
          grid[y, x] == if Point(x, y) in ps[..i] then Some(id) else old(grid[y, x])
      {
        var p := ps[i];
        grid[p.y, p.x] := Some(id);
        assert ps[..i + 1] == ps[..i] + [p];
        i := i + 1;
      }
      assert ps[..i] == ps;
    }

    /** The tail of a snake of the board lies on allocated cells. */
    lemma TailIndexable(k: SnakeId)
      requires WellFormed() && k in snakes
      ensures AllIndexable(snakes[k].Tail())
    {
    }

    /** `prune_agent_tail(n)`: clears every tail cell of the agent, re-marks all but the last `n`
        tail points, and returns the body point `n` places from the end. For `n` beyond the
        body the grid is already changed when the final index raises. */
    method PruneAgentTail(n: nat) returns (r: Result<Option<Point>>)
      requires Valid()
      modifies grid
      ensures Valid()
      ensures n == 0 ==> r == Ok(None)
      ensures n > 0 && agentId !in snakes ==> r == Err(KeyError)
      ensures n == 0 || agentId !in snakes ==>
        forall y, x :: 0 <= y < width && 0 <= x < height ==> grid[y, x] == old(grid[y, x])
      ensures n > 0 && agentId in snakes ==>
        var body := snakes[agentId].body;
        r == if n <= |body| then Ok(Some(body[|body| - n])) else Err(IndexError)
      ensures n > 0 && agentId in snakes && n <= |snakes[agentId].Tail()| ==>
        var tail := snakes[agentId].Tail();
        r == Ok(Some(tail[|tail| - n]))
      ensures n > 0 && agentId in snakes ==>
        var tail := snakes[agentId].Tail();
        forall y, x :: 0 <= y < width && 0 <= x < height ==>
          grid[y, x] == if Point(x, y) in DropLast(tail, n) then Some(agentId)
                        else if Point(x, y) in tail then None
                        else old(grid[y, x])
    {
      if n == 0 {
        return Ok(None);
      }
      if agentId !in snakes {
        return Err(KeyError);
      }
      var snake := snakes[agentId];
      var tail := snake.Tail();
      TailIndexable(agentId);
      ClearPoints(tail);
      var kept := DropLast(tail, n);
      if kept != [] {
        assert AllIndexable(kept) by {
          forall i | 0 <= i < |kept| ensures Indexable(kept[i].x, kept[i].y) {
            assert kept[i] == tail[i];
          }
        }
        MarkPoints(kept, snake.id);
      }
      if n <= |snake.body| {
        return Ok(Some(snake.body[|snake.body| - n]));
      }
      return Err(IndexError);
    }
  }

  /** A point as the decoded turn data gives it. */
  datatype PointData = PointData(x: int, y: int)

  /** A snake as the decoded turn data gives it; `health` may be missing. */
  datatype SnakeData = SnakeData(id: SnakeId, health: Option<int>, length: int, body: seq<PointData>)

  function ToPoint(d: PointData): Point
  {
    Point(d.x, d.y)
  }

  /** `_parse_food`: the food list, in the order it arrives. */
  function ParseFood(food: seq<PointData>): (r: seq<Food>)
    ensures |r| == |food|
    ensures forall i :: 0 <= i < |food| ==> r[i].x == food[i].x && r[i].y == food[i].y
  {
    seq(|food|, i requires 0 <= i < |food| => ToPoint(food[i]))
  }

  /** `snake.get('health', 0)`. */
  function HealthOf(d: SnakeData): (h: int)
    ensures d.health.None? ==> h == 0
    ensures d.health.Some? ==> h == d.health.value
  {
    match d.health
    case None => 0
    case Some(h) => h
  }

  predicate Alive(d: SnakeData)
  {
    HealthOf(d) > 0
  }

  /** The Snake record built from a decoded snake, body points in order. */
  function ToSnake(d: SnakeData): (s: Snake)
    ensures s.id == d.id && s.health == HealthOf(d) && s.length == d.length
    ensures |s.body| == |d.body|
    ensures forall i :: 0 <= i < |d.body| ==> s.body[i] == Point(d.body[i].x, d.body[i].y)
  {
    Snake(seq(|d.body|, i requires 0 <= i < |d.body| => ToPoint(d.body[i])), d.length, HealthOf(d), d.id)
  }

  /** Record `i` is live and no later live record has its id. */
  ghost predicate LastAlive(data: seq<SnakeData>, i: int)
  {
    0 <= i < |data| && Alive(data[i]) &&
    forall j :: i < j < |data| && data[j].id == data[i].id ==> !Alive(data[j])
  }

  /** The dictionary the parse loop has built after reading `data` in order. */
  function Parsed(data: seq<SnakeData>): map<SnakeId, Snake>
  {
    if data == [] then map[]
    else
      var last := data[|data| - 1];
      var prev := Parsed(data[..|data| - 1]);
      if Alive(last) then prev[last.id := ToSnake(last)] else prev
  }

  /** The parsed dictionary is keyed by id and holds only live snakes. */
  lemma {:induction false} ParsedKeyedAndAlive(data: seq<SnakeData>)
    ensures KeyedById(Parsed(data))
    ensures forall k :: k in Parsed(data) ==> Parsed(data)[k].health > 0
  {
    if data != [] {
      ParsedKeyedAndAlive(data[..|data| - 1]);
    }
  }

  /** An id is a key exactly when some live record carries it. */
  lemma {:induction false} ParsedKeys(data: seq<SnakeData>, k: SnakeId)
    ensures k in Parsed(data) <==> exists i :: 0 <= i < |data| && data[i].id == k && Alive(data[i])
  {
    if data != [] {
      var prefix := data[..|data| - 1];
      ParsedKeys(prefix, k);
      if k in Parsed(prefix) {
        var i :| 0 <= i < |prefix| && prefix[i].id == k && Alive(prefix[i]);
        assert data[i] == prefix[i];
      }
      if exists i :: 0 <= i < |data| && data[i].id == k && Alive(data[i]) {
        var i :| 0 <= i < |data| && data[i].id == k && Alive(data[i]);
        if i < |prefix| {
          assert prefix[i] == data[i];
        }
      }
    }
  }

  /** Of several live records with one id, the last one is kept. */
  lemma {:induction false} ParsedLastWins(data: seq<SnakeData>, i: nat)
    requires LastAlive(data, i)
    ensures data[i].id in Parsed(data) && Parsed(data)[data[i].id] == ToSnake(data[i])
  {
    if i < |data| - 1 {
      var prefix := data[..|data| - 1];
      assert prefix[i] == data[i];
      forall j | i < j < |prefix| && prefix[j].id == prefix[i].id
        ensures !Alive(prefix[j])
      {
        assert prefix[j] == data[j];
      }
      ParsedLastWins(prefix, i);
    }
  }

  /** `_parse_snakes`: keeps the records with positive health (missing health counts as 0),
      keyed by id, later records with the same id replacing earlier ones. */
  method ParseSnakes(data: seq<SnakeData>) returns (snakes: map<SnakeId, Snake>)
    ensures KeyedById(snakes)
    ensures forall k :: k in snakes ==> snakes[k].health > 0
    ensures forall k :: k in snakes <==> exists i :: 0 <= i < |data| && data[i].id == k && Alive(data[i])
    ensures forall i :: LastAlive(data, i) ==> data[i].id in snakes && snakes[data[i].id] == ToSnake(data[i])
  {
    snakes := map[];
    var i := 0;
    while i < |data|
      invariant 0 <= i <= |data|
      invariant snakes == Parsed(data[..i])
    {
      var d := data[i];
      assert data[..i + 1][..i] == data[..i];
      if HealthOf(d) > 0 {
        snakes := snakes[d.id := ToSnake(d)];
      }
      i := i + 1;
    }
    assert data[..i] == data;
    ParsedKeyedAndAlive(data);
    forall k ensures k in snakes <==> exists i :: 0 <= i < |data| && data[i].id == k && Alive(data[i]) {
      ParsedKeys(data, k);
    }
    forall i | LastAlive(data, i)
      ensures data[i].id in snakes && snakes[data[i].id] == ToSnake(data[i])
    {
      ParsedLastWins(data, i);
    }
  }
}

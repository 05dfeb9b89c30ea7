/** Points, snakes and the Manhattan distance of app/board.py. */
module Snakes {

  /** The identifier the game gives each snake. */
  type SnakeId = string

  /** A grid coordinate; `Point` is a named tuple compared by value. */
  datatype Point = Point(x: int, y: int)

  /** `Food` subclasses `Point` and adds nothing. */
  type Food = Point

  /** Number of occurrences of `x` in `s`. */
  function Count(s: seq<Point>, x: Point): (r: nat)
    ensures r <= |s|
    ensures r > 0 <==> x in s
    ensures r == multiset(s)[x]
  {
    assert s != [] ==> s == s[..|s| - 1] + [s[|s| - 1]];
    if s == [] then 0
    else Count(s[..|s| - 1], x) + (if s[|s| - 1] == x then 1 else 0)
  }

  /** Length of the run of copies of `x` at the end of `s`. */
  function TrailingRun(s: seq<Point>, x: Point): nat
  {
    if s == [] || s[|s| - 1] != x then 0 else TrailingRun(s[..|s| - 1], x) + 1
  }

  lemma {:induction false} TrailingRunAtMostCount(s: seq<Point>, x: Point)
    ensures TrailingRun(s, x) <= Count(s, x)
  {
    if s != [] {
      TrailingRunAtMostCount(s[..|s| - 1], x);
    }
  }

  /** A snake: its body from head (index 0) to tail tip, its reported length and health, its id. */
  datatype Snake = Snake(body: seq<Point>, length: int, health: int, id: SnakeId)
  {
    /** The first body point. */
    function Head(): (r: Point)
      requires |body| > 0
      ensures body == [r] + Tail()
    {
      body[0]
    }

    /** The last body point, the tail tip. */
    function Tip(): (r: Point)
      requires |body| > 0
      ensures r in body
      ensures Tail() == [] ==> r == Head()
      ensures Tail() != [] ==> r == Tail()[|Tail()| - 1]
    {
      body[|body| - 1]
    }

    /** Every body point after the head. */
    function Tail(): (r: seq<Point>)
      ensures |r| == if body == [] then 0 else |body| - 1
      ensures forall i :: 0 <= i < |r| ==> r[i] == body[i + 1]
    {
      if body == [] then [] else body[1..]
    }

    /** How many body points equal the tip, counted over the whole body (not only the trailing run). */
    function TipStack(): (r: nat)
      ensures |body| == 0 ==> r == 0
      ensures |body| > 0 ==> 1 <= r <= |body|
      ensures |body| > 0 ==> TrailingRun(body, Tip()) <= r
      ensures |body| > 0 ==> r == multiset(body)[Tip()]
    {
      if body == [] then 0
      else
        TrailingRunAtMostCount(body, body[|body| - 1]);
        Count(body, body[|body| - 1])
    }

    /** Whether the head lies at (x, y). */
    function IsHead(x: int, y: int): (r: bool)
      requires |body| > 0
      ensures r <==> Head() == Point(x, y)
    {
      body[0].x == x && body[0].y == y
    }

    /** `len(snake)`: the number of body points. */
    function Len(): (r: nat)
      ensures r == 0 <==> body == []
      ensures body != [] ==> r == |Tail()| + 1
    {
      |body|
    }
  }

  /** The head, the tail and the tip split the body: head first, then the tail, whose last point
      is the tip (or the tip is the head when the tail is empty). */
  lemma BodySplit(s: Snake)
    requires |s.body| > 0
    ensures s.body == [s.Head()] + s.Tail()
    ensures |s.Tail()| == |s.body| - 1
    ensures s.Tip() == if s.Tail() == [] then s.Head() else s.Tail()[|s.Tail()| - 1]
  {
  }

  /** A body in which the tip also occurs away from the end: the stack count exceeds the
      trailing run. */
  lemma TipStackCountsEveryOccurrence()
    ensures var s := Snake([Point(1, 1), Point(1, 2), Point(1, 1)], 3, 100, "a");
      s.TipStack() == 2 && TrailingRun(s.body, s.Tip()) == 1
  {
    var s := Snake([Point(1, 1), Point(1, 2), Point(1, 1)], 3, 100, "a");
    assert s.body[..2] == [Point(1, 1), Point(1, 2)];
    assert s.body[..2][..1] == [Point(1, 1)];
    assert s.body[..2][..1][..0] == [];
  }

  /** `Board.pt_distance`: the Manhattan distance (the method does not use its board). */
  function PtDistance(a: Point, b: Point): (r: nat)
    ensures r == 0 <==> a == b
    ensures r >= (if b.x >= a.x then b.x - a.x else a.x - b.x)
    ensures r >= (if b.y >= a.y then b.y - a.y else a.y - b.y)
  {
    Abs(b.y - a.y) + Abs(b.x - a.x)
  }

  function Abs(n: int): nat
  {
    if n < 0 then -n else n
  }

  lemma DistanceSymmetric(a: Point, b: Point)
    ensures PtDistance(a, b) == PtDistance(b, a)
  {
  }

  lemma DistanceTriangle(a: Point, b: Point, c: Point)
    ensures PtDistance(a, c) <= PtDistance(a, b) + PtDistance(b, c)
  {
  }
}

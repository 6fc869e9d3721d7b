/** The line of dots between two points. */
module Bresenham {
  datatype Point = Point(x: int, y: int)

  function Abs(a: int): nat {
    if a < 0 then -a else a
  }

  function Max(a: int, b: int): int {
    if a > b then a else b
  }

  /** The longer way along an axis */
  function Length(p: Point, q: Point): int {
    Max(Abs(q.x - p.x), Abs(q.y - p.y))
  }

  /** The cross product of the way to a point and the way to the end: its distance
      from the line along the shorter axis, times the longer way */
  function Off(p: Point, q: Point, at: Point): int {
    (at.x - p.x) * (q.y - p.y) - (at.y - p.y) * (q.x - p.x)
  }

  /** Within half a pixel of the line along the shorter axis */
  predicate Near(p: Point, q: Point, at: Point) {
    2 * Abs(Off(p, q, at)) <= Length(p, q)
  }

  /** `k` steps along the longer axis */
  predicate Along(p: Point, q: Point, at: Point, k: int) {
    if Abs(q.x - p.x) >= Abs(q.y - p.y) then Abs(at.x - p.x) == k && (at.x - p.x) * (q.x - p.x) >= 0
    else Abs(at.y - p.y) == k && (at.y - p.y) * (q.y - p.y) >= 0
  }

  // ----- Steps, whatever the directions -----

  /** After `i` steps along x and `j` along y of `dx` and `dy`: the cross product */
  function Cross(dx: int, dy: int, i: int, j: int): int {
    i * dy - j * dx
  }

  /** On the way: within half a step, and as far along the longer axis as steps were
      taken */
  predicate OnTheWay(dx: nat, dy: nat, i: int, j: int, k: int) {
    && 0 <= i <= dx && 0 <= j <= dy
    && -Max(dx, dy) <= 2 * Cross(dx, dy, i, j) <= Max(dx, dy)
    && k == (if dx >= dy then i else j)
  }

  predicate GoesX(dx: int, dy: int, error: int) {
    2 * error > -dy
  }

  predicate GoesY(dx: int, dy: int, error: int) {
    2 * error < dx
  }

  lemma Times(a: int, b: int)
    ensures (a + 1) * b == a * b + b
  {
  }

  /** One turn of the loop takes one step along the longer axis, and one along the
      other just when the line has come closer to the next row */
  lemma TurnKeepsTrack(dx: nat, dy: nat, i: int, j: int, k: int, error: int)
    requires OnTheWay(dx, dy, i, j, k) && error == dx - dy - Cross(dx, dy, i, j) && !(i == dx && j == dy)
    ensures var i' := if GoesX(dx, dy, error) then i + 1 else i;
            var j' := if GoesY(dx, dy, error) then j + 1 else j;
            && OnTheWay(dx, dy, i', j', k + 1)
            && dx - dy - Cross(dx, dy, i', j') == error - (if GoesX(dx, dy, error) then dy else 0)
              + (if GoesY(dx, dy, error) then dx else 0)
  {
    Times(i, dy);
    Times(j, dx);
    if dx >= dy {
      NotThere(dx, dy, i, j);
      SquareStep(dx, dy, i, j);
      Inside(dx, dy, i + 1, if GoesY(dx, dy, error) then j + 1 else j);
    } else {
      NotThere(dy, dx, j, i);
      Inside(dy, dx, j + 1, if GoesX(dx, dy, error) then i + 1 else i);
    }
  }

  /** Along the longer axis there is further to go */
  lemma NotThere(major: nat, minor: nat, i: int, j: int)
    requires major >= minor && 0 <= i <= major && 0 <= j <= minor && !(i == major && j == minor)
    requires 2 * Abs(Cross(major, minor, i, j)) <= major
    ensures i < major
  {
    if i == major {
      assert Cross(major, minor, i, j) == (minor - j) * major;
      Whole(minor - j, major);
    }
  }

  lemma Whole(n: int, m: nat)
    requires n > 0 && m > 0
    ensures n * m >= m
  {
  }

  /** On a diagonal the cross product is never half a step */
  lemma SquareStep(dx: nat, dy: nat, i: int, j: int)
    requires dx >= dy && dx > 0
    ensures dx == dy ==> 2 * Cross(dx, dy, i, j) != dx
  {
    if dx == dy {
      assert Cross(dx, dy, i, j) == (i - j) * dx;
      if i - j >= 1 {
        Whole(i - j, dx);
      } else {
        NotMore(i - j, dx);
      }
    }
  }

  lemma NotMore(n: int, m: nat)
    requires n <= 0
    ensures n * m <= 0
  {
  }

  /** Close to the line is between its ends */
  lemma Inside(major: int, minor: int, i: int, j: int)
    requires 0 <= i <= major && minor >= 0 && major > 0 && 2 * (j * major - i * minor) <= major
    ensures j <= minor
  {
    assert (j - minor) * major == j * major - minor * major;
    assert i * minor <= major * minor;
    if j > minor {
      Whole(j - minor, major);
    }
  }

  // ----- The points -----

  function Toward(a: int, b: int): int {
    if a < b then 1 else -1
  }

  /** The point `i` and `j` steps from `p` */
  function At(p: Point, q: Point, i: int, j: int): Point {
    Point(p.x + i * Toward(p.x, q.x), p.y + j * Toward(p.y, q.y))
  }

  lemma StepsToPoint(p: Point, q: Point, i: int, j: int, k: int)
    requires OnTheWay(Abs(q.x - p.x), Abs(q.y - p.y), i, j, k)
    ensures Near(p, q, At(p, q, i, j)) && Along(p, q, At(p, q, i, j), k)
    ensures At(p, q, i, j) == q <==> i == Abs(q.x - p.x) && j == Abs(q.y - p.y)
  {
    hide OnTheWay;
    var dx, dy := Abs(q.x - p.x), Abs(q.y - p.y);
    CrossOfPoint(p, q, i, j);
    WayIsInside(dx, dy, i, j, k);
    SameDirection(i, q.x - p.x, Toward(p.x, q.x));
    SameDirection(j, q.y - p.y, Toward(p.y, q.y));
    WayIsNear(dx, dy, i, j, k);
  }

  lemma WayIsInside(dx: nat, dy: nat, i: int, j: int, k: int)
    requires OnTheWay(dx, dy, i, j, k)
    ensures 0 <= i <= dx && 0 <= j <= dy
  {
  }

  lemma WayIsNear(dx: nat, dy: nat, i: int, j: int, k: int)
    requires OnTheWay(dx, dy, i, j, k)
    ensures 2 * Abs(Cross(dx, dy, i, j)) <= Max(dx, dy) && k == if dx >= dy then i else j
  {
  }

  lemma SameDirection(i: int, d: int, s: int)
    requires 0 <= i && s == (if d > 0 then 1 else -1)
    ensures i * s == (if d > 0 then i else -i) && i * s * d >= 0
  {
    if d > 0 {
      assert i * d >= 0;
    } else {
      assert (-i) * d >= 0;
    }
  }

  /** The cross product is that of the steps, up to its sign */
  lemma CrossOfPoint(p: Point, q: Point, i: int, j: int)
    ensures Abs(Off(p, q, At(p, q, i, j))) == Abs(Cross(Abs(q.x - p.x), Abs(q.y - p.y), i, j))
  {
    var x, y := q.x - p.x, q.y - p.y;
    var sx, sy := Toward(p.x, q.x), Toward(p.y, q.y);
    assert Off(p, q, At(p, q, i, j)) == i * sx * y - j * sy * x;
    if x > 0 && y > 0 {
      assert i * sx * y - j * sy * x == i * y - j * x;
    } else if x > 0 {
      assert i * sx * y - j * sy * x == -(i * (-y) - j * x);
    } else if y > 0 {
      assert i * sx * y - j * sy * x == -(i * y - j * (-x));
    } else {
      assert i * sx * y - j * sy * x == i * (-y) - j * (-x);
    }
  }

  /** line: the dots drawn. One for each step along the longer axis, each within half
      a pixel of the line, from the first point to the second. */
  method Line(p: Point, q: Point) returns (dots: seq<Point>)
    ensures |dots| == Length(p, q) + 1 && dots[0] == p && dots[|dots| - 1] == q
    ensures forall k | 0 <= k < |dots| :: Near(p, q, dots[k]) && Along(p, q, dots[k], k)
  {
    hide Near, Along, OnTheWay, Cross, At, GoesX, GoesY, Off;
    var dx := if q.x > p.x then q.x - p.x else p.x - q.x;
    var dy := if q.y > p.y then q.y - p.y else p.y - q.y;
    var x, y, error := p.x, p.y, dx - dy;
    ghost var i, j := 0, 0;
    dots := [];
    AtTheStart(p, q, dx, dy);
    while true
      invariant OnTheWay(dx, dy, i, j, |dots|) && Point(x, y) == At(p, q, i, j)
      invariant error == dx - dy - Cross(dx, dy, i, j)
      invariant |dots| <= Length(p, q) && (|dots| == 0 ==> i == 0 && j == 0) && (|dots| > 0 ==> dots[0] == p)
      invariant forall k | 0 <= k < |dots| :: Near(p, q, dots[k]) && Along(p, q, dots[k], k)
      decreases Length(p, q) - |dots|
    {
      StepsToPoint(p, q, i, j, |dots|);
      dots := dots + [Point(x, y)];
      if x == q.x && y == q.y {
        AtTheEnd(dx, dy, i, j, |dots| - 1);
        break;
      }
      TurnKeepsTrack(dx, dy, i, j, |dots| - 1, error);
      var twice := 2 * error;
      NextPoint(p, q, i, j);
      Goes(dx, dy, error);
      if twice > -dy {
        error := error - dy;
        x := x + Toward(p.x, q.x);
        i := i + 1;
      }
      if twice < dx {
        error := error + dx;
        y := y + Toward(p.y, q.y);
        j := j + 1;
      }
      AsFar(dx, dy, i, j, |dots|);
    }
  }

  lemma AtTheStart(p: Point, q: Point, dx: nat, dy: nat)
    ensures OnTheWay(dx, dy, 0, 0, 0) && At(p, q, 0, 0) == p && Cross(dx, dy, 0, 0) == 0
  {
  }

  lemma AtTheEnd(dx: nat, dy: nat, i: int, j: int, k: int)
    requires OnTheWay(dx, dy, i, j, k) && i == dx && j == dy
    ensures k == Max(dx, dy)
  {
  }

  lemma AsFar(dx: nat, dy: nat, i: int, j: int, k: int)
    requires OnTheWay(dx, dy, i, j, k)
    ensures k <= Max(dx, dy)
  {
  }

  lemma NextPoint(p: Point, q: Point, i: int, j: int)
    ensures At(p, q, i + 1, j) == Point(At(p, q, i, j).x + Toward(p.x, q.x), At(p, q, i, j).y)
    ensures At(p, q, i, j + 1) == Point(At(p, q, i, j).x, At(p, q, i, j).y + Toward(p.y, q.y))
    ensures At(p, q, i + 1, j + 1) == Point(At(p, q, i, j).x + Toward(p.x, q.x), At(p, q, i, j).y + Toward(p.y, q.y))
  {
    Times(i, Toward(p.x, q.x));
    Times(j, Toward(p.y, q.y));
  }

  lemma Goes(dx: int, dy: int, error: int)
    ensures GoesX(dx, dy, error) <==> 2 * error > -dy
    ensures GoesY(dx, dy, error) <==> 2 * error < dx
  {
  }
}

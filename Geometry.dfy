/** Points, nodes and the numeric primitives the engine borrows from the host
    (square root, cosine, sine, the random stream). All arithmetic is over
    mathematical reals; the host primitives are parameters constrained only
    by the facts the model relies on. */
module Geometry {

  /** The JavaScript value of Math.PI, written out in decimal. */
  const PI: real := 3.141592653589793

  /** A point of simulation space (the unit square, nominally). */
  datatype Point = Point(x: real, y: real)

  /** A simulated node: current position, velocity, radius and rest position. */
  datatype Node = Node(
    x: real, y: real,
    vx: real, vy: real,
    size: real,
    originalX: real, originalY: real)

  function Pos(n: Node): Point { Point(n.x, n.y) }

  function Abs(r: real): (a: real)
    ensures 0.0 <= a && (a == r || a == -r)
  {
    if r < 0.0 then -r else r
  }

  function Min(a: real, b: real): (m: real)
    ensures m <= a && m <= b && (m == a || m == b)
  {
    if a <= b then a else b
  }

  function Max(a: real, b: real): (m: real)
    ensures a <= m && b <= m && (m == a || m == b)
  {
    if a <= b then b else a
  }

  /** Product of two reals. Squares and products whose sign matters are
      written through Mul, and their sign facts are the lemmas below. */
  function Mul(a: real, b: real): real { a * b }

  /** `dx * dx + dy * dy` with `dx = p.x - q.x` and `dy = p.y - q.y`. */
  function SqDist(p: Point, q: Point): real
  {
    Mul(p.x - q.x, p.x - q.x) + Mul(p.y - q.y, p.y - q.y)
  }

  /** The host's Math.sqrt, Math.cos and Math.sin. */
  datatype Numerics = Numerics(sqrt: real -> real, cos: real -> real, sin: real -> real)

  /** What the model assumes of the host primitives: sqrt is the non-negative
      square root on non-negative arguments, and cos/sin lie on the unit circle. */
  ghost predicate ValidNumerics(num: Numerics)
  {
    (forall s :: 0.0 <= s ==> 0.0 <= num.sqrt(s) && Mul(num.sqrt(s), num.sqrt(s)) == s) &&
    (forall a :: Mul(num.cos(a), num.cos(a)) + Mul(num.sin(a), num.sin(a)) == 1.0)
  }

  /** Math.random as an infinite stream of draws in [0, 1). */
  ghost predicate UnitStream(rnd: nat -> real)
  {
    forall k :: 0.0 <= rnd(k) < 1.0
  }

  /** `Math.sqrt(dx * dx + dy * dy)`. */
  function Distance(num: Numerics, p: Point, q: Point): real
  {
    num.sqrt(SqDist(p, q))
  }

  lemma MulPos(a: real, b: real)
    requires 0.0 < a && 0.0 < b
    ensures 0.0 < Mul(a, b)
  {
  }

  lemma SquarePos(a: real)
    requires a != 0.0
    ensures 0.0 < Mul(a, a)
  {
    if a < 0.0 {
      MulPos(-a, -a);
      assert Mul(-a, -a) == Mul(a, a);
    } else {
      MulPos(a, a);
    }
  }

  lemma SquareNonNeg(a: real)
    ensures 0.0 <= Mul(a, a)
  {
    if a != 0.0 { SquarePos(a); }
  }

  /** Squaring is strictly monotone on the non-negative reals. */
  lemma SquareLess(d: real, c: real)
    requires 0.0 <= d < c
    ensures Mul(d, d) < Mul(c, c)
  {
    MulPos(c - d, c + d);
    assert Mul(c - d, c + d) == Mul(c, c) - Mul(d, d);
  }

  /** Scaling a unit vector `(c, s)` by `r` gives squared length `r*r`. */
  lemma ScaledLength(r: real, c: real, s: real)
    requires Mul(c, c) + Mul(s, s) == 1.0
    ensures Mul(r * c, r * c) + Mul(r * s, r * s) == Mul(r, r)
  {
    assert Mul(r * c, r * c) == Mul(r, r) * Mul(c, c);
    assert Mul(r * s, r * s) == Mul(r, r) * Mul(s, s);
  }

  /** The squared distance is a symmetric, non-negative quantity that
      vanishes exactly on coincident points. */
  lemma SqDistProps(p: Point, q: Point)
    ensures 0.0 <= SqDist(p, q)
    ensures SqDist(p, q) == SqDist(q, p)
    ensures SqDist(p, q) == 0.0 <==> p == q
  {
    SquareNonNeg(p.x - q.x);
    SquareNonNeg(p.y - q.y);
    assert Mul(p.x - q.x, p.x - q.x) == Mul(q.x - p.x, q.x - p.x);
    assert Mul(p.y - q.y, p.y - q.y) == Mul(q.y - p.y, q.y - p.y);
    if p.x != q.x { SquarePos(p.x - q.x); }
    if p.y != q.y { SquarePos(p.y - q.y); }
  }

  /** The distance is non-negative, squares to the squared distance, is
      symmetric, and is zero exactly when the points coincide. */
  lemma DistanceProps(num: Numerics, p: Point, q: Point)
    requires ValidNumerics(num)
    ensures 0.0 <= Distance(num, p, q)
    ensures Mul(Distance(num, p, q), Distance(num, p, q)) == SqDist(p, q)
    ensures Distance(num, p, q) == Distance(num, q, p)
    ensures Distance(num, p, q) == 0.0 <==> p == q
  {
    SqDistProps(p, q);
    var d := Distance(num, p, q);
    if d != 0.0 {
      SquarePos(d);
    } else {
      assert Mul(d, d) == 0.0;
    }
  }

  /** A distance test `d < c` is the squared test `d*d < c*c` for positive `c`,
      and never holds for `c <= 0`. */
  lemma DistanceBelow(num: Numerics, p: Point, q: Point, c: real)
    requires ValidNumerics(num)
    ensures Distance(num, p, q) < c <==> 0.0 < c && SqDist(p, q) < Mul(c, c)
  {
    DistanceProps(num, p, q);
    var d := Distance(num, p, q);
    if d < c {
      SquareLess(d, c);
    } else if 0.0 < c {
      if c < d { SquareLess(c, d); }
    }
  }
}

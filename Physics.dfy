/** One animation step of one node: an Euler move, clamping and reflection
    at the walls, then (in push mode) an elastic pull of the velocity
    toward a target set by the pointer. */
module Physics {
  import opened Geometry
  import opened Config

  /** Extra margin inside the unit square (zero in the component). */
  const PADDING: real := 0.0

  /** One coordinate with its velocity component. */
  datatype Axis = Axis(pos: real, vel: real)

  /** Clamp `p` into the walls `[lo, hi]`; a clamped coordinate gets its
      velocity turned to point back inside. The low wall is tested first. */
  function Reflect(p: real, v: real, lo: real, hi: real): (r: Axis)
    ensures lo <= hi ==> lo <= r.pos <= hi
    ensures Abs(r.vel) == Abs(v)
    ensures p < lo ==> r.pos == lo && 0.0 <= r.vel
    ensures lo <= p && hi < p ==> r.pos == hi && r.vel <= 0.0
    ensures lo <= p <= hi ==> r == Axis(p, v)
  {
    if p < lo then Axis(lo, Abs(v))
    else if p > hi then Axis(hi, -Abs(v))
    else Axis(p, v)
  }

  /** The walls for a node of radius `size`: `[size, 1 - size]` on both axes. */
  function Low(n: Node): real { PADDING + n.size }
  function High(n: Node): real { 1.0 - (PADDING + n.size) }

  /** `n` lies within its walls. */
  predicate InWalls(n: Node)
  {
    Low(n) <= n.x <= High(n) && Low(n) <= n.y <= High(n)
  }

  /** The Euler move: position plus velocity times `animationSpeed`. */
  function Moved(n: Node, speed: real): Point
  {
    Point(n.x + n.vx * speed, n.y + n.vy * speed)
  }

  /** The position and velocity after the Euler move and the walls, before
      any push. */
  function Bounce(c: Config, n: Node): (r: Node)
    ensures r.size == n.size && r.originalX == n.originalX && r.originalY == n.originalY
  {
    var m := Moved(n, c.animationSpeed);
    var ax := Reflect(m.x, n.vx, Low(n), High(n));
    var ay := Reflect(m.y, n.vy, Low(n), High(n));
    n.(x := ax.pos, y := ay.pos, vx := ax.vel, vy := ay.vel)
  }

  /** The pointer distance the push branch divides by is positive whenever
      it is inside the push radius. The component divides by it unguarded,
      so a node exactly under the pointer has no defined push. */
  predicate PushDefined(c: Config, num: Numerics, mouse: Point, n: Node)
  {
    var b := Bounce(c, n);
    c.hoverEffect == Push && Distance(num, Pos(b), mouse) < c.pushRadius ==>
      0.0 < Distance(num, Pos(b), mouse)
  }

  /** Push strength at distance `d` inside radius `radius`:
      `(1 - (d / radius)^2) * strength`. */
  function PushForce(d: real, radius: real, strength: real): real
    requires radius != 0.0
  {
    var q := d / radius;
    (1.0 - Mul(q, q)) * strength
  }

  /** The push target: the rest position moved `force` along the unit
      direction from the pointer to `p`. */
  function PushTarget(num: Numerics, n: Node, p: Point, mouse: Point, radius: real, strength: real): Point
    requires 0.0 < Distance(num, p, mouse) < radius
  {
    var d := Distance(num, p, mouse);
    var force := PushForce(d, radius, strength);
    Point(n.originalX + (p.x - mouse.x) / d * force, n.originalY + (p.y - mouse.y) / d * force)
  }

  /** One velocity component pulled toward `target`: `v += (target - pos) *
      elasticity`, then `v *= dampening`. */
  function Pull(v: real, pos: real, target: real, elasticity: real, dampening: real): real
  {
    (v + (target - pos) * elasticity) * dampening
  }

  /** The velocity after the push branch: the bounced velocity pulled toward
      the target by `pushElasticity`, then scaled by `pushDampening`. The
      target is the push target inside `pushRadius`, the rest position
      outside. */
  function PushVelocity(c: Config, num: Numerics, mouse: Point, b: Node): (v: Point)
    requires Distance(num, Pos(b), mouse) < c.pushRadius ==> 0.0 < Distance(num, Pos(b), mouse)
  {
    var d := Distance(num, Pos(b), mouse);
    var t := if d < c.pushRadius
      then PushTarget(num, b, Pos(b), mouse, c.pushRadius, c.pushStrength)
      else Point(b.originalX, b.originalY);
    Point(Pull(b.vx, b.x, t.x, c.pushElasticity, c.pushDampening),
          Pull(b.vy, b.y, t.y, c.pushElasticity, c.pushDampening))
  }

  /** One step of updatePositions for one node. Only position and velocity
      change; with walls that fit (`size <= 0.5`) the node ends within them
      whatever the hover effect, because the push changes velocity only. */
  function Step(c: Config, num: Numerics, mouse: Point, n: Node): (r: Node)
    requires PushDefined(c, num, mouse, n)
    ensures r.size == n.size && r.originalX == n.originalX && r.originalY == n.originalY
    ensures Pos(r) == Pos(Bounce(c, n))
    ensures PADDING + n.size <= 0.5 ==> InWalls(r)
    ensures c.hoverEffect != Push ==> r == Bounce(c, n)
  {
    var b := Bounce(c, n);
    if c.hoverEffect == Push then
      var v := PushVelocity(c, num, mouse, b);
      b.(vx := v.x, vy := v.y)
    else
      b
  }

  /** One axis of the walls: a coordinate the move leaves strictly past a
      wall is put on that wall with its velocity pointing back in (`|v|` at
      the low wall, `-|v|` at the high wall); one left within the walls keeps
      its moved position and its velocity. */
  predicate Reflected(moved: real, v: real, lo: real, hi: real, pos: real, vel: real)
  {
    (moved < lo ==> pos == lo && vel == Abs(v) && 0.0 <= vel) &&
    (hi < moved ==> pos == hi && vel == -Abs(v) && vel <= 0.0) &&
    (lo <= moved <= hi ==> pos == moved && vel == v)
  }

  lemma ReflectIsReflected(p: real, v: real, lo: real, hi: real)
    requires lo <= hi
    ensures Reflected(p, v, lo, hi, Reflect(p, v, lo, hi).pos, Reflect(p, v, lo, hi).vel)
  {
  }

  /** The bounced node is the move and the walls on each axis. */
  lemma BounceAxes(c: Config, n: Node)
    requires PADDING + n.size <= 0.5
    ensures var b := Bounce(c, n);
      Reflected(Moved(n, c.animationSpeed).x, n.vx, Low(n), High(n), b.x, b.vx) &&
      Reflected(Moved(n, c.animationSpeed).y, n.vy, Low(n), High(n), b.y, b.vy)
  {
    ReflectIsReflected(Moved(n, c.animationSpeed).x, n.vx, Low(n), High(n));
    ReflectIsReflected(Moved(n, c.animationSpeed).y, n.vy, Low(n), High(n));
  }

  /** Without push, the reflected velocity is what the node keeps. */
  lemma ReflectionSign(c: Config, num: Numerics, mouse: Point, n: Node)
    requires c.hoverEffect != Push
    requires PADDING + n.size <= 0.5
    ensures var r := Step(c, num, mouse, n);
      Reflected(Moved(n, c.animationSpeed).x, n.vx, Low(n), High(n), r.x, r.vx) &&
      Reflected(Moved(n, c.animationSpeed).y, n.vy, Low(n), High(n), r.y, r.vy)
  {
    BounceAxes(c, n);
  }

  /** Outside the push radius the velocity is pulled back toward the rest
      position: `v' = (v + (orig - pos) * pushElasticity) * pushDampening`,
      with `v` and `pos` taken after the walls. */
  lemma PushOutsideRecovery(c: Config, num: Numerics, mouse: Point, n: Node)
    requires c.hoverEffect == Push
    requires c.pushRadius <= Distance(num, Pos(Bounce(c, n)), mouse)
    ensures PushDefined(c, num, mouse, n)
    ensures var b := Bounce(c, n);
      var r := Step(c, num, mouse, n);
      r.x == b.x && r.y == b.y &&
      r.vx == Pull(b.vx, b.x, n.originalX, c.pushElasticity, c.pushDampening) &&
      r.vy == Pull(b.vy, b.y, n.originalY, c.pushElasticity, c.pushDampening)
  {
  }

  /** Inside the radius the push force falls off from `strength` at the
      pointer to zero at the rim, and the target lies exactly `force` away
      from the rest position. */
  lemma PushForceRange(d: real, radius: real, strength: real)
    requires 0.0 <= d < radius
    requires 0.0 <= strength
    ensures 0.0 < 1.0 - Mul(d / radius, d / radius) <= 1.0
    ensures 0.0 <= PushForce(d, radius, strength) <= strength
  {
    var q := d / radius;
    assert 0.0 <= q < 1.0;
    SquareNonNeg(q);
    assert Mul(1.0, 1.0) == 1.0;
    SquareLess(q, 1.0);
    var k := 1.0 - Mul(q, q);
    if 0.0 < strength {
      MulPos(k, strength);
      assert k * strength == Mul(k, strength);
      assert strength - k * strength == Mul(1.0 - k, strength);
      if 0.0 < 1.0 - k { MulPos(1.0 - k, strength); }
    }
  }

  /** `(a / d)^2 * d^2 == a^2` for non-zero `d`. */
  lemma DivSquare(a: real, d: real)
    requires d != 0.0
    ensures Mul(Mul(a / d, a / d), Mul(d, d)) == Mul(a, a)
  {
    var q := a / d;
    assert q * d == a;
    assert Mul(Mul(q, q), Mul(d, d)) == Mul(q * d, q * d);
  }

  /** The direction `(dx / d, dy / d)` with `d = sqrt(dx*dx + dy*dy) > 0`
      is a unit vector. */
  lemma UnitDirection(num: Numerics, p: Point, q: Point)
    requires ValidNumerics(num)
    requires 0.0 < Distance(num, p, q)
    ensures var d := Distance(num, p, q);
      Mul((p.x - q.x) / d, (p.x - q.x) / d) + Mul((p.y - q.y) / d, (p.y - q.y) / d) == 1.0
  {
    var d := Distance(num, p, q);
    var dx, dy := p.x - q.x, p.y - q.y;
    DistanceProps(num, p, q);
    DivSquare(dx, d);
    DivSquare(dy, d);
    var u := Mul(dx / d, dx / d) + Mul(dy / d, dy / d);
    var dd := Mul(d, d);
    SquarePos(d);
    assert Mul(u, dd) == Mul(Mul(dx / d, dx / d), dd) + Mul(Mul(dy / d, dy / d), dd);
    assert Mul(u, dd) == dd;
    assert Mul(u - 1.0, dd) == 0.0;
    if u != 1.0 {
      if u < 1.0 { MulPos(1.0 - u, dd); } else { MulPos(u - 1.0, dd); }
      assert false;
    }
  }

  /** Inside the radius the velocity is pulled toward the push target
      instead of the rest position. */
  lemma PushInside(c: Config, num: Numerics, mouse: Point, n: Node)
    requires c.hoverEffect == Push
    requires 0.0 < Distance(num, Pos(Bounce(c, n)), mouse) < c.pushRadius
    ensures PushDefined(c, num, mouse, n)
    ensures var b := Bounce(c, n);
      var t := PushTarget(num, b, Pos(b), mouse, c.pushRadius, c.pushStrength);
      var r := Step(c, num, mouse, n);
      Pos(r) == Pos(b) &&
      r.vx == Pull(b.vx, b.x, t.x, c.pushElasticity, c.pushDampening) &&
      r.vy == Pull(b.vy, b.y, t.y, c.pushElasticity, c.pushDampening)
  {
  }

  /** The unit direction from `q` to `p`, dotted with `p - q`, is the
      distance. */
  lemma DirectionDot(num: Numerics, p: Point, q: Point)
    requires ValidNumerics(num)
    requires 0.0 < Distance(num, p, q)
    ensures var d := Distance(num, p, q);
      Mul((p.x - q.x) / d, p.x - q.x) + Mul((p.y - q.y) / d, p.y - q.y) == d
  {
    var d := Distance(num, p, q);
    var dx, dy := p.x - q.x, p.y - q.y;
    var nx, ny := dx / d, dy / d;
    UnitDirection(num, p, q);
    assert nx * d == dx && ny * d == dy;
    assert Mul(nx, dx) + Mul(ny, dy) == (Mul(nx, nx) + Mul(ny, ny)) * d;
  }

  /** Scaling a vector scales its dot product. */
  lemma ScaledDot(f: real, ux: real, uy: real, vx: real, vy: real)
    ensures Mul(f * ux, vx) + Mul(f * uy, vy) == f * (Mul(ux, vx) + Mul(uy, vy))
  {
  }

  /** The push target is the rest position moved away from the pointer by
      exactly `force`: the offset has squared length `force * force` and is
      parallel to the pointer-to-node direction, pointing the same way (its
      dot product with that direction is `force` times the distance). */
  lemma PushTargetOffset(num: Numerics, n: Node, p: Point, mouse: Point, radius: real, strength: real)
    requires ValidNumerics(num)
    requires 0.0 < Distance(num, p, mouse) < radius
    ensures var t := PushTarget(num, n, p, mouse, radius, strength);
      var f := PushForce(Distance(num, p, mouse), radius, strength);
      SqDist(t, Point(n.originalX, n.originalY)) == Mul(f, f) &&
      (t.x - n.originalX) * (p.y - mouse.y) == (t.y - n.originalY) * (p.x - mouse.x) &&
      Mul(t.x - n.originalX, p.x - mouse.x) + Mul(t.y - n.originalY, p.y - mouse.y) ==
        Mul(f, Distance(num, p, mouse))
  {
    var d := Distance(num, p, mouse);
    var t := PushTarget(num, n, p, mouse, radius, strength);
    var f := PushForce(d, radius, strength);
    var dx, dy := p.x - mouse.x, p.y - mouse.y;
    var nx, ny := dx / d, dy / d;
    UnitDirection(num, p, mouse);
    ScaledLength(f, nx, ny);
    assert t.x - n.originalX == f * nx;
    assert t.y - n.originalY == f * ny;
    assert (f * nx) * dy == (f * ny) * dx;
    PushTargetAway(num, n, p, mouse, radius, strength);
  }

  /** The push target lies on the far side of the rest position from the
      pointer: the offset, dotted with the pointer-to-node vector, is
      `force` times the distance. */
  lemma PushTargetAway(num: Numerics, n: Node, p: Point, mouse: Point, radius: real, strength: real)
    requires ValidNumerics(num)
    requires 0.0 < Distance(num, p, mouse) < radius
    ensures var t := PushTarget(num, n, p, mouse, radius, strength);
      var f := PushForce(Distance(num, p, mouse), radius, strength);
      Mul(t.x - n.originalX, p.x - mouse.x) + Mul(t.y - n.originalY, p.y - mouse.y) ==
        Mul(f, Distance(num, p, mouse))
  {
    var d := Distance(num, p, mouse);
    var t := PushTarget(num, n, p, mouse, radius, strength);
    var f := PushForce(d, radius, strength);
    var dx, dy := p.x - mouse.x, p.y - mouse.y;
    var nx, ny := dx / d, dy / d;
    assert t.x - n.originalX == f * nx;
    assert t.y - n.originalY == f * ny;
    DirectionDot(num, p, mouse);
    ScaledDot(f, nx, ny, dx, dy);
  }

  /** The push branch is undefined exactly when push is on, the radius is
      positive, and the node lands exactly under the pointer. */
  lemma PushDefinedWhen(c: Config, num: Numerics, mouse: Point, n: Node)
    requires ValidNumerics(num)
    ensures PushDefined(c, num, mouse, n) <==>
      c.hoverEffect != Push || c.pushRadius <= 0.0 || Pos(Bounce(c, n)) != mouse
  {
    DistanceProps(num, Pos(Bounce(c, n)), mouse);
  }

  /** A node resting at its rest position inside its walls, with zero
      velocity, stays exactly as it is, unless push is on and the pointer
      is within the push radius. */
  lemma RestIsEquilibrium(c: Config, num: Numerics, mouse: Point, n: Node)
    requires n.vx == 0.0 && n.vy == 0.0
    requires n.x == n.originalX && n.y == n.originalY
    requires InWalls(n)
    requires c.hoverEffect == Push ==> c.pushRadius <= Distance(num, Pos(n), mouse)
    ensures PushDefined(c, num, mouse, n)
    ensures Step(c, num, mouse, n) == n
  {
    assert Bounce(c, n) == n;
  }
}

/** Initial placement: bounded rejection sampling of positions in a disk
    around the centre of the unit square, and the node built on each. */
module Layout {
  import opened Geometry
  import opened Config

  const CENTER: real := 0.5
  const MAX_RADIUS: real := 0.6
  const MIN_DISTANCE: real := 0.08
  const MAX_ATTEMPTS: nat := 50

  const Center: Point := Point(CENTER, CENTER)

  /** The candidate position drawn from `u` (radius) and `v` (angle):
      radius `sqrt(u) * MAX_RADIUS`, angle `v * PI * 2`. */
  function Candidate(num: Numerics, u: real, v: real): Point
  {
    var radius := Mul(num.sqrt(u), MAX_RADIUS);
    var angle := Mul(Mul(v, PI), 2.0);
    Point(CENTER + Mul(radius, num.cos(angle)), CENTER + Mul(radius, num.sin(angle)))
  }

  /** `p` is at least MIN_DISTANCE away from every placed position (the
      distance is computed from the placed position to `p`). */
  ghost predicate SpacedFrom(num: Numerics, p: Point, placed: seq<Point>)
  {
    forall k :: 0 <= k < |placed| ==> MIN_DISTANCE <= Distance(num, placed[k], p)
  }

  /** The root of a draw in [0, 1) lies in [0, 1). */
  lemma RootOfUnitDraw(num: Numerics, u: real)
    requires ValidNumerics(num)
    requires 0.0 <= u < 1.0
    ensures 0.0 <= num.sqrt(u) < 1.0
  {
    var t := num.sqrt(u);
    assert Mul(t, t) == u && Mul(1.0, 1.0) == 1.0;
    if 1.0 < t { SquareLess(1.0, t); }
  }

  /** Every candidate lies strictly inside the disk of radius MAX_RADIUS
      around the centre. */
  lemma CandidateInDisk(num: Numerics, u: real, v: real)
    requires ValidNumerics(num)
    requires 0.0 <= u < 1.0
    ensures Distance(num, Candidate(num, u, v), Center) < MAX_RADIUS
  {
    var p := Candidate(num, u, v);
    var t := num.sqrt(u);
    var radius := Mul(t, MAX_RADIUS);
    var angle := Mul(Mul(v, PI), 2.0);
    RootOfUnitDraw(num, u);
    ScaledLength(radius, num.cos(angle), num.sin(angle));
    assert SqDist(p, Center) == Mul(radius, radius);
    assert Mul(radius, radius) == Mul(t, t) * 0.36;
    assert Mul(MAX_RADIUS, MAX_RADIUS) == 0.36;
    DistanceBelow(num, p, Center, MAX_RADIUS);
  }

  /** isValidPosition: scans the placed positions and rejects `p` at the
      first one closer than MIN_DISTANCE. */
  method IsValidPosition(num: Numerics, placed: seq<Point>, p: Point) returns (ok: bool)
    ensures ok <==> SpacedFrom(num, p, placed)
  {
    var k := 0;
    while k < |placed|
      invariant 0 <= k <= |placed|
      invariant forall j :: 0 <= j < k ==> MIN_DISTANCE <= Distance(num, placed[j], p)
    {
      if Distance(num, placed[k], p) < MIN_DISTANCE {
        return false;
      }
      k := k + 1;
    }
    return true;
  }

  /** The candidate read from draws `k` (radius) and `k + 1` (angle). */
  function CandidateAt(num: Numerics, rnd: nat -> real, k: nat): Point
  {
    Candidate(num, rnd(k), rnd(k + 1))
  }

  /** The stream of candidates drawn from the random stream `rnd`. */
  function Candidates(num: Numerics, rnd: nat -> real): nat -> Point
  {
    (k: nat) => CandidateAt(num, rnd, k)
  }

  /** The spacing test as a value. The sampler below is stated over any
      stream of candidates and any acceptance test, so its proofs never
      unfold the geometry; `Candidates` and `Spacing` are what the engine
      passes it. */
  ghost function Spacing(num: Numerics): (Point, seq<Point>) -> bool
  {
    (p: Point, placed: seq<Point>) => SpacedFrom(num, p, placed)
  }

  /** `p` lies strictly inside the disk of radius MAX_RADIUS around the
      centre. */
  ghost predicate InDisk(num: Numerics, p: Point)
  {
    Distance(num, p, Center) < MAX_RADIUS
  }

  /** The disk as a value. */
  ghost function Disk(num: Numerics): Point -> bool
  {
    (p: Point) => InDisk(num, p)
  }

  /** Every candidate of the stream lies in the disk. */
  lemma CandidatesInDisk(num: Numerics, rnd: nat -> real)
    requires ValidNumerics(num) && UnitStream(rnd)
    ensures forall k :: Disk(num)(Candidates(num, rnd)(k))
  {
    forall k: nat ensures Disk(num)(Candidates(num, rnd)(k)) {
      CandidateInDisk(num, rnd(k), rnd(k + 1));
    }
  }

  /** The candidate of attempt `a` of a placement whose draws start at
      `start`: every attempt reads two draws (radius, then angle). The
      draw counts are written as literals throughout, not as products of
      named constants, which the solver would treat as nonlinear. */
  function Attempt(cands: nat -> Point, start: nat, a: nat): Point
  {
    cands(start + 2 * a)
  }

  /** The first attempt from `a` on whose candidate passes `ok` against
      `placed`, or MAX_ATTEMPTS if none of them up to MAX_ATTEMPTS - 1 does.
      The measure names `start` too: a measure over `a` alone would let the
      verifier unroll every call made with a literal `a` all the way to
      MAX_ATTEMPTS. */
  ghost function FirstAccepted(ok: (Point, seq<Point>) -> bool, cands: nat -> Point, start: nat, placed: seq<Point>, a: nat): nat
    requires a <= MAX_ATTEMPTS
    decreases start + MAX_ATTEMPTS - a
  {
    if a == MAX_ATTEMPTS || ok(Attempt(cands, start, a), placed) then a
    else FirstAccepted(ok, cands, start, placed, a + 1)
  }

  /** The search ends at or after `a` and by MAX_ATTEMPTS, every attempt it
      passes over is rejected, and it stops before MAX_ATTEMPTS only on an
      accepted candidate. */
  lemma {:induction false} FirstAcceptedProps(ok: (Point, seq<Point>) -> bool, cands: nat -> Point, start: nat, placed: seq<Point>, a: nat)
    requires a <= MAX_ATTEMPTS
    ensures var last := FirstAccepted(ok, cands, start, placed, a);
      a <= last <= MAX_ATTEMPTS &&
      (last < MAX_ATTEMPTS ==> ok(Attempt(cands, start, last), placed)) &&
      forall b :: a <= b < last ==> !ok(Attempt(cands, start, b), placed)
    decreases start + MAX_ATTEMPTS - a
  {
    if a < MAX_ATTEMPTS && !ok(Attempt(cands, start, a), placed) {
      FirstAcceptedProps(ok, cands, start, placed, a + 1);
    }
  }

  /** One node's placement: the position kept, the first draw index left
      unread, and whether the position passed the test. */
  datatype Placement = Placement(p: Point, next: nat, accepted: bool)

  /** One node's placement: the first attempt whose candidate passes `ok`
      against `placed` is kept; once MAX_ATTEMPTS attempts are rejected, one
      more candidate (attempt MAX_ATTEMPTS) is kept unchecked. */
  ghost function PlaceFrom(ok: (Point, seq<Point>) -> bool, cands: nat -> Point, start: nat, placed: seq<Point>): Placement
  {
    var last := FirstAccepted(ok, cands, start, placed, 0);
    Placement(Attempt(cands, start, last), start + 2 * (last + 1), last < MAX_ATTEMPTS)
  }

  /** A placement keeps the candidate of its last attempt, after rejecting
      every earlier one; it is accepted exactly when it took at most
      MAX_ATTEMPTS attempts, and then its position passes the test. It
      reads between 2 and 102 draws: one to MAX_ATTEMPTS + 1 candidates. */
  lemma PlaceFromProps(ok: (Point, seq<Point>) -> bool, cands: nat -> Point, start: nat, placed: seq<Point>)
    ensures var r := PlaceFrom(ok, cands, start, placed);
      var last := FirstAccepted(ok, cands, start, placed, 0);
      r.p == Attempt(cands, start, last) &&
      r.next == start + 2 * (last + 1) &&
      (forall b :: 0 <= b < last ==> !ok(Attempt(cands, start, b), placed)) &&
      (r.accepted <==> r.next <= start + 100) &&
      (r.accepted ==> ok(r.p, placed)) &&
      start + 2 <= r.next <= start + 102
  {
    FirstAcceptedProps(ok, cands, start, placed, 0);
  }

  /** A placement keeps one of the stream's candidates, so it lies in any
      region that holds them all. */
  lemma PlaceInside(ok: (Point, seq<Point>) -> bool, cands: nat -> Point, start: nat, placed: seq<Point>, inside: Point -> bool)
    requires forall k :: inside(cands(k))
    ensures inside(PlaceFrom(ok, cands, start, placed).p)
  {
    var last := FirstAccepted(ok, cands, start, placed, 0);
    assert PlaceFrom(ok, cands, start, placed).p == cands(start + 2 * last);
  }

  /** The loop for one node: up to MAX_ATTEMPTS candidates of the stream
      `cands` taken from index `start` on, every second index, the first one
      spaced from `placed` kept; failing that, one more candidate kept
      unchecked. */
  method PlaceNext(num: Numerics, cands: nat -> Point, start: nat, placed: seq<Point>)
    returns (p: Point, next: nat, accepted: bool)
    ensures Placement(p, next, accepted) == PlaceFrom(Spacing(num), cands, start, placed)
  {
    ghost var test := Spacing(num);
    ghost var last := FirstAccepted(test, cands, start, placed, 0);
    FirstAcceptedProps(test, cands, start, placed, 0);
    p, next, accepted := Center, start, false;
    var attempts := 0;
    while !accepted && attempts < MAX_ATTEMPTS
      invariant 0 <= attempts <= MAX_ATTEMPTS
      invariant next == start + 2 * attempts
      invariant !accepted ==> attempts <= last
      invariant accepted ==> 0 < attempts && last == attempts - 1 && p == Attempt(cands, start, last)
      decreases MAX_ATTEMPTS - attempts, !accepted
    {
      var cand := cands(next);
      next := next + 2;
      var ok := IsValidPosition(num, placed, cand);
      assert ok == test(Attempt(cands, start, attempts), placed);
      if ok {
        p := cand;
        accepted := true;
      }
      attempts := attempts + 1;
    }
    if !accepted {
      p := cands(next);
      next := next + 2;
    }
  }

  /** The number of nodes a `numNodes` prop asks for. */
  function NodeCount(numNodes: int): nat
  {
    if numNodes <= 0 then 0 else numNodes
  }

  /** A whole layout: the positions, the first draw index left unread, and
      which positions passed the test. */
  datatype Sample = Sample(positions: seq<Point>, next: nat, accepted: seq<bool>)

  /** The layout of `n` nodes with draws from `start` on: each node is
      placed in turn against the positions placed before it. */
  ghost function Sampled(ok: (Point, seq<Point>) -> bool, cands: nat -> Point, start: nat, n: nat): (s: Sample)
    ensures |s.positions| == n && |s.accepted| == n
    decreases n
  {
    if n == 0 then Sample([], start, [])
    else
      var prev := Sampled(ok, cands, start, n - 1);
      var r := PlaceFrom(ok, cands, prev.next, prev.positions);
      Sample(prev.positions + [r.p], r.next, prev.accepted + [r.accepted])
  }

  /** Placing more nodes leaves the earlier ones as they were: the first
      `m` positions of a layout of `n` nodes are the layout of `m` nodes. */
  lemma {:induction false} PositionsStable(ok: (Point, seq<Point>) -> bool, cands: nat -> Point, start: nat, n: nat, m: nat)
    requires m <= n
    ensures Sampled(ok, cands, start, n).positions[..m] == Sampled(ok, cands, start, m).positions
    decreases n
  {
    var s := Sampled(ok, cands, start, n).positions;
    if m < n {
      PositionsStable(ok, cands, start, n - 1, m);
      assert s[..n - 1] == Sampled(ok, cands, start, n - 1).positions;
      assert s[..m] == s[..n - 1][..m];
    } else {
      assert s[..m] == s;
    }
  }

  /** The same for the record of which positions passed the test. */
  lemma {:induction false} AcceptedStable(ok: (Point, seq<Point>) -> bool, cands: nat -> Point, start: nat, n: nat, m: nat)
    requires m <= n
    ensures Sampled(ok, cands, start, n).accepted[..m] == Sampled(ok, cands, start, m).accepted
    decreases n
  {
    var s := Sampled(ok, cands, start, n).accepted;
    if m < n {
      AcceptedStable(ok, cands, start, n - 1, m);
      assert s[..n - 1] == Sampled(ok, cands, start, n - 1).accepted;
      assert s[..m] == s[..n - 1][..m];
    } else {
      assert s[..m] == s;
    }
  }

  /** Node `i` of a layout is placed against the `i` positions before it,
      reading the stream from where the layout of those left off. */
  lemma SampledAt(ok: (Point, seq<Point>) -> bool, cands: nat -> Point, start: nat, n: nat, i: nat)
    requires i < n
    ensures var s, before := Sampled(ok, cands, start, n), Sampled(ok, cands, start, i);
      var r := PlaceFrom(ok, cands, before.next, before.positions);
      s.positions[..i] == before.positions && s.positions[i] == r.p && s.accepted[i] == r.accepted
  {
    PositionsStable(ok, cands, start, n, i + 1);
    AcceptedStable(ok, cands, start, n, i + 1);
    var s, t := Sampled(ok, cands, start, n), Sampled(ok, cands, start, i + 1);
    assert s.positions[i] == s.positions[..i + 1][i];
    assert s.positions[..i] == s.positions[..i + 1][..i];
    assert s.accepted[i] == s.accepted[..i + 1][i];
    assert t.positions[..i] == Sampled(ok, cands, start, i).positions;
  }

  /** Every accepted position passes the test against all positions placed
      before it. */
  lemma SampledAccepted(ok: (Point, seq<Point>) -> bool, cands: nat -> Point, start: nat, n: nat)
    ensures var s := Sampled(ok, cands, start, n);
      forall i :: 0 <= i < n && s.accepted[i] ==> ok(s.positions[i], s.positions[..i])
  {
    var s := Sampled(ok, cands, start, n);
    forall i | 0 <= i < n && s.accepted[i]
      ensures ok(s.positions[i], s.positions[..i])
    {
      SampledAt(ok, cands, start, n, i);
      var before := Sampled(ok, cands, start, i);
      PlaceFromProps(ok, cands, before.next, before.positions);
    }
  }

  /** Every position of a layout lies in any region that holds every
      candidate. */
  lemma SampledInside(ok: (Point, seq<Point>) -> bool, cands: nat -> Point, start: nat, n: nat, inside: Point -> bool)
    requires forall k :: inside(cands(k))
    ensures var s := Sampled(ok, cands, start, n);
      forall i :: 0 <= i < n ==> inside(s.positions[i])
  {
    var s := Sampled(ok, cands, start, n);
    forall i | 0 <= i < n
      ensures inside(s.positions[i])
    {
      SampledAt(ok, cands, start, n, i);
      var before := Sampled(ok, cands, start, i);
      PlaceInside(ok, cands, before.next, before.positions, inside);
    }
  }

  /** A layout of `n` nodes reads between 2 and 102 draws per node: one to
      MAX_ATTEMPTS + 1 candidates of two draws each. */
  lemma {:induction false} SampledDraws(ok: (Point, seq<Point>) -> bool, cands: nat -> Point, start: nat, n: nat)
    ensures var s := Sampled(ok, cands, start, n);
      start + 2 * n <= s.next <= start + 102 * n
    decreases n
  {
    if n > 0 {
      SampledDraws(ok, cands, start, n - 1);
      var prev := Sampled(ok, cands, start, n - 1);
      PlaceFromProps(ok, cands, prev.next, prev.positions);
    }
  }

  /** The layout the engine draws: `n` nodes from the candidates of `rnd`
      under the spacing test. */
  ghost function InitialLayout(num: Numerics, rnd: nat -> real, start: nat, n: nat): (s: Sample)
    ensures |s.positions| == n && |s.accepted| == n
  {
    Sampled(Spacing(num), Candidates(num, rnd), start, n)
  }

  /** The engine's layout: every accepted position is spaced from the ones
      placed before it, every position lies in the disk, and it reads
      between 2 and 102 draws per node. */
  lemma LayoutProps(num: Numerics, rnd: nat -> real, start: nat, n: nat)
    requires ValidNumerics(num) && UnitStream(rnd)
    ensures var s := InitialLayout(num, rnd, start, n);
      (forall i :: 0 <= i < n && s.accepted[i] ==> SpacedFrom(num, s.positions[i], s.positions[..i])) &&
      (forall i :: 0 <= i < n ==> Distance(num, s.positions[i], Center) < MAX_RADIUS) &&
      start + 2 * n <= s.next <= start + 102 * n
  {
    var s := InitialLayout(num, rnd, start, n);
    SampledAccepted(Spacing(num), Candidates(num, rnd), start, n);
    CandidatesInDisk(num, rnd);
    SampledInside(Spacing(num), Candidates(num, rnd), start, n, Disk(num));
    SampledDraws(Spacing(num), Candidates(num, rnd), start, n);
    forall i | 0 <= i < n && s.accepted[i]
      ensures SpacedFrom(num, s.positions[i], s.positions[..i])
    {
      assert Spacing(num)(s.positions[i], s.positions[..i]);
    }
    forall i | 0 <= i < n
      ensures Distance(num, s.positions[i], Center) < MAX_RADIUS
    {
      assert Disk(num)(s.positions[i]);
    }
  }

  /** getCentralizedPositions: places `numNodes` nodes one after the other.
      `rnd` is the random stream, read from index `start` on; `next` is the
      first index left unread; the ghost `accepted[i]` records whether
      position `i` passed the spacing test. */
  method CentralizedPositions(num: Numerics, rnd: nat -> real, start: nat, numNodes: int)
    returns (positions: seq<Point>, next: nat, ghost accepted: seq<bool>)
    ensures Sample(positions, next, accepted) == InitialLayout(num, rnd, start, NodeCount(numNodes))
    ensures |positions| == NodeCount(numNodes)
  {
    positions, next, accepted := [], start, [];
    var i := 0;
    while i < numNodes
      invariant 0 <= i <= NodeCount(numNodes)
      invariant Sample(positions, next, accepted) == InitialLayout(num, rnd, start, i)
    {
      var p, after, ok := PlaceNext(num, Candidates(num, rnd), next, positions);
      positions, next, accepted := positions + [p], after, accepted + [ok];
      i := i + 1;
    }
  }

  /** The node built on a placed position from three draws: direction
      `ua * PI * 2`, speed `max(minVelocity, us * velocityFactor)` and size
      `minNodeSize + uz * (maxNodeSize - minNodeSize)`. */
  function NewNode(num: Numerics, c: Config, p: Point, ua: real, us: real, uz: real): Node
  {
    var angle := ua * PI * 2.0;
    var speed := Max(c.minVelocity, us * c.velocityFactor);
    Node(
      x := p.x, y := p.y,
      vx := num.cos(angle) * speed, vy := num.sin(angle) * speed,
      size := c.minNodeSize + uz * (c.maxNodeSize - c.minNodeSize),
      originalX := p.x, originalY := p.y)
  }

  /** A new node sits at its placed position, which is also its rest position. */
  lemma NewNodeAtOrigin(num: Numerics, c: Config, p: Point, ua: real, us: real, uz: real)
    ensures var n := NewNode(num, c, p, ua, us, uz);
      Pos(n) == p && n.originalX == n.x && n.originalY == n.y
  {
  }

  /** A size draw in [0, 1) gives a size in [minNodeSize, maxNodeSize],
      strictly below maxNodeSize unless the range is a single value. */
  lemma NewNodeSize(num: Numerics, c: Config, p: Point, ua: real, us: real, uz: real)
    requires 0.0 <= uz < 1.0
    requires c.minNodeSize <= c.maxNodeSize
    ensures var n := NewNode(num, c, p, ua, us, uz);
      c.minNodeSize <= n.size <= c.maxNodeSize &&
      (c.minNodeSize < c.maxNodeSize ==> n.size < c.maxNodeSize)
  {
    var w := c.maxNodeSize - c.minNodeSize;
    if 0.0 < w {
      MulPos(1.0 - uz, w);
      assert Mul(1.0 - uz, w) == w - uz * w;
      if 0.0 < uz { MulPos(uz, w); }
      assert uz * w == Mul(uz, w);
    } else {
      assert w == 0.0;
    }
  }

  /** The velocity has squared length `speed * speed`, and the speed is
      `max(minVelocity, us * velocityFactor)`, so at least minVelocity. */
  lemma NewNodeSpeed(num: Numerics, c: Config, p: Point, ua: real, us: real, uz: real)
    requires ValidNumerics(num)
    ensures var n := NewNode(num, c, p, ua, us, uz);
      var speed := Max(c.minVelocity, us * c.velocityFactor);
      c.minVelocity <= speed &&
      (speed == c.minVelocity || speed == us * c.velocityFactor) &&
      Mul(n.vx, n.vx) + Mul(n.vy, n.vy) == Mul(speed, speed)
  {
    var angle := ua * PI * 2.0;
    var speed := Max(c.minVelocity, us * c.velocityFactor);
    var co, si := num.cos(angle), num.sin(angle);
    assert Mul(co, co) + Mul(si, si) == 1.0;
    ScaledLength(speed, co, si);
    assert co * speed == speed * co;
    assert si * speed == speed * si;
  }

  /** The velocity is at least minVelocity long, when minVelocity is not
      negative: its squared length is at least `minVelocity^2`. */
  lemma NewNodeMinSpeed(num: Numerics, c: Config, p: Point, ua: real, us: real, uz: real)
    requires ValidNumerics(num)
    requires 0.0 <= c.minVelocity
    ensures var n := NewNode(num, c, p, ua, us, uz);
      Mul(c.minVelocity, c.minVelocity) <= Mul(n.vx, n.vx) + Mul(n.vy, n.vy)
  {
    NewNodeSpeed(num, c, p, ua, us, uz);
    var speed := Max(c.minVelocity, us * c.velocityFactor);
    if c.minVelocity < speed {
      SquareLess(c.minVelocity, speed);
    }
  }
}

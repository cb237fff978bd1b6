/** The component's state and its operations: the node array that
    updatePositions rewrites node by node, the edge list, the pointer
    position and the resolved configuration, together with the stream of
    Math.random draws the initialisation consumes. */
module Engine {
  import opened Geometry
  import opened Config
  import opened Layout
  import opened Physics
  import opened Edges
  import opened Paint

  /** The simulation positions of a node list. */
  function Positions(ns: seq<Node>): (ps: seq<Point>)
    ensures |ps| == |ns| && forall i :: 0 <= i < |ns| ==> ps[i] == Pos(ns[i])
  {
    seq(|ns|, i requires 0 <= i < |ns| => Pos(ns[i]))
  }

  /** Node `i` of a layout whose attribute draws start at `base`: its three
      draws (direction, speed, size) are `base + 3i`, `base + 3i + 1` and
      `base + 3i + 2`. */
  function NodeFromDraws(num: Numerics, c: Config, rnd: nat -> real, p: Point, base: nat, i: nat): Node
  {
    var k := base + 3 * i;
    NewNode(num, c, p, rnd(k), rnd(k + 1), rnd(k + 2))
  }

  /** A node built from unit draws sits at its rest position, has a size
      in range and a speed of at least minVelocity. */
  lemma NodeFromDrawsFacts(num: Numerics, c: Config, rnd: nat -> real, p: Point, base: nat, i: nat)
    requires ValidNumerics(num) && UnitStream(rnd)
    ensures var n := NodeFromDraws(num, c, rnd, p, base, i);
      Pos(n) == p && n.originalX == n.x && n.originalY == n.y &&
      (c.minNodeSize <= c.maxNodeSize ==> c.minNodeSize <= n.size <= c.maxNodeSize) &&
      (c.minNodeSize < c.maxNodeSize ==> n.size < c.maxNodeSize) &&
      (0.0 <= c.minVelocity ==>
        Mul(c.minVelocity, c.minVelocity) <= Mul(n.vx, n.vx) + Mul(n.vy, n.vy))
  {
    var k := base + 3 * i;
    var ua, us, uz := rnd(k), rnd(k + 1), rnd(k + 2);
    NewNodeAtOrigin(num, c, p, ua, us, uz);
    if c.minNodeSize <= c.maxNodeSize {
      NewNodeSize(num, c, p, ua, us, uz);
    }
    if 0.0 <= c.minVelocity {
      NewNodeMinSpeed(num, c, p, ua, us, uz);
    }
  }

  /** The map of initializeNodes: a fresh array with node `i` built on
      position `i` from its three draws. */
  method MakeNodes(num: Numerics, c: Config, rnd: nat -> real, positions: seq<Point>, base: nat)
    returns (a: array<Node>)
    ensures fresh(a) && a.Length == |positions|
    ensures forall i :: 0 <= i < a.Length ==> a[i] == NodeFromDraws(num, c, rnd, positions[i], base, i)
  {
    a := new Node[|positions|];
    var i := 0;
    while i < |positions|
      invariant 0 <= i <= |positions| == a.Length
      invariant forall j :: 0 <= j < i ==> a[j] == NodeFromDraws(num, c, rnd, positions[j], base, j)
    {
      a[i] := NodeFromDraws(num, c, rnd, positions[i], base, i);
      i := i + 1;
    }
  }

  lemma PositionsPrefix(ns: seq<Node>, ps: seq<Point>)
    requires |ns| == |ps| && forall i :: 0 <= i < |ns| ==> Pos(ns[i]) == ps[i]
    ensures forall i :: 0 <= i <= |ns| ==> Positions(ns[..i]) == ps[..i]
  {
    forall i | 0 <= i <= |ns|
      ensures Positions(ns[..i]) == ps[..i]
    {
    }
  }

  class GraphEngine {
    /** The host's Math.sqrt, Math.cos and Math.sin. */
    const num: Numerics
    /** Math.random, as a stream of draws. */
    const rnd: nat -> real
    /** Index of the next unread draw of `rnd`. */
    var cursor: nat
    /** configRef: the props merged over the defaults. */
    var config: Config
    /** nodesRef. */
    var nodes: array<Node>
    /** edgesRef. */
    var edges: seq<Edge>
    /** mousePositionRef, in simulation space. */
    var mouse: Point
    /** Which nodes passed the spacing test when they were placed. */
    ghost var spaced: seq<bool>
    /** Index of the first draw the last initialisation spent on node
        attributes rather than positions. */
    ghost var nodeDraws: nat

    /** The host primitives behave as the model assumes. */
    ghost predicate Valid()
    {
      ValidNumerics(num) && UnitStream(rnd)
    }

    /** The refs as the component creates them: the merged props, no
        nodes, no edges, the pointer at the origin. */
    constructor (num: Numerics, rnd: nat -> real, props: Props)
      requires ValidNumerics(num) && UnitStream(rnd)
      ensures Valid()
      ensures this.num == num && this.rnd == rnd && cursor == 0
      ensures config == Resolve(props)
      ensures fresh(nodes) && nodes.Length == 0 && spaced == [] && nodeDraws == 0
      ensures edges == [] && mouse == Point(0.0, 0.0)
    {
      this.num := num;
      this.rnd := rnd;
      cursor := 0;
      config := Resolve(props);
      nodes := new Node[0];
      edges := [];
      mouse := Point(0.0, 0.0);
      spaced := [];
      nodeDraws := 0;
    }

    /** The nodes are the layout of `numNodes` positions drawn from index
        `start` on, each node built on its position from its own three
        draws, which follow the positions' draws. */
    ghost predicate LaidOut(start: nat)
      reads this, nodes
    {
      var s := InitialLayout(num, rnd, start, NodeCount(config.numNodes));
      nodes.Length == |s.positions| && spaced == s.accepted && nodeDraws == s.next &&
      cursor == s.next + 3 * nodes.Length &&
      forall i :: 0 <= i < nodes.Length ==> nodes[i] == NodeFromDraws(num, config, rnd, s.positions[i], s.next, i)
    }

    /** A fresh layout has `numNodes` nodes (none for `numNodes <= 0`), each
        at rest on a position in the disk, spaced from the nodes before it
        when it passed the test; sizes lie in range and speeds reach
        minVelocity; a well-formed configuration leaves every node room
        between its walls; the positions read 2 to 102 draws per node and
        the attributes 3 more. */
    lemma LaidOutProps(start: nat)
      requires Valid() && LaidOut(start)
      ensures nodes.Length == NodeCount(config.numNodes) && |spaced| == nodes.Length
      ensures Positions(nodes[..]) == InitialLayout(num, rnd, start, nodes.Length).positions
      ensures forall i :: 0 <= i < nodes.Length && spaced[i] ==>
        SpacedFrom(num, Pos(nodes[i]), Positions(nodes[..i]))
      ensures forall i :: 0 <= i < nodes.Length ==>
        nodes[i].originalX == nodes[i].x && nodes[i].originalY == nodes[i].y &&
        Distance(num, Pos(nodes[i]), Center) < MAX_RADIUS
      ensures config.minNodeSize <= config.maxNodeSize ==>
        forall i :: 0 <= i < nodes.Length ==>
          config.minNodeSize <= nodes[i].size <= config.maxNodeSize
      ensures config.minNodeSize < config.maxNodeSize ==>
        forall i :: 0 <= i < nodes.Length ==> nodes[i].size < config.maxNodeSize
      ensures 0.0 <= config.minVelocity ==>
        forall i :: 0 <= i < nodes.Length ==>
          Mul(config.minVelocity, config.minVelocity) <=
          Mul(nodes[i].vx, nodes[i].vx) + Mul(nodes[i].vy, nodes[i].vy)
      ensures WellFormed(config) ==>
        forall i :: 0 <= i < nodes.Length ==> PADDING + nodes[i].size <= 0.5
      ensures start + 2 * nodes.Length <= nodeDraws <= start + 102 * nodes.Length
      ensures cursor == nodeDraws + 3 * nodes.Length
    {
      var n := nodes.Length;
      var s := InitialLayout(num, rnd, start, n);
      LayoutProps(num, rnd, start, n);
      forall i | 0 <= i < n
        ensures nodes[i].originalX == nodes[i].x && nodes[i].originalY == nodes[i].y
        ensures Pos(nodes[i]) == s.positions[i]
        ensures config.minNodeSize <= config.maxNodeSize ==>
          config.minNodeSize <= nodes[i].size <= config.maxNodeSize
        ensures config.minNodeSize < config.maxNodeSize ==> nodes[i].size < config.maxNodeSize
        ensures 0.0 <= config.minVelocity ==>
          Mul(config.minVelocity, config.minVelocity) <= Mul(nodes[i].vx, nodes[i].vx) + Mul(nodes[i].vy, nodes[i].vy)
      {
        NodeFromDrawsFacts(num, config, rnd, s.positions[i], s.next, i);
      }
      PositionsPrefix(nodes[..], s.positions);
      assert nodes[..] == nodes[..n];
    }

    /** initializeNodes: places `numNodes` positions, then builds one node
        on each from three more draws (direction, speed, size), in order;
        those draws start at `nodeDraws`. */
    method InitializeNodes()
      requires Valid()
      modifies this
      ensures fresh(nodes)
      ensures config == old(config) && edges == old(edges) && mouse == old(mouse)
      ensures LaidOut(old(cursor))
      ensures Positions(nodes[..]) == InitialLayout(num, rnd, old(cursor), nodes.Length).positions
      ensures old(cursor) + 2 * nodes.Length <= nodeDraws <= old(cursor) + 102 * nodes.Length
    {
      var positions, next, accepted := CentralizedPositions(num, rnd, cursor, config.numNodes);
      var a := MakeNodes(num, config, rnd, positions, next);
      nodes := a;
      nodeDraws := next;
      cursor := next + 3 * |positions|;
      spaced := accepted;
      LaidOutProps(old(cursor));
    }

    /** updatePositions: nothing happens with animations off; otherwise
        every node takes one Step against the current pointer. */
    method UpdatePositions()
      requires config.enableAnimations ==>
        forall i :: 0 <= i < nodes.Length ==> PushDefined(config, num, mouse, nodes[i])
      modifies nodes
      ensures !config.enableAnimations ==> nodes[..] == old(nodes[..])
      ensures config.enableAnimations ==>
        forall i :: 0 <= i < nodes.Length ==> nodes[i] == Step(config, num, mouse, old(nodes[i]))
      ensures forall i :: 0 <= i < nodes.Length ==>
        nodes[i].size == old(nodes[i].size) &&
        nodes[i].originalX == old(nodes[i].originalX) && nodes[i].originalY == old(nodes[i].originalY)
      ensures config.enableAnimations ==>
        forall i :: 0 <= i < nodes.Length && PADDING + nodes[i].size <= 0.5 ==> InWalls(nodes[i])
    {
      if !config.enableAnimations {
        return;
      }
      var i := 0;
      while i < nodes.Length
        invariant 0 <= i <= nodes.Length
        invariant forall j :: 0 <= j < i ==> nodes[j] == Step(config, num, mouse, old(nodes[j]))
        invariant forall j :: i <= j < nodes.Length ==> nodes[j] == old(nodes[j])
      {
        nodes[i] := Step(config, num, mouse, nodes[i]);
        i := i + 1;
      }
    }

    /** calculateEdges: the edge list of the current positions. */
    method CalculateEdges()
      modifies this`edges
      ensures edges == AllEdges(num, nodes[..], config.connectionDistance)
    {
      edges := BuildEdges(num, nodes[..], config.connectionDistance);
    }

    /** draw, on a canvas of `width` by `height` device pixels: one stroke per
        edge whose nodes exist, in edge order, then one disc per node. */
    method Draw(width: real, height: real) returns (strokes: seq<Stroke>, dots: seq<Dot>)
      requires edges != [] ==> config.connectionDistance != 0.0
      ensures strokes == EdgeStrokes(config, num, Letterbox(width, height), mouse, nodes[..], edges)
      ensures |dots| == nodes.Length
      ensures forall i :: 0 <= i < nodes.Length ==>
        dots[i] == NodeDot(config, num, Letterbox(width, height), mouse, nodes[i])
    {
      var t := Letterbox(width, height);
      strokes := [];
      var x := 0;
      while x < |edges|
        invariant 0 <= x <= |edges|
        invariant strokes == EdgeStrokes(config, num, t, mouse, nodes[..], edges[..x])
      {
        var e := edges[x];
        assert edges[..x + 1][..x] == edges[..x];
        if e.nodeA < nodes.Length && e.nodeB < nodes.Length {
          strokes := strokes + [EdgeStroke(config, num, t, mouse, nodes[e.nodeA], nodes[e.nodeB])];
        }
        x := x + 1;
      }
      assert edges[..x] == edges;
      dots := [];
      var i := 0;
      while i < nodes.Length
        invariant 0 <= i <= nodes.Length && |dots| == i
        invariant forall j :: 0 <= j < i ==> dots[j] == NodeDot(config, num, t, mouse, nodes[j])
      {
        dots := dots + [NodeDot(config, num, t, mouse, nodes[i])];
        i := i + 1;
      }
    }

    /** handleMouseMove: the pointer, mapped through the letterbox of the
        canvas box, becomes the new pointer position. */
    method HandleMouseMove(rect: Rect, clientX: real, clientY: real)
      requires Min(rect.width, rect.height) != 0.0
      modifies this`mouse
      ensures mouse == FromPointer(rect, clientX, clientY)
      ensures ToCanvas(Letterbox(rect.width, rect.height), mouse) ==
        Point(clientX - rect.left, clientY - rect.top)
    {
      mouse := FromPointer(rect, clientX, clientY);
      PointerInverts(rect, clientX, clientY);
    }

    /** animate: one frame is updatePositions, calculateEdges, draw. The
        edges drawn are exactly the pairs of moved nodes closer than
        connectionDistance, each drawn between its two nodes. */
    method Animate(width: real, height: real) returns (strokes: seq<Stroke>, dots: seq<Dot>)
      requires Valid()
      requires config.enableAnimations ==>
        forall i :: 0 <= i < nodes.Length ==> PushDefined(config, num, mouse, nodes[i])
      modifies nodes, this`edges
      ensures config.enableAnimations ==>
        forall i :: 0 <= i < nodes.Length ==> nodes[i] == Step(config, num, mouse, old(nodes[i]))
      ensures !config.enableAnimations ==> nodes[..] == old(nodes[..])
      ensures edges == AllEdges(num, nodes[..], config.connectionDistance)
      ensures edges != [] ==> 0.0 < config.connectionDistance
      ensures |strokes| == |edges| && |dots| == nodes.Length
      ensures forall x :: 0 <= x < |edges| ==>
        edges[x].nodeA < edges[x].nodeB < nodes.Length &&
        strokes[x] == EdgeStroke(config, num, Letterbox(width, height), mouse,
                                 nodes[edges[x].nodeA], nodes[edges[x].nodeB])
      ensures forall i :: 0 <= i < nodes.Length ==>
        dots[i] == NodeDot(config, num, Letterbox(width, height), mouse, nodes[i])
    {
      UpdatePositions();
      CalculateEdges();
      BuiltEdgesDrawn(config, num, Letterbox(width, height), mouse, nodes[..]);
      strokes, dots := Draw(width, height);
    }

    /** New props: the configuration is replaced, and the nodes are laid
        out afresh when numNodes, minNodeSize or maxNodeSize changed. */
    method SetProps(props: Props)
      requires Valid()
      modifies this
      ensures config == Resolve(props) && edges == old(edges) && mouse == old(mouse)
      ensures var c, d := old(config), Resolve(props);
        c.numNodes == d.numNodes && c.minNodeSize == d.minNodeSize && c.maxNodeSize == d.maxNodeSize ==>
        nodes == old(nodes) && nodes[..] == old(nodes[..]) && cursor == old(cursor)
      ensures var c, d := old(config), Resolve(props);
        !(c.numNodes == d.numNodes && c.minNodeSize == d.minNodeSize && c.maxNodeSize == d.maxNodeSize) ==>
        fresh(nodes) && LaidOut(old(cursor))
    {
      var c := config;
      config := Resolve(props);
      if c.numNodes != config.numNodes || c.minNodeSize != config.minNodeSize ||
         c.maxNodeSize != config.maxNodeSize {
        InitializeNodes();
      }
    }
  }

  /** The pointer mapping, drawn back through the letterbox, lands on the
      pointer's position within the box. */
  lemma PointerInverts(rect: Rect, clientX: real, clientY: real)
    requires Min(rect.width, rect.height) != 0.0
    ensures ToCanvas(Letterbox(rect.width, rect.height), FromPointer(rect, clientX, clientY)) ==
      Point(clientX - rect.left, clientY - rect.top)
  {
    var t := Letterbox(rect.width, rect.height);
    var p := FromPointer(rect, clientX, clientY);
    assert Mul(p.x, t.scale) == clientX - rect.left - t.offsetX;
    assert Mul(p.y, t.scale) == clientY - rect.top - t.offsetY;
  }
}

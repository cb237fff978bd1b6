/** The numbers draw hands to the canvas: the letterbox transform from
    simulation space to canvas pixels, the highlight intensity, the
    interpolated edge and node styles, and the pointer's inverse mapping. */
module Paint {
  import opened Geometry
  import opened Config
  import opened Edges

  /** Uniform scale and centring offsets from the unit square to a box. */
  datatype Transform = Transform(scale: real, offsetX: real, offsetY: real)

  /** `scale = min(width, height)`, `offset = (dimension - scale) / 2`: the
      unit square is scaled to fit the box and centred in it. */
  function Letterbox(width: real, height: real): (t: Transform)
    ensures t.scale <= width && t.scale <= height && (t.scale == width || t.scale == height)
    ensures 2.0 * t.offsetX + t.scale == width && 2.0 * t.offsetY + t.scale == height
    ensures 0.0 <= t.offsetX && 0.0 <= t.offsetY
    ensures t.offsetX == 0.0 || t.offsetY == 0.0
  {
    var s := Min(width, height);
    Transform(s, (width - s) / 2.0, (height - s) / 2.0)
  }

  /** Simulation point to box coordinates: `offset + p * scale`. */
  function ToCanvas(t: Transform, p: Point): Point
  {
    Point(t.offsetX + Mul(p.x, t.scale), t.offsetY + Mul(p.y, t.scale))
  }

  /** The box of the canvas on the page, in CSS pixels. */
  datatype Rect = Rect(left: real, top: real, width: real, height: real)

  /** handleMouseMove: a pointer at page position `(clientX, clientY)` mapped
      into simulation space with the letterbox of the canvas box. */
  function FromPointer(rect: Rect, clientX: real, clientY: real): Point
    requires Min(rect.width, rect.height) != 0.0
  {
    var t := Letterbox(rect.width, rect.height);
    Point((clientX - rect.left - t.offsetX) / t.scale, (clientY - rect.top - t.offsetY) / t.scale)
  }

  lemma MulDiv(x: real, s: real)
    requires s != 0.0
    ensures Mul(x, s) / s == x
  {
  }

  /** The pointer mapping inverts the drawing mapping: a pointer over the
      spot where `p` is drawn in the canvas box maps back to `p`. */
  lemma PointerInvertsDraw(rect: Rect, p: Point)
    requires Min(rect.width, rect.height) != 0.0
    ensures var c := ToCanvas(Letterbox(rect.width, rect.height), p);
      FromPointer(rect, rect.left + c.x, rect.top + c.y) == p
  {
    var t := Letterbox(rect.width, rect.height);
    MulDiv(p.x, t.scale);
    MulDiv(p.y, t.scale);
  }

  /** The canvas is `dpr` times the box in device pixels, and its letterbox is
      the box's, scaled by `dpr`: the node drawn at device pixel `c` sits at
      CSS pixel `c / dpr` of the box. */
  lemma DevicePixels(rect: Rect, dpr: real, p: Point)
    requires 0.0 < dpr
    ensures var t := Letterbox(rect.width, rect.height);
      var td := Letterbox(rect.width * dpr, rect.height * dpr);
      td.scale == t.scale * dpr &&
      ToCanvas(td, p).x == ToCanvas(t, p).x * dpr &&
      ToCanvas(td, p).y == ToCanvas(t, p).y * dpr
  {
    var t := Letterbox(rect.width, rect.height);
    var td := Letterbox(rect.width * dpr, rect.height * dpr);
    if rect.width <= rect.height {
      MulMono(rect.width, rect.height, dpr);
    } else {
      MulMono(rect.height, rect.width, dpr);
    }
    assert td.scale == t.scale * dpr;
    assert Mul(p.x, td.scale) == Mul(p.x, t.scale) * dpr;
    assert Mul(p.y, td.scale) == Mul(p.y, t.scale) * dpr;
  }

  // ---- Highlight and interpolation ----

  const HIGHLIGHT_RADIUS: real := 0.2

  /** `max(0, min(1, 1 - d / 0.2))`. */
  function HighlightIntensity(d: real): (r: real)
    ensures 0.0 <= r <= 1.0
  {
    Max(0.0, Min(1.0, 1.0 - d / HIGHLIGHT_RADIUS))
  }

  /** Full intensity at the pointer, none from HIGHLIGHT_RADIUS on, and
      fading linearly and monotonically in between. */
  lemma HighlightShape(d: real, e: real)
    ensures d <= 0.0 ==> HighlightIntensity(d) == 1.0
    ensures HIGHLIGHT_RADIUS <= d ==> HighlightIntensity(d) == 0.0
    ensures 0.0 <= d <= HIGHLIGHT_RADIUS ==> HighlightIntensity(d) == 1.0 - d / HIGHLIGHT_RADIUS
    ensures d <= e ==> HighlightIntensity(e) <= HighlightIntensity(d)
  {
  }

  /** `base + (high - base) * t`. */
  function Lerp(base: real, high: real, t: real): real
  {
    base + Mul(high - base, t)
  }

  lemma MulUnit(k: real, t: real)
    requires 0.0 <= k && 0.0 <= t <= 1.0
    ensures 0.0 <= Mul(k, t) <= k
  {
    if 0.0 < k && 0.0 < t {
      MulPos(k, t);
      if t < 1.0 {
        MulPos(k, 1.0 - t);
        assert Mul(k, t) + Mul(k, 1.0 - t) == k;
      }
    }
  }

  /** For `t` in [0, 1] the interpolation stays between its ends, and hits
      them at 0 and 1. */
  lemma LerpBetween(base: real, high: real, t: real)
    requires 0.0 <= t <= 1.0
    ensures Min(base, high) <= Lerp(base, high, t) <= Max(base, high)
    ensures t == 0.0 ==> Lerp(base, high, t) == base
    ensures t == 1.0 ==> Lerp(base, high, t) == high
  {
    if base <= high {
      MulUnit(high - base, t);
    } else {
      MulUnit(base - high, t);
      assert Mul(high - base, t) == -Mul(base - high, t);
    }
  }

  /** Edge opacity from its length: `(1 - d / connectionDistance) * lineOpacity`. */
  function EdgeBaseOpacity(d: real, cd: real, lineOpacity: real): real
    requires cd != 0.0
  {
    Mul(1.0 - d / cd, lineOpacity)
  }

  /** An edge shorter than `connectionDistance` has opacity in
      `[0, lineOpacity]`, positive when `lineOpacity` is, and exactly
      `lineOpacity` when its nodes coincide. */
  lemma EdgeOpacityRange(d: real, cd: real, lineOpacity: real)
    requires 0.0 <= d < cd
    requires 0.0 <= lineOpacity
    ensures 0.0 <= EdgeBaseOpacity(d, cd, lineOpacity) <= lineOpacity
    ensures 0.0 < lineOpacity ==> 0.0 < EdgeBaseOpacity(d, cd, lineOpacity)
    ensures d == 0.0 ==> EdgeBaseOpacity(d, cd, lineOpacity) == lineOpacity
  {
    var k := 1.0 - d / cd;
    assert 0.0 < k <= 1.0;
    if 0.0 < lineOpacity {
      MulPos(k, lineOpacity);
      MulUnit(lineOpacity, k);
      assert Mul(k, lineOpacity) == Mul(lineOpacity, k);
    }
  }

  /** Every edge the builder lists gets an opacity in `[0, lineOpacity]`,
      positive when `lineOpacity` is. */
  lemma ListedEdgeOpacity(num: Numerics, nodes: seq<Node>, cd: real, lineOpacity: real, x: nat)
    requires ValidNumerics(num)
    requires x < |AllEdges(num, nodes, cd)|
    requires 0.0 <= lineOpacity
    ensures 0.0 < cd
    ensures var e := AllEdges(num, nodes, cd)[x];
      e.nodeA < e.nodeB < |nodes| &&
      var op := EdgeBaseOpacity(Distance(num, Pos(nodes[e.nodeA]), Pos(nodes[e.nodeB])), cd, lineOpacity);
      0.0 <= op <= lineOpacity && (0.0 < lineOpacity ==> 0.0 < op)
  {
    EdgesWellFormed(num, nodes, cd);
    var e := AllEdges(num, nodes, cd)[x];
    assert Proper(num, nodes, cd, e);
    DistanceProps(num, Pos(nodes[e.nodeA]), Pos(nodes[e.nodeB]));
    EdgeOpacityRange(Distance(num, Pos(nodes[e.nodeA]), Pos(nodes[e.nodeB])), cd, lineOpacity);
  }

  // ---- What draw paints ----

  /** One edge's line: end points in canvas pixels, width and alpha. */
  datatype Stroke = Stroke(from: Point, to: Point, width: real, alpha: real)

  /** One node's disc: centre and radius in canvas pixels, and alpha. */
  datatype Dot = Dot(center: Point, radius: real, alpha: real)

  function Midpoint(p: Point, q: Point): Point
  {
    Point((p.x + q.x) / 2.0, (p.y + q.y) / 2.0)
  }

  /** The stroke for an edge from `a` to `b`. With the highlight effect its
      width and alpha move from their base values toward the hover values
      as the pointer nears the edge's midpoint; otherwise the base values. */
  function EdgeStroke(c: Config, num: Numerics, t: Transform, mouse: Point, a: Node, b: Node): Stroke
    requires c.connectionDistance != 0.0
  {
    var d := Distance(num, Pos(a), Pos(b));
    var base := EdgeBaseOpacity(d, c.connectionDistance, c.lineOpacity);
    if c.hoverEffect == Highlight then
      var h := HighlightIntensity(Distance(num, Midpoint(Pos(a), Pos(b)), mouse));
      Stroke(ToCanvas(t, Pos(a)), ToCanvas(t, Pos(b)),
             Mul(Lerp(c.lineWidth, c.hoverLineWidth, h), t.scale),
             Lerp(base, c.hoverLineOpacity, h))
    else
      Stroke(ToCanvas(t, Pos(a)), ToCanvas(t, Pos(b)), Mul(c.lineWidth, t.scale), base)
  }

  /** The disc for node `n`: radius `size * scale`, alpha moving from
      nodeOpacity toward hoverNodeOpacity near the pointer under the
      highlight effect. */
  function NodeDot(c: Config, num: Numerics, t: Transform, mouse: Point, n: Node): Dot
  {
    var alpha := if c.hoverEffect == Highlight
      then Lerp(c.nodeOpacity, c.hoverNodeOpacity, HighlightIntensity(Distance(num, Pos(n), mouse)))
      else c.nodeOpacity;
    Dot(ToCanvas(t, Pos(n)), Mul(n.size, t.scale), alpha)
  }

  /** An edge's width and alpha lie between their base and hover values;
      without the highlight effect, or with the pointer at least
      HIGHLIGHT_RADIUS from the midpoint, they are the base values. */
  lemma EdgeStrokeStyle(c: Config, num: Numerics, t: Transform, mouse: Point, a: Node, b: Node)
    requires c.connectionDistance != 0.0
    requires 0.0 <= t.scale
    ensures var s := EdgeStroke(c, num, t, mouse, a, b);
      var base := EdgeBaseOpacity(Distance(num, Pos(a), Pos(b)), c.connectionDistance, c.lineOpacity);
      Min(base, c.hoverLineOpacity) <= s.alpha <= Max(base, c.hoverLineOpacity) &&
      Mul(Min(c.lineWidth, c.hoverLineWidth), t.scale) <= s.width &&
      s.width <= Mul(Max(c.lineWidth, c.hoverLineWidth), t.scale) &&
      ((c.hoverEffect != Highlight ||
        HIGHLIGHT_RADIUS <= Distance(num, Midpoint(Pos(a), Pos(b)), mouse)) ==>
        s.alpha == base && s.width == Mul(c.lineWidth, t.scale))
  {
    var base := EdgeBaseOpacity(Distance(num, Pos(a), Pos(b)), c.connectionDistance, c.lineOpacity);
    var h := HighlightIntensity(Distance(num, Midpoint(Pos(a), Pos(b)), mouse));
    HighlightShape(Distance(num, Midpoint(Pos(a), Pos(b)), mouse), 0.0);
    LerpBetween(base, c.hoverLineOpacity, h);
    LerpBetween(c.lineWidth, c.hoverLineWidth, h);
    var lo, hi := Min(c.lineWidth, c.hoverLineWidth), Max(c.lineWidth, c.hoverLineWidth);
    var lw := if c.hoverEffect == Highlight then Lerp(c.lineWidth, c.hoverLineWidth, h) else c.lineWidth;
    MulMono(lo, lw, t.scale);
    MulMono(lw, hi, t.scale);
  }

  lemma MulMono(a: real, b: real, k: real)
    requires a <= b && 0.0 <= k
    ensures Mul(a, k) <= Mul(b, k)
  {
    if a < b && 0.0 < k {
      MulPos(b - a, k);
      assert Mul(b - a, k) == Mul(b, k) - Mul(a, k);
    }
  }

  /** A node's alpha lies between nodeOpacity and hoverNodeOpacity, and is
      nodeOpacity without the highlight effect or away from the pointer;
      its disc is centred where the transform puts it, with radius
      `size * scale`. */
  lemma NodeDotStyle(c: Config, num: Numerics, t: Transform, mouse: Point, n: Node)
    ensures var dot := NodeDot(c, num, t, mouse, n);
      Min(c.nodeOpacity, c.hoverNodeOpacity) <= dot.alpha <= Max(c.nodeOpacity, c.hoverNodeOpacity) &&
      ((c.hoverEffect != Highlight || HIGHLIGHT_RADIUS <= Distance(num, Pos(n), mouse)) ==>
        dot.alpha == c.nodeOpacity) &&
      dot.center == ToCanvas(t, Pos(n)) && dot.radius == Mul(n.size, t.scale)
  {
    var h := HighlightIntensity(Distance(num, Pos(n), mouse));
    HighlightShape(Distance(num, Pos(n), mouse), 0.0);
    LerpBetween(c.nodeOpacity, c.hoverNodeOpacity, h);
  }

  /** The strokes draw paints: one per listed edge, in list order, skipping
      edges whose end indices are not in the node list. */
  function EdgeStrokes(c: Config, num: Numerics, t: Transform, mouse: Point,
                       nodes: seq<Node>, edges: seq<Edge>): seq<Stroke>
    requires edges != [] ==> c.connectionDistance != 0.0
    decreases |edges|
  {
    if edges == [] then []
    else
      var rest := EdgeStrokes(c, num, t, mouse, nodes, edges[..|edges| - 1]);
      var e := edges[|edges| - 1];
      if e.nodeA < |nodes| && e.nodeB < |nodes|
      then rest + [EdgeStroke(c, num, t, mouse, nodes[e.nodeA], nodes[e.nodeB])]
      else rest
  }

  /** On a list the edge builder produced, no edge is skipped: stroke `x`
      joins the canvas positions of edge `x`'s two nodes. */
  lemma {:induction false} EdgeStrokesComplete(c: Config, num: Numerics, t: Transform, mouse: Point,
                                               nodes: seq<Node>, edges: seq<Edge>)
    requires edges != [] ==> c.connectionDistance != 0.0
    requires forall x :: 0 <= x < |edges| ==> edges[x].nodeA < |nodes| && edges[x].nodeB < |nodes|
    ensures var ss := EdgeStrokes(c, num, t, mouse, nodes, edges);
      |ss| == |edges| &&
      forall x :: 0 <= x < |edges| ==>
        ss[x] == EdgeStroke(c, num, t, mouse, nodes[edges[x].nodeA], nodes[edges[x].nodeB])
    decreases |edges|
  {
    if edges != [] {
      EdgeStrokesComplete(c, num, t, mouse, nodes, edges[..|edges| - 1]);
    }
  }

  /** Drawing a list the edge builder produced paints one stroke per edge,
      in order, between the canvas positions of the edge's two nodes. */
  lemma BuiltEdgesDrawn(c: Config, num: Numerics, t: Transform, mouse: Point, nodes: seq<Node>)
    requires ValidNumerics(num)
    ensures var es := AllEdges(num, nodes, c.connectionDistance);
      (es != [] ==> 0.0 < c.connectionDistance) &&
      var ss := EdgeStrokes(c, num, t, mouse, nodes, es);
      |ss| == |es| &&
      forall x :: 0 <= x < |es| ==>
        es[x].nodeA < es[x].nodeB < |nodes| &&
        ss[x] == EdgeStroke(c, num, t, mouse, nodes[es[x].nodeA], nodes[es[x].nodeB])
  {
    var es := AllEdges(num, nodes, c.connectionDistance);
    EdgesNeedReach(num, nodes, c.connectionDistance);
    EdgesWellFormed(num, nodes, c.connectionDistance);
    assert forall x :: 0 <= x < |es| ==> Proper(num, nodes, c.connectionDistance, es[x]);
    EdgeStrokesComplete(c, num, t, mouse, nodes, es);
  }
}

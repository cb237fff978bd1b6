# Animated graph nodes — a verified model of the engine

`AnimatedGraphNodes` is a React component that draws a drifting network on a canvas. A few dozen nodes are scattered around the centre of the unit square. Each frame they move, bounce off the walls and, in "push" mode, are pushed away from the pointer and pulled back toward their rest positions. Nodes closer than `connectionDistance` are joined by edges, and edges and nodes near the pointer can be highlighted.

This project models the engine of that component in Dafny:

- **Geometry**: points, nodes, squared distances, and the host's `Math.sqrt`/`Math.cos`/`Math.sin`. These are a record of functions constrained by `ValidNumerics`: the square root is the non-negative root, and cos/sin lie on the unit circle. `Math.random` is a stream `rnd: nat -> real` of draws in `[0, 1)`.
- **Config**: the default props and the `{ ...defaultProps, ...userProps }` merge.
- **Layout**:
  - `getCentralizedPositions`: bounded rejection sampling in a disk of radius 0.6 around `(0.5, 0.5)`, with a minimum spacing of 0.08 and 50 attempts per node plus one unchecked fallback. Its loops are proved equal to reference functions (`PlaceFrom` for one node, `InitialLayout` for all of them). These are stated over any stream of candidates and any acceptance test, and their properties are proved there;
  - the node `initializeNodes` builds on each position.
- **Physics**: one step of `updatePositions` for one node. That is the Euler move, clamping and reflection at the walls `[size, 1 - size]`, and the optional elastic push, which changes only the velocity.
- **Edges**: `calculateEdges` has a specification function, `AllEdges`, and a loop proved against it. The specification's properties are proved: exactly the close pairs are listed, each once, in lexicographic order, under distinct decimal `"i-k"` ids.
- **Paint**: the numbers `draw` hands to the canvas. That is the letterbox transform, the clamped highlight intensity, interpolated widths and opacities, and the distance-based edge opacity. It also covers the pointer mapping of `handleMouseMove`, which inverts the transform.
- **Engine**: the component's refs as a class, `GraphEngine`. It holds:
  - the node array, which `updatePositions` rewrites node by node;
  - the edge list, the pointer and the resolved configuration;
  - a cursor into the random stream.

  Its methods are initialisation, the in-place update, the edge rebuild, drawing, pointer moves, one animation frame and new props.

A mount runs the constructor, then `InitializeNodes`, then one `Animate`. Each later frame is another `Animate`.

All arithmetic is over mathematical reals. Products whose sign matters are written through `Geometry.Mul`, and their sign facts are lemmas.

## Model

All source paths are in `packages/react-animated-graph-node/src/components/AnimatedGraphNodes.tsx`.

| member | source | states |
|---|---|---|
| Geometry.SqDistProps | packages/react-animated-graph-node/src/components/AnimatedGraphNodes.tsx:94-96 | the squared distance is non-negative and symmetric, and it is zero exactly on coincident points |
| Geometry.DistanceProps | packages/react-animated-graph-node/src/components/AnimatedGraphNodes.tsx:94-96 | `sqrt(dx*dx + dy*dy)` is non-negative, squares back to the squared distance, is symmetric, and is zero iff the points coincide |
| Geometry.DistanceBelow | packages/react-animated-graph-node/src/components/AnimatedGraphNodes.tsx:100 | a distance test `d < c` is the squared test `d*d < c*c` with `c > 0`, and it never holds for `c <= 0` |
| Config.Resolve | packages/react-animated-graph-node/src/components/AnimatedGraphNodes.tsx:76 | the `{ ...defaultProps, ...userProps }` merge: each field is the given prop, or its default when absent. The body is that expression and has no contract of its own; its properties are `ResolveNoProps`, `ResolveGiven` and `ResolveOneProp` |
| Config.ResolveNoProps | packages/react-animated-graph-node/src/components/AnimatedGraphNodes.tsx:49-76 | with no props the resolved configuration is exactly the default props |
| Config.ResolveGiven | packages/react-animated-graph-node/src/components/AnimatedGraphNodes.tsx:76 | props that give every field override every default |
| Config.ResolveOneProp | packages/react-animated-graph-node/src/components/AnimatedGraphNodes.tsx:76 | giving `numNodes` alone changes that field and leaves every other at its default |
| Config.DefaultsWellFormed | packages/react-animated-graph-node/src/components/AnimatedGraphNodes.tsx:49-73 | the defaults have sizes in `[0, 0.5]` with min ≤ max, a positive connection distance, a non-negative opacity and non-negative speeds |
| Layout.Candidate | packages/react-animated-graph-node/src/components/AnimatedGraphNodes.tsx:112-116 | the candidate `0.5 + sqrt(u) * 0.6 * (cos, sin)(v * PI * 2)`, also used for the fallback at 127-131. The body is the source expression; `CandidateInDisk` states that it lies in the disk |
| Layout.RootOfUnitDraw | packages/react-animated-graph-node/src/components/AnimatedGraphNodes.tsx:112 | the square root of a draw in `[0, 1)` lies in `[0, 1)` |
| Layout.CandidateInDisk | packages/react-animated-graph-node/src/components/AnimatedGraphNodes.tsx:112-116 | every candidate lies strictly within MAX_RADIUS of the centre |
| Layout.IsValidPosition | packages/react-animated-graph-node/src/components/AnimatedGraphNodes.tsx:98-105 | accepts iff the candidate is at least MIN_DISTANCE from every placed position |
| Layout.CandidatesInDisk | packages/react-animated-graph-node/src/components/AnimatedGraphNodes.tsx:112-116 | every candidate of the stream drawn from unit draws lies strictly within MAX_RADIUS of the centre |
| Layout.FirstAcceptedProps | packages/react-animated-graph-node/src/components/AnimatedGraphNodes.tsx:111-124 | the search for the first accepted attempt ends by MAX_ATTEMPTS, every attempt it passes over is rejected, and it stops before MAX_ATTEMPTS only on an accepted candidate |
| Layout.PlaceFromProps | packages/react-animated-graph-node/src/components/AnimatedGraphNodes.tsx:108-133 | a placement keeps the candidate of its last attempt after rejecting every earlier one; it is accepted exactly when it took at most 50 attempts (at most 100 draws), and then the kept position passes the test; it reads 2 to 102 draws |
| Layout.PlaceInside | packages/react-animated-graph-node/src/components/AnimatedGraphNodes.tsx:108-133 | the kept position is one of the stream's candidates, the fallback included, so it lies in any region that holds them all |
| Layout.PlaceNext | packages/react-animated-graph-node/src/components/AnimatedGraphNodes.tsx:108-133 | the loop's position, next draw index and acceptance flag are exactly the reference placement `PlaceFrom` under the spacing test |
| Layout.PositionsStable | packages/react-animated-graph-node/src/components/AnimatedGraphNodes.tsx:107-135 | placing more nodes leaves the positions already placed unchanged |
| Layout.AcceptedStable | packages/react-animated-graph-node/src/components/AnimatedGraphNodes.tsx:107-135 | placing more nodes leaves the acceptance record of the earlier nodes unchanged |
| Layout.SampledAt | packages/react-animated-graph-node/src/components/AnimatedGraphNodes.tsx:107-135 | node `i` is placed against exactly the `i` positions before it, reading the stream from where their draws stopped |
| Layout.SampledAccepted | packages/react-animated-graph-node/src/components/AnimatedGraphNodes.tsx:111-121 | every accepted position passes the test against all positions placed before it |
| Layout.SampledInside | packages/react-animated-graph-node/src/components/AnimatedGraphNodes.tsx:107-135 | every position of a layout lies in any region that holds every candidate |
| Layout.SampledDraws | packages/react-animated-graph-node/src/components/AnimatedGraphNodes.tsx:107-135 | a layout of `n` nodes reads between `2n` and `102n` draws |
| Layout.LayoutProps | packages/react-animated-graph-node/src/components/AnimatedGraphNodes.tsx:87-137 | in the engine's layout every accepted position is at least MIN_DISTANCE from each earlier one, every position lies in the disk, and `n` nodes read `2n` to `102n` draws |
| Layout.CentralizedPositions | packages/react-animated-graph-node/src/components/AnimatedGraphNodes.tsx:87-137 | the positions, the next draw index and the acceptance record are exactly the reference layout `InitialLayout` of `numNodes` nodes (none when `numNodes <= 0`) |
| Layout.NewNode | packages/react-animated-graph-node/src/components/AnimatedGraphNodes.tsx:142-160 | the node `initializeNodes` builds on a position from its direction, speed and size draws. The body is the source expression; `NewNodeAtOrigin`, `NewNodeSize`, `NewNodeSpeed` and `NewNodeMinSpeed` state its properties |
| Layout.NewNodeAtOrigin | packages/react-animated-graph-node/src/components/AnimatedGraphNodes.tsx:149-153 | a new node sits on its placed position, which is also its rest position |
| Layout.NewNodeSize | packages/react-animated-graph-node/src/components/AnimatedGraphNodes.tsx:156-159 | a size draw in `[0, 1)` gives a size in `[minNodeSize, maxNodeSize]`, below maxNodeSize when the range is not a point |
| Layout.NewNodeSpeed | packages/react-animated-graph-node/src/components/AnimatedGraphNodes.tsx:143-155 | the speed is `max(minVelocity, r * velocityFactor)`, at least minVelocity, and the velocity vector has exactly that length |
| Layout.NewNodeMinSpeed | packages/react-animated-graph-node/src/components/AnimatedGraphNodes.tsx:144-155 | for `minVelocity >= 0` the velocity's squared length is at least `minVelocity^2` |
| Physics.Reflect | packages/react-animated-graph-node/src/components/AnimatedGraphNodes.tsx:193-207 | the clamped coordinate lies in the walls; the speed is kept; past the low wall it sits on it moving inward (`>= 0`); past the high wall likewise (`<= 0`); inside, nothing changes |
| Physics.Bounce | packages/react-animated-graph-node/src/components/AnimatedGraphNodes.tsx:180-207 | the move and the walls leave size and rest position unchanged |
| Physics.Step | packages/react-animated-graph-node/src/components/AnimatedGraphNodes.tsx:180-251 | one node's step changes only position and velocity; the position is the bounced one whatever the hover effect; with `size <= 0.5` the node ends within its walls; without push it is the bounce alone |
| Physics.ReflectIsReflected | packages/react-animated-graph-node/src/components/AnimatedGraphNodes.tsx:193-207 | per axis, the clamp is the reflection rule: on the low wall with `abs(v)`, on the high wall with `-abs(v)`, or moved with `v` unchanged |
| Physics.BounceAxes | packages/react-animated-graph-node/src/components/AnimatedGraphNodes.tsx:186-207 | the bounced node is the Euler move followed by the reflection rule on each axis |
| Physics.ReflectionSign | packages/react-animated-graph-node/src/components/AnimatedGraphNodes.tsx:193-207 | without push, a step ends with the reflection rule's position and velocity on each axis |
| Physics.PushOutsideRecovery | packages/react-animated-graph-node/src/components/AnimatedGraphNodes.tsx:234-244 | in push mode outside `pushRadius` the position is kept, and the velocity becomes `(v + (orig - pos) * pushElasticity) * pushDampening` |
| Physics.PushInside | packages/react-animated-graph-node/src/components/AnimatedGraphNodes.tsx:215-233 | inside `pushRadius` the velocity is pulled toward the push target instead, and the position is kept |
| Physics.PushForceRange | packages/react-animated-graph-node/src/components/AnimatedGraphNodes.tsx:217 | inside the radius the falloff factor is in `(0, 1]` and the force is in `[0, pushStrength]` |
| Physics.UnitDirection | packages/react-animated-graph-node/src/components/AnimatedGraphNodes.tsx:211-221 | the normalised pointer-to-node direction has length one |
| Physics.PushTarget | packages/react-animated-graph-node/src/components/AnimatedGraphNodes.tsx:211-225 | the push target `orig + (p - mouse) / d * force`. The body is the source expression; `PushTargetOffset` and `PushTargetAway` state where it lies |
| Physics.PushVelocity | packages/react-animated-graph-node/src/components/AnimatedGraphNodes.tsx:210-244 | the velocity after the push branch: pulled toward the push target inside `pushRadius`, toward the rest position outside, then damped. The body is the source expression; `PushInside` and `PushOutsideRecovery` state each case |
| Physics.DirectionDot | packages/react-animated-graph-node/src/components/AnimatedGraphNodes.tsx:211-221 | the normalised pointer-to-node direction, dotted with the pointer-to-node vector, is the distance |
| Physics.PushTargetOffset | packages/react-animated-graph-node/src/components/AnimatedGraphNodes.tsx:217-225 | the push target is the rest position moved by exactly `force` along the pointer-to-node direction, away from the pointer: the offset has squared length `force^2`, is parallel to `p - mouse`, and its dot product with `p - mouse` is `force * d` |
| Physics.PushTargetAway | packages/react-animated-graph-node/src/components/AnimatedGraphNodes.tsx:217-225 | the offset from the rest position to the push target, dotted with `p - mouse`, is `force * d`, so for a positive force the target lies on the side away from the pointer |
| Physics.PushDefinedWhen | packages/react-animated-graph-node/src/components/AnimatedGraphNodes.tsx:210-221 | the push branch divides by zero exactly when push is on, the radius is positive, and the bounced node lands on the pointer |
| Physics.RestIsEquilibrium | packages/react-animated-graph-node/src/components/AnimatedGraphNodes.tsx:180-251 | a still node at its rest position, inside its walls and not pushed, stays where it is |
| Edges.NatToStringRoundTrip | packages/react-animated-graph-node/src/components/AnimatedGraphNodes.tsx:271 | the decimal numeral in an id is a non-empty run of digits that reads back as the index |
| Edges.NatToStringInjective | packages/react-animated-graph-node/src/components/AnimatedGraphNodes.tsx:271 | different indices print differently |
| Edges.EdgeIdInjective | packages/react-animated-graph-node/src/components/AnimatedGraphNodes.tsx:271 | the `"i-k"` id determines both indices |
| Edges.RowShape | packages/react-animated-graph-node/src/components/AnimatedGraphNodes.tsx:265-276 | the inner loop for node `i` lists only proper edges from `i`, sorted, up to the current `k` |
| Edges.RowComplete | packages/react-animated-graph-node/src/components/AnimatedGraphNodes.tsx:265-276 | the inner loop lists every close `k` it has passed |
| Edges.UpToShape | packages/react-animated-graph-node/src/components/AnimatedGraphNodes.tsx:264-277 | after `m` outer iterations the list is sorted and holds only proper edges starting below `m` |
| Edges.UpToComplete | packages/react-animated-graph-node/src/components/AnimatedGraphNodes.tsx:264-277 | after `m` outer iterations every close pair starting below `m` is listed |
| Edges.EdgesWellFormed | packages/react-animated-graph-node/src/components/AnimatedGraphNodes.tsx:260-280 | every edge has `nodeA < nodeB < nodes.length`, joins close nodes and carries its `"a-b"` id; the list is in strictly increasing `(a, b)` order |
| Edges.EdgeMembership | packages/react-animated-graph-node/src/components/AnimatedGraphNodes.tsx:260-280 | a pair `i < k` is listed iff the nodes are closer than connectionDistance, and then exactly once |
| Edges.EdgeIdsUnique | packages/react-animated-graph-node/src/components/AnimatedGraphNodes.tsx:271 | no two edges share an id |
| Edges.EdgesNeedReach | packages/react-animated-graph-node/src/components/AnimatedGraphNodes.tsx:266-270 | edges exist only when connectionDistance is positive |
| Edges.BuildEdges | packages/react-animated-graph-node/src/components/AnimatedGraphNodes.tsx:260-280 | the nested loop with `k = j + i + 1` produces exactly the specified edge list |
| Paint.Letterbox | packages/react-animated-graph-node/src/components/AnimatedGraphNodes.tsx:289-291 | the scale fits both dimensions and equals one of them; the square is centred (`2·offset + scale = dimension`, offsets ≥ 0, one of them 0) |
| Paint.PointerInvertsDraw | packages/react-animated-graph-node/src/components/AnimatedGraphNodes.tsx:399-404 | mapping the drawn spot of `p` back through the pointer mapping yields `p` |
| Paint.DevicePixels | packages/react-animated-graph-node/src/components/AnimatedGraphNodes.tsx:411-416 | with the canvas `dpr` times its box, the canvas letterbox and every drawn point are the box's, scaled by `dpr` |
| Paint.HighlightIntensity | packages/react-animated-graph-node/src/components/AnimatedGraphNodes.tsx:320-324 | the intensity lies in `[0, 1]` |
| Paint.HighlightShape | packages/react-animated-graph-node/src/components/AnimatedGraphNodes.tsx:320-324 | full at the pointer, zero from 0.2 on, linear in between and non-increasing with distance |
| Paint.LerpBetween | packages/react-animated-graph-node/src/components/AnimatedGraphNodes.tsx:329-338 | interpolation with `t` in `[0, 1]` stays between base and hover value and hits them at 0 and 1 |
| Paint.EdgeOpacityRange | packages/react-animated-graph-node/src/components/AnimatedGraphNodes.tsx:333-335 | for `0 <= d < connectionDistance` the base opacity is in `[0, lineOpacity]`, positive when lineOpacity is, and lineOpacity at distance 0 |
| Paint.ListedEdgeOpacity | packages/react-animated-graph-node/src/components/AnimatedGraphNodes.tsx:300-303 | every edge the builder lists gets a base opacity in `[0, lineOpacity]`, positive when lineOpacity is |
| Paint.EdgeStroke | packages/react-animated-graph-node/src/components/AnimatedGraphNodes.tsx:300-347 | the stroke of one edge: transformed endpoints, the distance-based base opacity and width, and the highlight interpolation. The body is the source expression; `EdgeStrokeStyle` and `EdgeOpacityRange` state its properties |
| Paint.NodeDot | packages/react-animated-graph-node/src/components/AnimatedGraphNodes.tsx:351-384 | the disc of one node: transformed centre, radius `size * scale` and the highlighted alpha. The body is the source expression; `NodeDotStyle` states its properties |
| Paint.FromPointer | packages/react-animated-graph-node/src/components/AnimatedGraphNodes.tsx:398-405 | the pointer mapping of `handleMouseMove`: the client position made relative to the box and inverted through the letterbox. The body is the source expression; `PointerInvertsDraw` and `Engine.PointerInverts` state that it inverts the draw transform |
| Paint.EdgeStrokeStyle | packages/react-animated-graph-node/src/components/AnimatedGraphNodes.tsx:309-345 | an edge's alpha and width lie between base and hover values; without highlight, or with the pointer ≥ 0.2 from the midpoint, they are the base values |
| Paint.NodeDotStyle | packages/react-animated-graph-node/src/components/AnimatedGraphNodes.tsx:351-382 | a node's alpha lies between nodeOpacity and hoverNodeOpacity and is nodeOpacity without highlight or away from the pointer; the disc is the transformed position with radius `size * scale` |
| Paint.EdgeStrokesComplete | packages/react-animated-graph-node/src/components/AnimatedGraphNodes.tsx:294-298 | when every edge's nodes exist, no edge is skipped: stroke `x` is edge `x`'s |
| Paint.BuiltEdgesDrawn | packages/react-animated-graph-node/src/components/AnimatedGraphNodes.tsx:294-345 | drawing a built edge list paints one stroke per edge, in order, between that edge's two nodes |
| Engine.NodeFromDrawsFacts | packages/react-animated-graph-node/src/components/AnimatedGraphNodes.tsx:142-161 | a node built from unit draws sits at its rest position, has a size in range and is at least minVelocity fast |
| Engine.MakeNodes | packages/react-animated-graph-node/src/components/AnimatedGraphNodes.tsx:142-161 | a fresh array with node `i` built on position `i` from draws `base + 3i` to `base + 3i + 2` |
| Engine.GraphEngine.constructor | packages/react-animated-graph-node/src/components/AnimatedGraphNodes.tsx:75-82 | the refs start with the merged props, no nodes, no edges and the pointer at the origin; valid host primitives make the engine `Valid` |
| Engine.GraphEngine.LaidOutProps | packages/react-animated-graph-node/src/components/AnimatedGraphNodes.tsx:87-164 | a fresh layout has `numNodes` nodes (none for `numNodes <= 0`) whose positions are the reference layout's; each is at rest on a position in the disk, spaced from the earlier nodes when it passed the test, with a size in range and a speed of at least minVelocity; under `WellFormed` every node fits between its walls; positions read `2n` to `102n` draws and attributes `3n` more |
| Engine.GraphEngine.InitializeNodes | packages/react-animated-graph-node/src/components/AnimatedGraphNodes.tsx:139-164 | the node array is replaced by a fresh one laid out (`LaidOut`) from the current cursor: node `i` is built on position `i` of the reference layout from its own three draws; the positions are the layout's and read `2n` to `102n` draws |
| Engine.GraphEngine.UpdatePositions | packages/react-animated-graph-node/src/components/AnimatedGraphNodes.tsx:166-253 | with animations off nothing changes; otherwise every node takes one `Step` in place. Size and rest positions never change, and nodes whose walls fit end within them |
| Engine.GraphEngine.CalculateEdges | packages/react-animated-graph-node/src/components/AnimatedGraphNodes.tsx:260-280 | the edge list becomes the specified list of the current nodes, so recomputing on unchanged nodes gives the same list |
| Engine.GraphEngine.Draw | packages/react-animated-graph-node/src/components/AnimatedGraphNodes.tsx:282-386 | one stroke per edge whose nodes exist, in edge order, then one disc per node, all under the canvas letterbox |
| Engine.GraphEngine.HandleMouseMove | packages/react-animated-graph-node/src/components/AnimatedGraphNodes.tsx:395-406 | the pointer becomes the inverse-letterboxed client position, which the draw transform maps back to the pointer's spot in the box |
| Engine.PointerInverts | packages/react-animated-graph-node/src/components/AnimatedGraphNodes.tsx:399-404 | the draw transform maps the pointer mapping's result back onto the client position within the box |
| Engine.GraphEngine.Animate | packages/react-animated-graph-node/src/components/AnimatedGraphNodes.tsx:388-393 | one frame: every node steps (or none, with animations off); the edges are those of the moved nodes; each edge is drawn between its own two nodes and every node gets a disc |
| Engine.GraphEngine.SetProps | packages/react-animated-graph-node/src/components/AnimatedGraphNodes.tsx:421-427 | new props replace the configuration; when numNodes, minNodeSize or maxNodeSize changed, the nodes are a fresh array laid out (`LaidOut`) under the new configuration from the old cursor; otherwise the array and the cursor are untouched |

## Left out

- React scheduling is not modelled: `useMemo`, `useEffect`, `requestAnimationFrame`/`cancelAnimationFrame` and the window listeners. The order in which the effects call the modelled operations is described above.
- Canvas calls (`getContext`, `clearRect`, `beginPath`, `moveTo`, `lineTo`, `arc`, `stroke`, `fill`) and colours are not modelled. Only the numbers passed to them are: `Stroke` and `Dot`. The early return of `draw` and `handleMouseMove` when there is no canvas is left out too, because the model always has a canvas.
- `handleResize` measures the DOM and reads `devicePixelRatio`. Only its effect on the transform is modelled, by `Paint.DevicePixels`. `Draw` takes the canvas size in device pixels as parameters.
- Paint.DevicePixels: the canvas `width` and `height` attributes are integers, so the browser truncates `width * scale` and `height * scale` (lines 415-416). The model takes the canvas size to be the exact product.
- IEEE floating point (rounding, NaN, infinities) is not modelled. All arithmetic is on reals.
- `Math.sqrt`, `Math.cos` and `Math.sin` are abstract functions constrained by `ValidNumerics`. `Math.random` is the stream `rnd` with draws in `[0, 1)`. `Math.PI` is its decimal value.
- `repulsionField` is carried in the configuration but has no behaviour, because the component never reads it.
- `height` and `className` are styling of the container element. They are carried in the configuration and nothing more.
- Physics.Step, Engine.GraphEngine.UpdatePositions and Engine.GraphEngine.Animate require `PushDefined`: a node that the move puts exactly on the pointer, inside a positive `pushRadius`, makes the component divide by zero. `Physics.PushDefinedWhen` characterises this case. The model does not invent a result for it.
- Engine.GraphEngine.HandleMouseMove and Paint.FromPointer require a canvas box with non-zero `min(width, height)`. A zero-size box divides by zero in the component.
- Engine.GraphEngine.InitializeNodes: `numNodes` is an integer here. A fractional JavaScript number would place `ceil(numNodes)` nodes, and that is not modelled.
- Config.ResolveNoProps: an absent prop is `None`. A prop passed explicitly as `undefined`, which the spread copies over its default, is not modelled.
- Engine.GraphEngine.InitializeNodes does not promise that nodes start inside their walls. The placement disk has radius 0.6 around the centre, so a node can start outside the unit square. The first `UpdatePositions` brings it within its walls only when animations are enabled, since `updatePositions` returns at once otherwise (line 167), and only when its walls fit, that is `size <= 0.5`. Under `Config.WellFormed` every laid-out node has `size <= 0.5` (`Engine.GraphEngine.LaidOutProps`); with animations off it stays where it was placed.

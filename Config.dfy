/** The component's configuration: the built-in defaults and the merge of the
    caller's (partial) props over them. */
module Config {

  datatype Option<T> = None | Some(value: T)

  function GetOr<T>(o: Option<T>, d: T): (r: T)
    ensures o.Some? ==> r == o.value
    ensures o.None? ==> r == d
  {
    match o
    case None => d
    case Some(v) => v
  }

  /** The three values of `hoverEffect`. */
  datatype HoverEffect = Highlight | Push | NoEffect

  /** The fully resolved props the engine reads every frame. `numNodes` is a
      whole count here; colours and class name are opaque strings. */
  datatype Config = Config(
    enableAnimations: bool,
    numNodes: int,
    minNodeSize: real,
    maxNodeSize: real,
    nodeColor: string,
    nodeOpacity: real,
    connectionDistance: real,
    lineColor: string,
    lineOpacity: real,
    lineWidth: real,
    animationSpeed: real,
    velocityFactor: real,
    minVelocity: real,
    hoverEffect: HoverEffect,
    hoverLineOpacity: real,
    hoverLineWidth: real,
    hoverNodeOpacity: real,
    height: Option<string>,
    className: string,
    pushRadius: real,
    pushStrength: real,
    pushElasticity: real,
    pushDampening: real,
    repulsionField: real)

  /** The props a caller passes; every one of them is optional. */
  datatype Props = Props(
    enableAnimations: Option<bool>,
    numNodes: Option<int>,
    minNodeSize: Option<real>,
    maxNodeSize: Option<real>,
    nodeColor: Option<string>,
    nodeOpacity: Option<real>,
    connectionDistance: Option<real>,
    lineColor: Option<string>,
    lineOpacity: Option<real>,
    lineWidth: Option<real>,
    animationSpeed: Option<real>,
    velocityFactor: Option<real>,
    minVelocity: Option<real>,
    hoverEffect: Option<HoverEffect>,
    hoverLineOpacity: Option<real>,
    hoverLineWidth: Option<real>,
    hoverNodeOpacity: Option<real>,
    height: Option<string>,
    className: Option<string>,
    pushRadius: Option<real>,
    pushStrength: Option<real>,
    pushElasticity: Option<real>,
    pushDampening: Option<real>,
    repulsionField: Option<real>)

  /** The component's default props (`height` has no default). */
  const Defaults: Config := Config(
    enableAnimations := true,
    numNodes := 24,
    minNodeSize := 0.008,
    maxNodeSize := 0.015,
    nodeColor := "rgb(76, 181, 174)",
    nodeOpacity := 0.6,
    connectionDistance := 0.3,
    lineColor := "rgb(76, 181, 174)",
    lineOpacity := 0.6,
    lineWidth := 0.004,
    animationSpeed := 0.012,
    velocityFactor := 0.01,
    minVelocity := 0.001,
    hoverEffect := Highlight,
    hoverLineOpacity := 0.8,
    hoverLineWidth := 0.002,
    hoverNodeOpacity := 1.0,
    height := None,
    className := "",
    pushRadius := 0.3,
    pushStrength := 0.5,
    pushElasticity := 0.05,
    pushDampening := 0.8,
    repulsionField := 0.2)

  /** No props at all. */
  const NoProps: Props := Props(
    None, None, None, None, None, None, None, None, None, None, None, None,
    None, None, None, None, None, None, None, None, None, None, None, None)

  /** `{ ...defaultProps, ...userProps }`: each given prop wins, every other
      one takes its default. */
  function Resolve(u: Props): Config
  {
    Config(
      enableAnimations := GetOr(u.enableAnimations, Defaults.enableAnimations),
      numNodes := GetOr(u.numNodes, Defaults.numNodes),
      minNodeSize := GetOr(u.minNodeSize, Defaults.minNodeSize),
      maxNodeSize := GetOr(u.maxNodeSize, Defaults.maxNodeSize),
      nodeColor := GetOr(u.nodeColor, Defaults.nodeColor),
      nodeOpacity := GetOr(u.nodeOpacity, Defaults.nodeOpacity),
      connectionDistance := GetOr(u.connectionDistance, Defaults.connectionDistance),
      lineColor := GetOr(u.lineColor, Defaults.lineColor),
      lineOpacity := GetOr(u.lineOpacity, Defaults.lineOpacity),
      lineWidth := GetOr(u.lineWidth, Defaults.lineWidth),
      animationSpeed := GetOr(u.animationSpeed, Defaults.animationSpeed),
      velocityFactor := GetOr(u.velocityFactor, Defaults.velocityFactor),
      minVelocity := GetOr(u.minVelocity, Defaults.minVelocity),
      hoverEffect := GetOr(u.hoverEffect, Defaults.hoverEffect),
      hoverLineOpacity := GetOr(u.hoverLineOpacity, Defaults.hoverLineOpacity),
      hoverLineWidth := GetOr(u.hoverLineWidth, Defaults.hoverLineWidth),
      hoverNodeOpacity := GetOr(u.hoverNodeOpacity, Defaults.hoverNodeOpacity),
      height := if u.height.Some? then u.height else Defaults.height,
      className := GetOr(u.className, Defaults.className),
      pushRadius := GetOr(u.pushRadius, Defaults.pushRadius),
      pushStrength := GetOr(u.pushStrength, Defaults.pushStrength),
      pushElasticity := GetOr(u.pushElasticity, Defaults.pushElasticity),
      pushDampening := GetOr(u.pushDampening, Defaults.pushDampening),
      repulsionField := GetOr(u.repulsionField, Defaults.repulsionField))
  }

  /** Every field of `c`, given explicitly. */
  function Given(c: Config): Props
  {
    Props(
      Some(c.enableAnimations), Some(c.numNodes), Some(c.minNodeSize),
      Some(c.maxNodeSize), Some(c.nodeColor), Some(c.nodeOpacity),
      Some(c.connectionDistance), Some(c.lineColor), Some(c.lineOpacity),
      Some(c.lineWidth), Some(c.animationSpeed), Some(c.velocityFactor),
      Some(c.minVelocity), Some(c.hoverEffect), Some(c.hoverLineOpacity),
      Some(c.hoverLineWidth), Some(c.hoverNodeOpacity), c.height,
      Some(c.className), Some(c.pushRadius), Some(c.pushStrength),
      Some(c.pushElasticity), Some(c.pushDampening), Some(c.repulsionField))
  }

  /** With no props the component runs on its defaults. */
  lemma ResolveNoProps()
    ensures Resolve(NoProps) == Defaults
  {
  }

  /** Props that give every field leave nothing to the defaults. */
  lemma ResolveGiven(c: Config)
    ensures Resolve(Given(c)) == c
  {
  }

  /** Merging one prop over the defaults changes that field and no other. */
  lemma ResolveOneProp(n: int)
    ensures Resolve(NoProps.(numNodes := Some(n))) == Defaults.(numNodes := n)
  {
  }

  /** Ranges the default props keep: node sizes are non-negative and fit
      at least twice into the unit square, edges have a positive reach and
      a non-negative opacity, and speeds are non-negative. The size bound is
      what lets every laid-out node fit between its walls
      (GraphEngine.LaidOutProps). */
  predicate WellFormed(c: Config)
  {
    0.0 <= c.minNodeSize <= c.maxNodeSize <= 0.5 &&
    0.0 < c.connectionDistance &&
    0.0 <= c.lineOpacity &&
    0.0 <= c.minVelocity && 0.0 <= c.velocityFactor &&
    0 <= c.numNodes
  }

  lemma DefaultsWellFormed()
    ensures WellFormed(Defaults)
  {
  }
}

/**
 * What one pointer step draws: the switch in `draw` and the four tool
 * routines `drawPen`, `drawMarker`, `drawSpray` and `drawEraser`. The canvas
 * itself is not modelled; a step produces a `Mark`, the record of the stroke
 * or dots the canvas is asked to paint, with the style it is painted in.
 */
module Tools {
  import opened Wrappers

  datatype Tool = Pen | Marker | Spray | Eraser

  /** The drawing settings a step reads: `primaryColor`, `backgroundColor`,
      `brushSize` and `opacity` of the application. */
  datatype Config = Config(primaryColor: string, backgroundColor: string, brushSize: int, opacity: real)

  /** A position in canvas coordinates (after the zoom is divided out). */
  datatype Point = Point(x: real, y: real)

  /** The context settings of a line: `strokeStyle`, `lineWidth` and
      `globalAlpha`; line caps and joins are always round. */
  datatype LineStyle = LineStyle(color: string, width: int, alpha: real)

  /** One spray dot of radius 1, placed `distance` away from the centre in the
      direction `turn` × 2π (`turn` is the random draw for the angle). */
  datatype Dot = Dot(turn: real, distance: real)

  /** What one step paints: a line segment from the previous point to the
      current one, or a scatter of dots around the current point. */
  datatype Mark =
    | Segment(from: Point, to: Point, style: LineStyle)
    | Scatter(center: Point, color: string, alpha: real, dots: seq<Dot>)

  /** The tool names the `draw` switch recognises; any other name draws
      nothing. */
  function ParseTool(name: string): (t: Option<Tool>)
    ensures t.Some? <==> name in {"pen", "marker", "spray", "eraser"}
    ensures t.Some? ==> ToolName(t.value) == name
  {
    match name
    case "pen" => Some(Pen)
    case "marker" => Some(Marker)
    case "spray" => Some(Spray)
    case "eraser" => Some(Eraser)
    case _ => None
  }

  /** The `data-tool` name of a tool. */
  function ToolName(t: Tool): string {
    match t
    case Pen => "pen"
    case Marker => "marker"
    case Spray => "spray"
    case Eraser => "eraser"
  }

  /** Every tool's name is recognised as that tool. */
  lemma ToolNameRoundTrip(t: Tool)
    ensures ParseTool(ToolName(t)) == Some(t)
  {
  }

  /** The style of the line tools: the pen strokes in the primary colour at
      the brush size; the marker is twice as wide and its alpha is scaled by
      0.3; the eraser paints the background colour at the brush size. All
      three start from the configured opacity. */
  function LineStyleOf(tool: Tool, cfg: Config): (s: LineStyle)
    requires tool != Spray
    ensures s.color == if tool == Eraser then cfg.backgroundColor else cfg.primaryColor
    ensures s.width == if tool == Marker then 2 * cfg.brushSize else cfg.brushSize
    ensures s.alpha == if tool == Marker then cfg.opacity * 0.3 else cfg.opacity
  {
    match tool
    case Pen => LineStyle(cfg.primaryColor, cfg.brushSize, cfg.opacity)
    case Marker => LineStyle(cfg.primaryColor, cfg.brushSize * 2, cfg.opacity * 0.3)
    case Eraser => LineStyle(cfg.backgroundColor, cfg.brushSize, cfg.opacity)
  }

  /** Erasing is drawing with the pen in the background colour: it paints the
      background fill back, not transparency. */
  lemma EraserIsPenInBackground(cfg: Config)
    ensures LineStyleOf(Eraser, cfg) == LineStyleOf(Pen, cfg.(primaryColor := cfg.backgroundColor))
  {
  }

  /** The marker is the pen at double width and 30 % of its alpha. */
  lemma MarkerIsWidePalePen(cfg: Config)
    ensures LineStyleOf(Marker, cfg)
         == LineStyleOf(Pen, cfg).(width := 2 * cfg.brushSize, alpha := cfg.opacity * 0.3)
  {
  }

  /** Iterations of the spray loop: `brushSize * 2` of them, none when the
      brush size is not positive. */
  function DotCount(brushSize: int): (n: nat)
    ensures brushSize > 0 ==> n == 2 * brushSize
    ensures brushSize <= 0 ==> n == 0
  {
    if brushSize > 0 then 2 * brushSize else 0
  }

  /** The spray radius, half the brush size. */
  function Radius(brushSize: int): real {
    brushSize as real / 2.0
  }

  /** `Math.random()` draws only from [0, 1). */
  ghost predicate IsRandomStream(random: nat -> real) {
    forall k :: 0.0 <= random(k) < 1.0
  }

  /** The dots of one spray step. Iteration `i` draws `random(2 * i)` for the
      angle and `random(2 * i + 1)` for the distance, which is that draw times
      the radius; every dot lies within the radius of the centre. */
  function SprayDots(brushSize: int, random: nat -> real): (dots: seq<Dot>)
    requires IsRandomStream(random)
    ensures |dots| == DotCount(brushSize)
    ensures forall i :: 0 <= i < |dots| ==>
      0.0 <= dots[i].turn < 1.0 && 0.0 <= dots[i].distance < Radius(brushSize)
  {
    seq(DotCount(brushSize), i requires 0 <= i < DotCount(brushSize) => SprayDot(brushSize, random, i))
  }

  /** Dot `i` of a spray step. */
  function SprayDot(brushSize: int, random: nat -> real, i: nat): (d: Dot)
    requires IsRandomStream(random) && 0 <= i < DotCount(brushSize)
    ensures 0.0 <= d.distance < Radius(brushSize)
  {
    var d := Dot(random(2 * i), random(2 * i + 1) * Radius(brushSize));
    ScaledStaysBelow(random(2 * i + 1), Radius(brushSize));
    d
  }

  /** A draw from [0, 1) scales a positive radius to a distance below it. */
  lemma ScaledStaysBelow(u: real, radius: real)
    requires 0.0 <= u < 1.0 && 0.0 < radius
    ensures 0.0 <= u * radius < radius
  {
    assert radius - u * radius == (1.0 - u) * radius;
  }

  /** What one step paints, for the tool named `tool`: nothing for a name the
      switch does not know; for the line tools a segment from `from` to `to`;
      for the spray a scatter around `to` alone. */
  function Stroke(tool: string, cfg: Config, from: Point, to: Point, random: nat -> real): (m: Option<Mark>)
    requires IsRandomStream(random)
    ensures m.None? <==> ParseTool(tool).None?
    ensures m.Some? && tool == "spray" ==>
      m.value == Scatter(to, cfg.primaryColor, cfg.opacity, SprayDots(cfg.brushSize, random))
    ensures m.Some? && tool != "spray" ==>
      m.value == Segment(from, to, LineStyleOf(ParseTool(tool).value, cfg))
  {
    match ParseTool(tool)
    case None => None
    case Some(Spray) => Some(Scatter(to, cfg.primaryColor, cfg.opacity, SprayDots(cfg.brushSize, random)))
    case Some(t) => Some(Segment(from, to, LineStyleOf(t, cfg)))
  }

  /** The spray loop of `drawSpray`: one dot per iteration. */
  method DrawSpray(cfg: Config, center: Point, random: nat -> real) returns (m: Mark)
    requires IsRandomStream(random)
    ensures m == Scatter(center, cfg.primaryColor, cfg.opacity, SprayDots(cfg.brushSize, random))
  {
    var radius := cfg.brushSize as real / 2.0;
    var density := cfg.brushSize * 2;
    var dots: seq<Dot> := [];
    for i := 0 to if density > 0 then density else 0
      invariant dots == SprayDots(cfg.brushSize, random)[..i]
    {
      var angle := random(2 * i);
      var distance := random(2 * i + 1) * radius;
      assert SprayDots(cfg.brushSize, random)[i] == Dot(angle, distance);
      assert SprayDots(cfg.brushSize, random)[..i + 1]
          == SprayDots(cfg.brushSize, random)[..i] + [Dot(angle, distance)];
      dots := dots + [Dot(angle, distance)];
    }
    assert dots == SprayDots(cfg.brushSize, random);
    m := Scatter(center, cfg.primaryColor, cfg.opacity, dots);
  }

  /** The `switch` in `draw`: dispatch on the tool name. */
  method ApplySegment(tool: string, cfg: Config, from: Point, to: Point, random: nat -> real)
    returns (m: Option<Mark>)
    requires IsRandomStream(random)
    ensures m == Stroke(tool, cfg, from, to, random)
  {
    match tool
    case "pen" => m := Some(Segment(from, to, LineStyle(cfg.primaryColor, cfg.brushSize, cfg.opacity)));
    case "marker" => m := Some(Segment(from, to, LineStyle(cfg.primaryColor, cfg.brushSize * 2, cfg.opacity * 0.3)));
    case "spray" =>
      var s := DrawSpray(cfg, to, random);
      m := Some(s);
    case "eraser" => m := Some(Segment(from, to, LineStyle(cfg.backgroundColor, cfg.brushSize, cfg.opacity)));
    case _ => m := None;
  }
}

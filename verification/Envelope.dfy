/** Trained envelopes: default dimensions, request bounds and departures. */
module Envelope {
  import opened Prelude

  const MIN_CANVAS_EDGE: int := 256

  datatype DefinitionError = EdgesInverted | FramesInverted | StepNotPositive | EdgeOffGrid | FramesOffGrid

  datatype TrainedRange = TrainedRange(
    modelSet: string, shortEdge: int, longEdge: int, minFrames: int, maxFrames: int,
    gridStride: int, gridOffset: int, canvasMultiple: int)
  {
    /** Why construction refuses these numbers, if it does. */
    function Defect(): Option<DefinitionError> {
      if shortEdge > longEdge then Some(EdgesInverted)
      else if minFrames > maxFrames then Some(FramesInverted)
      else if canvasMultiple <= 0 || gridStride <= 0 then Some(StepNotPositive)
      else if shortEdge % canvasMultiple != 0 || longEdge % canvasMultiple != 0 then Some(EdgeOffGrid)
      else if !OnFrameGrid(minFrames) then Some(FramesOffGrid)
      else None
    }

    predicate OnFrameGrid(frames: int)
      requires gridStride > 0
    {
      (frames - gridOffset) % gridStride == 0
    }

    predicate WithinCanvas(width: int, height: int) {
      Min(width, height) <= shortEdge && Max(width, height) <= longEdge
    }

    function Measure(d: Dimensions): Departure {
      Departure(Min(d.width, d.height) < shortEdge, d.frames < minFrames)
    }
  }

  datatype Departure = Departure(shortEdgeBelow: bool, framesBelow: bool) {
    predicate Inside() { !(shortEdgeBelow || framesBelow) }
  }

  datatype Dimensions = Dimensions(width: int, height: int, frames: int)

  function Min(a: int, b: int): int { if a <= b then a else b }
  function Max(a: int, b: int): int { if a <= b then b else a }

  type Range = r: TrainedRange | r.Defect().None?
    witness TrainedRange("", 0, 0, 0, 0, 1, 0, 1)

  /** The dimension fields of a payload; a null value counts as absent. */
  type Payload = map<string, Option<int>>

  function Given(data: Payload, field: string): Option<int> {
    if field in data then data[field] else None
  }

  function Defaults(entry: Range): seq<(string, int)> {
    [("width", entry.longEdge), ("height", entry.shortEdge), ("frames", entry.minFrames)]
  }

  /** Fill every absent dimension from the trained range, and touch nothing else. */
  method ApplyTrainedDefaults(entry: Range, data: Payload) returns (filled: Payload)
    ensures Resolved(filled) == Some(Filled(entry, data))
    ensures forall f | f !in {"width", "height", "frames"} :: Given(filled, f) == Given(data, f)
    ensures forall f | Given(data, f).Some? :: Given(filled, f) == Given(data, f)
  {
    filled := data;
    var defaults := Defaults(entry);
    for i := 0 to |defaults|
      invariant forall f | Given(data, f).Some? :: Given(filled, f) == Given(data, f)
      invariant forall f | f !in {"width", "height", "frames"} :: Given(filled, f) == Given(data, f)
      invariant forall j | 0 <= j < i :: Given(filled, defaults[j].0) == Some(Given(data, defaults[j].0).GetOr(defaults[j].1))
      invariant forall j | i <= j < |defaults| :: Given(filled, defaults[j].0) == Given(data, defaults[j].0)
    {
      var (field, value) := defaults[i];
      if Given(filled, field).None? { filled := filled[field := Some(value)]; }
    }
    assert Given(filled, defaults[0].0).Some? && Given(filled, defaults[1].0).Some? && Given(filled, defaults[2].0).Some?;
  }

  function Resolved(data: Payload): Option<Dimensions> {
    match (Given(data, "width"), Given(data, "height"), Given(data, "frames"))
    case (Some(w), Some(h), Some(f)) => Some(Dimensions(w, h, f))
    case _ => None
  }

  function Filled(entry: Range, data: Payload): Dimensions {
    Dimensions(Given(data, "width").GetOr(entry.longEdge),
               Given(data, "height").GetOr(entry.shortEdge),
               Given(data, "frames").GetOr(entry.minFrames))
  }

  datatype DimensionError = Unregistered | BelowMinimum | OffCanvasMultiple | OutsideCanvas | OffFrameGrid | FramesOutOfRange

  /** The bounds of one trained range, in the order they are checked. */
  function Departs(entry: Range, d: Dimensions): Option<DimensionError> {
    if d.width % entry.canvasMultiple != 0 || d.height % entry.canvasMultiple != 0 then Some(OffCanvasMultiple)
    else if !entry.WithinCanvas(d.width, d.height) then Some(OutsideCanvas)
    else if !entry.OnFrameGrid(d.frames) then Some(OffFrameGrid)
    else if !(entry.gridOffset <= d.frames <= entry.maxFrames) then Some(FramesOutOfRange)
    else None
  }

  method ParseDimensions(ranges: map<string, Range>, modelSet: string, data: Payload)
    returns (r: Result<Dimensions, DimensionError>)
    ensures r == Parsed(ranges, modelSet, data)
  {
    if modelSet !in ranges { return Err(Unregistered); }
    var filled := ApplyTrainedDefaults(ranges[modelSet], data);
    var d := Resolved(filled).value;
    if d.width < MIN_CANVAS_EDGE || d.height < MIN_CANVAS_EDGE || d.frames < 1 { return Err(BelowMinimum); }
    var departs := Departs(ranges[modelSet], d);
    return if departs.Some? then Err(departs.value) else Ok(d);
  }

  function Parsed(ranges: map<string, Range>, modelSet: string, data: Payload): Result<Dimensions, DimensionError> {
    if modelSet !in ranges then Err(Unregistered)
    else Checked(ranges[modelSet], Filled(ranges[modelSet], data))
  }

  function Checked(entry: Range, d: Dimensions): Result<Dimensions, DimensionError> {
    if d.width < MIN_CANVAS_EDGE || d.height < MIN_CANVAS_EDGE || d.frames < 1 then Err(BelowMinimum)
    else match Departs(entry, d)
      case Some(e) => Err(e)
      case None => Ok(d)
  }

  // -------------------------------------------------------------------- laws

  /** A request that names no dimension passes its own range exactly when the frame floor
      reaches both one and the grid offset and the short edge reaches the canvas minimum;
      it then lands on the trained point itself, inside the range. */
  lemma DefaultsPassExactly(ranges: map<string, Range>, modelSet: string, data: Payload)
    requires modelSet in ranges
    requires forall f | f in {"width", "height", "frames"} :: Given(data, f).None?
    ensures var e, r := ranges[modelSet], Parsed(ranges, modelSet, data);
      && (r.Ok? <==> e.minFrames >= Max(1, e.gridOffset) && e.shortEdge >= MIN_CANVAS_EDGE)
      && (r.Ok? ==> r.value == Dimensions(e.longEdge, e.shortEdge, e.minFrames) && e.Measure(r.value).Inside())
  {
    assert "width" in {"width", "height", "frames"} && "height" in {"width", "height", "frames"}
           && "frames" in {"width", "height", "frames"};
  }

  /** The canvas bound in either orientation, and the pixel area it implies. */
  lemma CanvasBoundsTheArea(e: Range, width: int, height: int)
    ensures e.WithinCanvas(width, height)
            <==> (width <= e.shortEdge && height <= e.longEdge) || (height <= e.shortEdge && width <= e.longEdge)
    ensures e.WithinCanvas(width, height) && width >= 0 && height >= 0 ==> width * height <= e.shortEdge * e.longEdge
  {
    if e.WithinCanvas(width, height) && width >= 0 && height >= 0 {
      AreaMonotone(Min(width, height), Max(width, height), e.shortEdge, e.longEdge);
      assert width * height == Min(width, height) * Max(width, height);
    }
  }

  lemma AreaMonotone(a: int, b: int, c: int, d: int)
    requires 0 <= a <= c && 0 <= b <= d
    ensures a * b <= c * d
  {
    assert a * b <= c * b;
    assert c * b <= c * d;
  }

  /** What acceptance means: a canvas no larger than trained, and a frame count reached from
      the grid offset in whole strides. Below the trained floor it is accepted and reported. */
  lemma AcceptedMeans(ranges: map<string, Range>, modelSet: string, data: Payload) returns (strides: nat)
    requires Parsed(ranges, modelSet, data).Ok?
    ensures var e, d := ranges[modelSet], Parsed(ranges, modelSet, data).value;
      && d.width * d.height <= e.shortEdge * e.longEdge
      && d.frames == e.gridOffset + strides * e.gridStride && 1 <= d.frames <= e.maxFrames
      && (e.Measure(d).Inside() <==> Min(d.width, d.height) == e.shortEdge && d.frames >= e.minFrames)
      && (forall f, v | Given(data, f) == Some(v) ::
            (f == "width" ==> d.width == v) && (f == "height" ==> d.height == v) && (f == "frames" ==> d.frames == v))
  {
    var e, d := ranges[modelSet], Parsed(ranges, modelSet, data).value;
    CanvasBoundsTheArea(e, d.width, d.height);
    strides := Quotient(d.frames - e.gridOffset, e.gridStride);
  }

  lemma Quotient(n: int, k: int) returns (q: nat)
    requires n >= 0 && k > 0 && n % k == 0
    ensures n == q * k
  {
    q := n / k;
  }

  /** What a parse answers, on the dimensions: what is wrong first, or the dimensions themselves,
      at least 256 by 256 in whole canvas steps, within the trained canvas either way up, and in
      frames reached from the grid offset in whole strides. */
  lemma ParsedExactly(ranges: map<string, Range>, modelSet: string, data: Payload)
    ensures modelSet !in ranges <==> Parsed(ranges, modelSet, data) == Err(Unregistered)
    ensures modelSet in ranges ==>
      var e, r := ranges[modelSet], Parsed(ranges, modelSet, data);
      var w, h, f := Given(data, "width").GetOr(e.longEdge), Given(data, "height").GetOr(e.shortEdge), Given(data, "frames").GetOr(e.minFrames);
      var small := w < 256 || h < 256 || f < 1;
      var stepped := (exists a :: w == a * e.canvasMultiple) && exists b :: h == b * e.canvasMultiple;
      var fits := (w <= e.shortEdge && h <= e.longEdge) || (h <= e.shortEdge && w <= e.longEdge);
      var gridded := exists k :: f == e.gridOffset + k * e.gridStride;
      && (r == Err(BelowMinimum) <==> small)
      && (r == Err(OffCanvasMultiple) <==> !small && !stepped)
      && (r == Err(OutsideCanvas) <==> !small && stepped && !fits)
      && (r == Err(OffFrameGrid) <==> !small && stepped && fits && !gridded)
      && (r == Err(FramesOutOfRange) <==> !small && stepped && fits && gridded && !(e.gridOffset <= f <= e.maxFrames))
      && (r == Ok(Dimensions(w, h, f)) <==> !small && stepped && fits && gridded && e.gridOffset <= f <= e.maxFrames)
  {
    if modelSet in ranges {
      var e := ranges[modelSet];
      var d := Filled(e, data);
      Multiple(d.width, e.canvasMultiple);
      Multiple(d.height, e.canvasMultiple);
      Multiple(d.frames - e.gridOffset, e.gridStride);
      if e.OnFrameGrid(d.frames) {
        var k :| d.frames - e.gridOffset == k * e.gridStride;
        assert d.frames == e.gridOffset + k * e.gridStride;
      }
      if k :| d.frames == e.gridOffset + k * e.gridStride { assert d.frames - e.gridOffset == k * e.gridStride; }
      CanvasBoundsTheArea(e, d.width, d.height);
    }
  }

  lemma Multiple(n: int, k: int)
    requires k > 0
    ensures n % k == 0 <==> exists q :: n == q * k
  {
    if n % k == 0 { assert n == (n / k) * k; }
    if q :| n == q * k { Remainder(q, k); }
  }

  lemma Remainder(q: int, k: int)
    requires k > 0
    ensures (q * k) % k == 0
  {
    var r := (q * k) % k;
    var d := q * k / k;
    assert q * k == d * k + r;
    assert (q - d) * k == r;
    SmallMultiple(q - d, k);
  }

  lemma SmallMultiple(a: int, k: int)
    requires k > 0
    ensures a * k >= k || a * k <= -k || a == 0
  {
    if a >= 1 { assert a * k >= k; }
    if a <= -1 { assert a * k <= -k; }
  }

  /** What is reported of an accepted request: each of its two departures by itself. */
  lemma MeasuredExactly(e: Range, d: Dimensions)
    ensures e.Measure(d).shortEdgeBelow <==> d.width < e.shortEdge || d.height < e.shortEdge
    ensures e.Measure(d).framesBelow <==> d.frames < e.minFrames
    ensures e.Measure(d).Inside() <==> d.width >= e.shortEdge && d.height >= e.shortEdge && d.frames >= e.minFrames
  {
  }

  /** A request that names only a height gets the long edge as its width, so it passes the
      canvas bound exactly when the height is no more than the short edge, although a taller
      portrait canvas is supported when the width is named too. */
  lemma LoneHeightIsReadAsLandscape(e: Range, data: Payload, height: int)
    requires Given(data, "width").None? && Given(data, "height") == Some(height)
    ensures e.WithinCanvas(Filled(e, data).width, Filled(e, data).height)
            <==> height <= e.shortEdge
    ensures e.shortEdge < height <= e.longEdge ==> e.WithinCanvas(e.shortEdge, height)
  {
  }

  /** A request that names only a width keeps the trained orientation and always may. */
  lemma LoneWidthAlwaysFits(e: Range, data: Payload, width: int)
    requires Given(data, "height").None? && Given(data, "width") == Some(width)
    ensures e.WithinCanvas(Filled(e, data).width, Filled(e, data).height) <==> width <= e.longEdge
  {
  }

  const MINIMAX_H3: TrainedRange := TrainedRange("minimax-h3-t2v-int8-20260809", 768, 1344, 124, 362, 17, 5, 32)

  /** The registered range is constructible, and its frame ceiling is itself on the grid. */
  lemma RegisteredRangeDefines()
    ensures MINIMAX_H3.Defect().None? && MINIMAX_H3.OnFrameGrid(MINIMAX_H3.maxFrames)
    ensures Checked(MINIMAX_H3, Dimensions(1344, 768, 124)) == Ok(Dimensions(1344, 768, 124))
  {
  }
}

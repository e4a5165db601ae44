/** vsfieldkit/repair.py: `fill_analog_frame_ends` re-creates the half-blanked first and
    last lines of analog captures. The model covers the parameter arithmetic (per-plane
    fill and continue sizes, radius padding, the chroma-aligned repair height), the
    crop-and-stack geometry that decides which pixels are replaced, the choice between the
    field and frame repairs, and the per-plane loop of the EdgeFixer adapter. Pixels are
    not computed: a picture is a map from positions to the (clip, position) they come from. */
module Repair {
  import opened Wrappers
  import opened Host
  import opened Arith

  datatype RepairError =
    | InvalidCrop              // std.Crop refuses negative margins or an empty result
    | StackMismatch            // std.Stack* refuses clips whose sizes do not line up
    | UnknownFieldPosition     // `replacement_by_position[f.props._Field]` has no entry
    | MissingPlaneArgument     // an EdgeFixer argument tuple indexed past its end
    | OddFieldHeight           // std.SeparateFields refuses a frame of odd height

  // ---------------------------------------------------------------------
  // Per-plane sizes (repair.py:42-77).

  /** How many of the clip's chroma rows one chroma row of the original format spans. */
  function OrigColorSampleEquiv(subsamplingH: nat, originalSubsamplingH: nat): (e: nat)
    ensures e >= 1
  {
    var q := Pow2(originalSubsamplingH) / Pow2(subsamplingH);
    if q >= 1 then q else 1
  }

  /** The equivalence is the ratio of the two vertical subsampling factors when the
      original was subsampled more, and 1 otherwise. */
  lemma OrigColorSampleEquivRatio(subsamplingH: nat, originalSubsamplingH: nat)
    ensures originalSubsamplingH >= subsamplingH ==>
      OrigColorSampleEquiv(subsamplingH, originalSubsamplingH) == Pow2(originalSubsamplingH - subsamplingH)
    ensures originalSubsamplingH <= subsamplingH ==> OrigColorSampleEquiv(subsamplingH, originalSubsamplingH) == 1
  {
    var p := Pow2(originalSubsamplingH);
    var c := Pow2(subsamplingH);
    if originalSubsamplingH >= subsamplingH {
      var d := originalSubsamplingH - subsamplingH;
      Pow2Split(d, subsamplingH);
      assert p == Pow2(d) * c;
      MultipleMod(Pow2(d), c);
      assert p / c == Pow2(d);
      if d == 0 {
        assert Pow2(d) == 1;
      }
    } else {
      var d := subsamplingH - originalSubsamplingH;
      Pow2Split(d, originalSubsamplingH);
      assert c == Pow2(d) * p;
      assert Pow2(d) >= 2 by { assert Pow2(d) == 2 * Pow2(d - 1); }
      MulMonotone(2, Pow2(d), p);
      assert c >= 2 * p;
      DivBelow(p, c);
      assert p / c == 0;
    }
  }

  datatype EdgeSizes = EdgeSizes(fill: seq<int>, continued: seq<int>)

  /** `fill_sizes` and `continue_sizes`: rows filled by FillBorders and rows re-created by
      the continuity filter, per plane. */
  function SizesFor(family: ColorFamily, numPlanes: nat, lumaSplashRadius: int, e: nat): (r: EdgeSizes)
    requires e >= 1
    ensures |r.fill| == |r.continued| == (if family == YUV then 3 else numPlanes)
    ensures forall i :: 0 <= i < |r.fill| ==> r.fill[i] >= 1
    ensures lumaSplashRadius >= 0 ==> forall i :: 0 <= i < |r.fill| ==> r.continued[i] >= r.fill[i]
    ensures forall i :: 0 <= i < |r.continued| ==> r.continued[i] >= 1 + lumaSplashRadius || family == YUV
    ensures family == YUV ==> r.fill[0] == 1 && r.continued[0] == 1 + lumaSplashRadius
    ensures family == YUV ==> r.fill[1..] == r.continued[1..] == [e, e]
    ensures family == Gray ==> forall i :: 0 <= i < |r.fill| ==> r.fill[i] == 1 && r.continued[i] == 1 + lumaSplashRadius
    ensures family != YUV && family != Gray ==> forall i :: 0 <= i < |r.fill| ==> r.fill[i] == e
  {
    var damage := 1 + lumaSplashRadius;
    if family == YUV then EdgeSizes([1, e, e], [damage, e, e])
    else if family == Gray then EdgeSizes(seq(numPlanes, _ => 1), seq(numPlanes, _ => damage))
    else EdgeSizes(seq(numPlanes, _ => e), seq(numPlanes, _ => if damage >= e then damage else e))
  }

  /** `xs + xs[-1:] * (num_planes - len(xs))`: extends a per-plane tuple to every plane by
      repeating its last entry. */
  function PadToPlanes(xs: seq<int>, numPlanes: nat): (r: seq<int>)
    ensures |xs| == 0 ==> r == []
    ensures |xs| >= 1 ==> |r| == (if numPlanes > |xs| then numPlanes else |xs|)
    ensures |xs| <= |r| && r[..|xs|] == xs
    ensures forall i :: |xs| <= i < |r| ==> r[i] == xs[|xs| - 1]
  {
    if |xs| == 0 || numPlanes <= |xs| then xs
    else xs + seq(numPlanes - |xs|, _ => xs[|xs| - 1])
  }

  /** Padding is idempotent: a padded tuple already covers every plane. */
  lemma PadToPlanesIdempotent(xs: seq<int>, numPlanes: nat)
    ensures PadToPlanes(PadToPlanes(xs, numPlanes), numPlanes) == PadToPlanes(xs, numPlanes)
  {
  }

  /** Entry i of a padded tuple is the given entry i, or the last given one past its end. */
  lemma PadToPlanesEntry(xs: seq<int>, numPlanes: nat, i: nat)
    requires |xs| >= 1 && i < numPlanes
    ensures i < |PadToPlanes(xs, numPlanes)|
    ensures PadToPlanes(xs, numPlanes)[i] == if i < |xs| then xs[i] else xs[|xs| - 1]
  {
  }

  /** `continuity_radius`: a single int or a tuple. */
  datatype RadiusArg = RadiusInt(radius: int) | RadiusTuple(radii: seq<int>)

  function ExpandRadius(arg: RadiusArg, numPlanes: nat): (r: seq<int>)
    ensures arg.RadiusInt? ==> (|r| == (if numPlanes > 1 then numPlanes else 1)
                                && forall i :: 0 <= i < |r| ==> r[i] == arg.radius)
    ensures arg.RadiusTuple? ==> r == PadToPlanes(arg.radii, numPlanes)
  {
    match arg
    case RadiusInt(i) => PadToPlanes([i], numPlanes)
    case RadiusTuple(s) => PadToPlanes(s, numPlanes)
  }

  // ---------------------------------------------------------------------
  // The repair height (repair.py:238-245).

  /** `x & ~(2**k - 1)`, bit by bit: the low k bits cleared. */
  function ClearLowBits(x: nat, k: nat): nat
    decreases k
  {
    if k == 0 then x else 2 * ClearLowBits(x / 2, k - 1)
  }

  /** Clearing the low k bits rounds down to a multiple of 2**k. */
  lemma {:induction false} ClearLowBitsRoundsDown(x: nat, k: nat)
    ensures ClearLowBits(x, k) % Pow2(k) == 0
    ensures x - Pow2(k) < ClearLowBits(x, k) <= x
    decreases k
  {
    if k > 0 {
      var p := Pow2(k - 1);
      assert Pow2(k) == 2 * p;
      ClearLowBitsRoundsDown(x / 2, k - 1);
      var c := ClearLowBits(x / 2, k - 1);
      assert ClearLowBits(x, k) == 2 * c;
      DoubledMultiple(c, p);
      DoubledBounds(x, c, p);
    }
  }

  /** Doubling a multiple of p gives a multiple of 2p. */
  lemma DoubledMultiple(c: nat, p: nat)
    requires p > 0 && c % p == 0
    ensures (2 * c) % (2 * p) == 0
  {
    var q := c / p;
    assert c == q * p;
    assert 2 * c == q * (2 * p);
    MultipleMod(q, 2 * p);
  }

  /** Doubling a value within p below x / 2 gives a value within 2p below x. */
  lemma DoubledBounds(x: nat, c: nat, p: nat)
    requires x / 2 - p < c <= x / 2
    ensures x - 2 * p < 2 * c <= x
  {
    assert 2 * (x / 2) <= x < 2 * (x / 2) + 2;
  }

  /** `repair_height`: enough rows for the continued luma and for one chroma sample of the
      original format, rounded up to a whole chroma row of the clip. */
  function RepairHeight(subsamplingH: nat, colorSampleHeight: nat, continuedLuma: int): (h: nat)
    requires colorSampleHeight >= 1
    ensures h % Pow2(subsamplingH) == 0
    ensures h >= colorSampleHeight * Pow2(subsamplingH) && h >= continuedLuma
    ensures h < (if continuedLuma > colorSampleHeight * Pow2(subsamplingH) then continuedLuma
                 else colorSampleHeight * Pow2(subsamplingH)) + Pow2(subsamplingH)
  {
    var c := Pow2(subsamplingH);
    assert colorSampleHeight * c >= c;
    var needed := if continuedLuma > colorSampleHeight * c then continuedLuma else colorSampleHeight * c;
    ClearLowBitsRoundsDown(needed + (c - 1), subsamplingH);
    ClearLowBits(needed + (c - 1), subsamplingH)
  }

  // ---------------------------------------------------------------------
  // Crop-and-stack geometry (repair.py:86-135, 246-277).

  /** The clips a repaired picture is assembled from: the input, and the input continued
      into its top or its bottom blanking. All three have the input's size. */
  datatype Source = Original | TopContinued | BottomContinued

  /** Which clip, at which position, a pixel of an assembled picture comes from. */
  datatype Pixel = Pixel(source: Source, x: int, y: int)

  datatype Picture = Picture(width: int, height: int, at: (int, int) -> Pixel)

  /** A clip's own picture: every pixel at its own position. */
  function Whole(source: Source, width: int, height: int): (p: Picture)
    ensures p.width == width && p.height == height
    ensures forall x, y :: p.at(x, y) == Pixel(source, x, y)
  {
    Picture(width, height, (x, y) => Pixel(source, x, y))
  }

  /** `std.Crop(left, right, top, bottom)`. */
  function Crop(p: Picture, left: int, right: int, top: int, bottom: int): (r: Result<Picture, RepairError>)
    ensures r.Err? <==> (left < 0 || right < 0 || top < 0 || bottom < 0
                         || p.width - left - right <= 0 || p.height - top - bottom <= 0)
    ensures r.Ok? ==> r.value.width == p.width - left - right && r.value.height == p.height - top - bottom
    ensures r.Ok? ==> forall x, y :: r.value.at(x, y) == p.at(x + left, y + top)
  {
    if left < 0 || right < 0 || top < 0 || bottom < 0 || p.width - left - right <= 0 || p.height - top - bottom <= 0
    then Err(InvalidCrop)
    else
      var at := p.at;
      Ok(Picture(p.width - left - right, p.height - top - bottom, (x, y) => at(x + left, y + top)))
  }

  /** `std.StackHorizontal((a, b))`: b to the right of a. */
  function StackHorizontal(a: Picture, b: Picture): (r: Result<Picture, RepairError>)
    ensures r.Err? <==> a.height != b.height
    ensures r.Ok? ==> r.value.width == a.width + b.width && r.value.height == a.height
    ensures r.Ok? ==> forall x, y :: r.value.at(x, y) == if x < a.width then a.at(x, y) else b.at(x - a.width, y)
  {
    if a.height != b.height then Err(StackMismatch)
    else
      var aw, aa, ba := a.width, a.at, b.at;
      Ok(Picture(a.width + b.width, a.height, (x, y) => if x < aw then aa(x, y) else ba(x - aw, y)))
  }

  /** `std.StackVertical((a, b))`: b below a. */
  function StackVertical(a: Picture, b: Picture): (r: Result<Picture, RepairError>)
    ensures r.Err? <==> a.width != b.width
    ensures r.Ok? ==> r.value.width == a.width && r.value.height == a.height + b.height
    ensures r.Ok? ==> forall x, y :: r.value.at(x, y) == if y < a.height then a.at(x, y) else b.at(x, y - a.height)
  {
    if a.width != b.width then Err(StackMismatch)
    else
      var ah, aa, ba := a.height, a.at, b.at;
      Ok(Picture(a.width, a.height + b.height, (x, y) => if y < ah then aa(x, y) else ba(x, y - ah)))
  }

  /** `std.SeparateFields(tff=True)` on one frame: the field from the top holds the even
      rows and the field from the bottom the odd rows, each the frame's width and half its
      height. */
  function SeparateFields(p: Picture, fromTop: bool): (r: Result<Picture, RepairError>)
    ensures r.Err? <==> p.height % 2 != 0
    ensures r.Ok? ==> r.value.width == p.width && 2 * r.value.height == p.height
    ensures r.Ok? ==> forall x, y :: r.value.at(x, y) == p.at(x, 2 * y + (if fromTop then 0 else 1))
  {
    if p.height % 2 != 0 then Err(OddFieldHeight)
    else
      var at, parity := p.at, if fromTop then 0 else 1;
      Ok(Picture(p.width, p.height / 2, (x, y) => at(x, 2 * y + parity)))
  }

  /** The two fields of a frame of even height share out its rows: row y of the frame is
      row y / 2 of the field from the top when y is even, of the field from the bottom when
      it is odd. */
  lemma SeparatedRows(p: Picture, x: int, y: int)
    requires p.height % 2 == 0 && 0 <= y < p.height
    ensures var f := SeparateFields(p, y % 2 == 0).value;
      && 0 <= y / 2 < f.height
      && f.at(x, y / 2) == p.at(x, y)
  {
    var f := SeparateFields(p, y % 2 == 0).value;
    assert 2 * (y / 2) + (if y % 2 == 0 then 0 else 1) == y;
  }

  /** `_repaired_frame_edges`: the top `repairHeight` rows with the first `topBlank`
      columns continued, and the bottom rows with the last `bottomBlank` columns continued;
      a zero blank width gives plain original rows. */
  function RepairedEdges(width: int, height: int, topBlank: int, bottomBlank: int, repairHeight: int)
    : (r: Result<(Picture, Picture), RepairError>)
  {
    var clip := Whole(Original, width, height);
    var top :- if topBlank != 0 then
        var origTopRight :- Crop(clip, topBlank, 0, 0, height - repairHeight);
        var repairedTopLeft :- Crop(Whole(TopContinued, width, height), 0, width - topBlank, 0, height - repairHeight);
        StackHorizontal(repairedTopLeft, origTopRight)
      else Crop(clip, 0, 0, 0, height - repairHeight);
    var bottom :- if bottomBlank != 0 then
        var origBottomLeft :- Crop(clip, 0, bottomBlank, height - repairHeight, 0);
        var repairedBottomRight :- Crop(Whole(BottomContinued, width, height), width - bottomBlank, 0, height - repairHeight, 0);
        StackHorizontal(origBottomLeft, repairedBottomRight)
      else Crop(clip, 0, 0, height - repairHeight, 0);
    Ok((top, bottom))
  }

  /** When the blank widths are zero or inside the picture and the repair height fits, the
      edges are full-width strips `repairHeight` tall in which exactly the blanked columns
      come from the continued clips, every pixel at its own position. */
  lemma RepairedEdgesLayout(width: int, height: int, topBlank: int, bottomBlank: int, repairHeight: int)
    requires width > 0 && 0 < repairHeight <= height
    requires 0 <= topBlank < width && 0 <= bottomBlank < width
    ensures RepairedEdges(width, height, topBlank, bottomBlank, repairHeight).Ok?
    ensures var (top, bottom) := RepairedEdges(width, height, topBlank, bottomBlank, repairHeight).value;
      && top.width == width && top.height == repairHeight
      && bottom.width == width && bottom.height == repairHeight
      && (forall x, y :: 0 <= x < width ==>
            top.at(x, y) == Pixel(if x < topBlank then TopContinued else Original, x, y))
      && (forall x, y :: 0 <= x < width ==>
            bottom.at(x, y) == Pixel(if x >= width - bottomBlank then BottomContinued else Original,
                                     x, y + height - repairHeight))
  {
  }

  /** The edges fail exactly when the repair height does not fit the picture or a non-zero
      blank width leaves no column on one side. */
  lemma RepairedEdgesFail(width: int, height: int, topBlank: int, bottomBlank: int, repairHeight: int)
    requires width > 0 && height > 0
    ensures RepairedEdges(width, height, topBlank, bottomBlank, repairHeight).Err? <==>
      || !(0 < repairHeight <= height)
      || (topBlank != 0 && !(0 < topBlank < width))
      || (bottomBlank != 0 && !(0 < bottomBlank < width))
  {
  }

  /** The repaired picture: the top edge stacked over the rest when `top` is asked for and
      the top blank width is non-zero, then the bottom edge stacked under the rest likewise.
      The progressive repair asks for both; a field asks for the edge at its own position. */
  function Reassemble(width: int, height: int, topBlank: int, bottomBlank: int, repairHeight: int,
                      top: bool, bottom: bool): (r: Result<Picture, RepairError>)
  {
    var edges :- RepairedEdges(width, height, topBlank, bottomBlank, repairHeight);
    var clip := Whole(Original, width, height);
    var withTop :- if top && topBlank != 0 then
        var rest :- Crop(clip, 0, 0, edges.0.height, 0);
        StackVertical(edges.0, rest)
      else Ok(clip);
    if bottom && bottomBlank != 0 then
      var rest :- Crop(withTop, 0, 0, 0, edges.1.height);
      StackVertical(rest, edges.1)
    else Ok(withTop)
  }

  /** Where each pixel of a repaired picture comes from: the bottom edge's rows when the
      bottom is repaired (continued in the last `bottomBlank` columns), else the top edge's
      continued columns when the top is repaired, else the original. */
  function RepairedPixel(width: int, height: int, topBlank: int, bottomBlank: int, repairHeight: int,
                         top: bool, bottom: bool, x: int, y: int): Pixel
  {
    if bottom && bottomBlank != 0 && y >= height - repairHeight then
      Pixel(if x >= width - bottomBlank then BottomContinued else Original, x, y)
    else if top && topBlank != 0 && y < repairHeight && x < topBlank then Pixel(TopContinued, x, y)
    else Pixel(Original, x, y)
  }

  /** Repair keeps the picture's size, replaces only the blanked corner regions, and takes
      every pixel from the same position of the clip it comes from. */
  lemma {:induction false} ReassembledPixels(width: int, height: int, topBlank: int, bottomBlank: int,
                                             repairHeight: int, top: bool, bottom: bool)
    requires width > 0 && 0 < repairHeight < height
    requires 0 <= topBlank < width && 0 <= bottomBlank < width
    ensures Reassemble(width, height, topBlank, bottomBlank, repairHeight, top, bottom).Ok?
    ensures var p := Reassemble(width, height, topBlank, bottomBlank, repairHeight, top, bottom).value;
      && p.width == width && p.height == height
      && forall x, y :: 0 <= x < width && 0 <= y < height ==>
           p.at(x, y) == RepairedPixel(width, height, topBlank, bottomBlank, repairHeight, top, bottom, x, y)
  {
    RepairedEdgesLayout(width, height, topBlank, bottomBlank, repairHeight);
  }

  // ---------------------------------------------------------------------
  // Choosing the repaired clip (repair.py:79-82, 136-165).

  /** Which continuity filter is used: EdgeFixer whenever it is installed. */
  datatype Continuer = EdgeFixer | ContinuityFixer

  function ChooseContinuer(hasEdgefixer: bool): (c: Continuer)
    ensures c == EdgeFixer <==> hasEdgefixer
  {
    if hasEdgefixer then EdgeFixer else ContinuityFixer
  }

  /** The repaired field a separated field takes: the top-edge repair for a field from the
      top of the frame, the bottom-edge repair for one from the bottom. */
  datatype EdgePosition = TopEdge | BottomEdge

  function FieldRepairFor(props: Props): (r: Result<EdgePosition, RepairError>)
    ensures r == Ok(TopEdge) <==> IntPropOf(props, "_Field") == Some(FieldFromTop)
    ensures r == Ok(BottomEdge) <==> IntPropOf(props, "_Field") == Some(FieldFromBottom)
    ensures r.Err? ==> r.error == UnknownFieldPosition
  {
    match IntPropOf(props, "_Field")
    case Some(v) =>
      if v == FieldFromTop then Ok(TopEdge)
      else if v == FieldFromBottom then Ok(BottomEdge)
      else Err(UnknownFieldPosition)
    case None => Err(UnknownFieldPosition)
  }

  /** A separated field's repair touches only the edge at its own position. */
  function RepairedField(width: int, fieldHeight: int, topBlank: int, bottomBlank: int, repairHeight: int,
                         position: EdgePosition): Result<Picture, RepairError>
  {
    Reassemble(width, fieldHeight, topBlank, bottomBlank, repairHeight, position == TopEdge, position == BottomEdge)
  }

  lemma RepairedFieldEdges(width: int, fieldHeight: int, topBlank: int, bottomBlank: int, repairHeight: int,
                           position: EdgePosition, x: int, y: int)
    requires width > 0 && 0 < repairHeight < fieldHeight
    requires 0 <= topBlank < width && 0 <= bottomBlank < width
    requires 0 <= x < width && 0 <= y < fieldHeight
    ensures RepairedField(width, fieldHeight, topBlank, bottomBlank, repairHeight, position).Ok?
    ensures var p := RepairedField(width, fieldHeight, topBlank, bottomBlank, repairHeight, position).value;
      && (position == TopEdge ==> p.at(x, y).source != BottomContinued)
      && (position == BottomEdge ==> p.at(x, y).source != TopContinued)
      && (p.at(x, y).source != Original ==>
            if position == TopEdge then y < repairHeight && x < topBlank
            else y >= fieldHeight - repairHeight && x >= width - bottomBlank)
  {
    ReassembledPixels(width, fieldHeight, topBlank, bottomBlank, repairHeight,
                      position == TopEdge, position == BottomEdge);
  }

  /** Whole frames: the re-woven field repair for frames flagged as interlaced, the
      progressive repair for any other `_FieldBased`, including none. */
  datatype FrameRepair = InterlacedRepair | ProgressiveRepair

  function FrameRepairFor(props: Props): (r: FrameRepair)
    ensures r == InterlacedRepair <==>
      IntPropOf(props, "_FieldBased") == Some(FieldTop) || IntPropOf(props, "_FieldBased") == Some(FieldBottom)
  {
    match IntPropOf(props, "_FieldBased")
    case Some(v) => if v == FieldTop || v == FieldBottom then InterlacedRepair else ProgressiveRepair
    case None => ProgressiveRepair
  }

  // ---------------------------------------------------------------------
  // The EdgeFixer adapter (repair.py:281-310).

  /** What happens to one plane: left alone, or continued with the given margins. */
  datatype PlaneFix = PassThrough | Continuity(left: int, top: int, right: int, bottom: int, radius: int)

  function PlaneFixFor(left: int, top: int, right: int, bottom: int, radius: int): (f: PlaneFix)
    ensures f == PassThrough <==> left == 0 && top == 0 && right == 0 && bottom == 0 && radius == 0
  {
    if left != 0 || top != 0 || right != 0 || bottom != 0 || radius != 0 then Continuity(left, top, right, bottom, radius)
    else PassThrough
  }

  /** `_continue_edge_with_edgefixer`: pads each argument tuple to the plane count, then
      decides plane by plane. An empty tuple has nothing to repeat, so indexing it for the
      first plane fails. */
  method ContinueEdgeWithEdgefixer(numPlanes: nat, left: seq<int>, top: seq<int>, right: seq<int>,
                                   bottom: seq<int>, radius: seq<int>)
    returns (r: Result<seq<PlaneFix>, RepairError>)
    ensures r.Err? <==> numPlanes >= 1 && (|left| == 0 || |top| == 0 || |right| == 0 || |bottom| == 0 || |radius| == 0)
    ensures r.Ok? ==> |r.value| == numPlanes
    ensures r.Ok? ==> forall n :: 0 <= n < numPlanes ==>
      r.value[n] == PlaneFixFor(PadToPlanes(left, numPlanes)[n], PadToPlanes(top, numPlanes)[n],
                                PadToPlanes(right, numPlanes)[n], PadToPlanes(bottom, numPlanes)[n],
                                PadToPlanes(radius, numPlanes)[n])
  {
    if numPlanes >= 1 && (|left| == 0 || |top| == 0 || |right| == 0 || |bottom| == 0 || |radius| == 0) {
      return Err(MissingPlaneArgument);
    }
    var l, t, rt, b, rad := PadToPlanes(left, numPlanes), PadToPlanes(top, numPlanes),
      PadToPlanes(right, numPlanes), PadToPlanes(bottom, numPlanes), PadToPlanes(radius, numPlanes);
    assert numPlanes <= |l| && numPlanes <= |t| && numPlanes <= |rt| && numPlanes <= |b| && numPlanes <= |rad|;
    var fixed: seq<PlaneFix> := [];
    for n := 0 to numPlanes
      invariant |fixed| == n
      invariant forall k :: 0 <= k < n ==> fixed[k] == PlaneFixFor(l[k], t[k], rt[k], b[k], rad[k])
    {
      if l[n] != 0 || t[n] != 0 || rt[n] != 0 || b[n] != 0 || rad[n] != 0 {
        fixed := fixed + [Continuity(l[n], t[n], rt[n], b[n], rad[n])];
      } else {
        fixed := fixed + [PassThrough];
      }
    }
    return Ok(fixed);
  }

  // ---------------------------------------------------------------------
  // The whole plan (repair.py:16-108).

  datatype RepairPlan = RepairPlan(sizes: EdgeSizes, radius: seq<int>, continuer: Continuer, repairHeight: nat)

  /** The parameters `fill_analog_frame_ends` derives before building its graph. */
  function PlanRepair(format: VideoFormat, originalFormat: VideoFormat, continuityRadius: RadiusArg,
                      lumaSplashRadius: int, hasEdgefixer: bool): (p: RepairPlan)
  {
    var e := OrigColorSampleEquiv(format.subsamplingH, originalFormat.subsamplingH);
    var sizes := SizesFor(format.colorFamily, format.numPlanes, lumaSplashRadius, e);
    var luma := if |sizes.continued| > 0 then sizes.continued[0] else 0;
    RepairPlan(sizes, ExpandRadius(continuityRadius, format.numPlanes), ChooseContinuer(hasEdgefixer),
               RepairHeight(format.subsamplingH, e, luma))
  }

  /** The repair strip covers the re-created luma rows and a whole chroma sample of the
      original format, is a whole number of the clip's chroma rows, and is less than one
      chroma row taller than that; the radius covers every plane. */
  lemma PlanRepairCovers(format: VideoFormat, originalFormat: VideoFormat, continuityRadius: RadiusArg,
                         lumaSplashRadius: int, hasEdgefixer: bool)
    requires ValidFormat(format)
    requires continuityRadius.RadiusTuple? ==> |continuityRadius.radii| >= 1
    ensures var p := PlanRepair(format, originalFormat, continuityRadius, lumaSplashRadius, hasEdgefixer);
      var c := Pow2(format.subsamplingH);
      var e := OrigColorSampleEquiv(format.subsamplingH, originalFormat.subsamplingH);
      && p.repairHeight >= p.sizes.continued[0]
      && p.repairHeight >= e * c
      && p.repairHeight % c == 0
      && p.repairHeight < (if p.sizes.continued[0] > e * c then p.sizes.continued[0] else e * c) + c
      && |p.radius| >= format.numPlanes
  {
  }
}

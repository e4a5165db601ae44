/** vsfieldkit/util.py: the metadata helpers. Frames are their property maps;
    clips are sequences of them. */
module Util {
  import opened Wrappers
  import opened Strings
  import opened Host

  datatype UtilError =
    | AssertionFailed                           // a Python `assert` that does not hold
    | FieldOrderUnknown                         // field order neither in the frame nor given
    | NotAFieldBased(value: Option<PropValue>)  // FieldBased(value) on a value it does not name
    | UnknownField(field: PropValue)            // a `_Field` value with no entry in field_shifts
    | PluginError(message: string)              // vapoursynth.Error from the plugin checks

  // ---------------------------------------------------------------------
  // group_by_combed / group_by_field_order (util.py:89-134).

  /** `last_combed` / `last_order`: the `...` sentinel before the first frame, then a
      frame's property value (None when the frame lacks it). */
  datatype RunValue = Sentinel | Seen(value: Option<PropValue>)

  /** A yielded pair: the value and the slice clip[start:end]. */
  datatype Run = Run(value: RunValue, start: nat, end: nat)

  /** A run of frames that all carry the run's value. */
  predicate ValidRun(values: seq<Option<PropValue>>, r: Run) {
    && r.start < r.end <= |values|
    && r.value == Seen(values[r.start])
    && forall m :: r.start <= m < r.end ==> values[m] == values[r.start]
  }

  /** The runs cut [0, upto) into contiguous, non-empty, constant pieces, and neighbouring
      runs carry different values. */
  predicate Segmented(values: seq<Option<PropValue>>, runs: seq<Run>, upto: nat) {
    && (|runs| == 0 ==> upto == 0)
    && (|runs| > 0 ==> runs[0].start == 0 && runs[|runs| - 1].end == upto)
    && (forall i :: 0 <= i < |runs| ==> ValidRun(values, runs[i]))
    && (forall i :: 0 <= i < |runs| - 1 ==> runs[i].end == runs[i + 1].start)
    && (forall i :: 0 <= i < |runs| - 1 ==> runs[i].value != runs[i + 1].value)
  }

  /** The grouping loop shared by both generators: a run is yielded whenever the value
      changes, and the last run after the loop. */
  method GroupRuns(values: seq<Option<PropValue>>) returns (runs: seq<Run>)
    ensures |values| == 0 ==> runs == [Run(Sentinel, 0, 0)]
    ensures |values| > 0 ==> |runs| >= 1 && Segmented(values, runs, |values|)
  {
    var last := Sentinel;
    var lastChange := 0;
    runs := [];
    for n := 0 to |values|
      invariant n == 0 ==> last == Sentinel && lastChange == 0 && runs == []
      invariant n > 0 ==> last == Seen(values[n - 1]) && lastChange < n
      invariant n > 0 ==> forall m :: lastChange <= m < n ==> values[m] == values[n - 1]
      invariant Segmented(values, runs, lastChange)
      invariant n > 0 && |runs| > 0 ==> runs[|runs| - 1].value != Seen(values[lastChange])
    {
      var current := Seen(values[n]);
      if current != last {
        if last != Sentinel {
          SegmentedExtend(values, runs, Run(last, lastChange, n));
          runs := runs + [Run(last, lastChange, n)];
          lastChange := n;
        }
        last := current;
      }
    }
    if |values| > 0 {
      SegmentedExtend(values, runs, Run(last, lastChange, |values|));
    }
    runs := runs + [Run(last, lastChange, |values|)];
  }

  /** Appending a valid run that starts where the segmentation ends, with a value
      different from the last run's, extends the segmentation to the run's end. */
  lemma SegmentedExtend(values: seq<Option<PropValue>>, runs: seq<Run>, r: Run)
    requires Segmented(values, runs, r.start) && ValidRun(values, r)
    requires |runs| > 0 ==> runs[|runs| - 1].value != r.value
    ensures Segmented(values, runs + [r], r.end)
  {
    var ext := runs + [r];
    assert ext[|ext| - 1] == r;
    assert forall i :: 0 <= i < |runs| ==> ext[i] == runs[i];
  }

  /** `group_by_combed`: runs of the `_Combed` property. */
  method GroupByCombed(clip: seq<Props>) returns (runs: seq<Run>)
    ensures |clip| == 0 ==> runs == [Run(Sentinel, 0, 0)]
    ensures |clip| > 0 ==> |runs| >= 1 && Segmented(PropValues(clip, "_Combed"), runs, |clip|)
  {
    runs := GroupRuns(PropValues(clip, "_Combed"));
  }

  /** The values one property takes across the clip's frames, None where it is absent. */
  function PropValues(clip: seq<Props>, key: string): (values: seq<Option<PropValue>>)
    ensures |values| == |clip|
    ensures forall n :: 0 <= n < |clip| ==> values[n] == PropOf(clip[n], key)
  {
    seq(|clip|, n requires 0 <= n < |clip| => PropOf(clip[n], key))
  }

  /** A run of `group_by_field_order`: None, or a FieldBased member's value. */
  datatype OrderRun = OrderRun(order: Option<int>, start: nat, end: nat)

  predicate IsFieldBased(v: int) {
    v == FieldProgressive || v == FieldBottom || v == FieldTop
  }

  /** `None if last_order is None else FieldBased(last_order)`. */
  function FieldOrderOf(value: RunValue): Result<Option<int>, UtilError> {
    match value
    case Sentinel => Err(NotAFieldBased(None))
    case Seen(None) => Ok(None)
    case Seen(Some(v)) => if v.IntProp? && IsFieldBased(v.i) then Ok(Some(v.i)) else Err(NotAFieldBased(Some(v)))
  }

  /** Converting the runs in the order they are yielded: the generator stops at the first
      run whose value FieldBased rejects, after yielding all runs before it. */
  method ConvertOrderRuns(runs: seq<Run>) returns (yielded: seq<OrderRun>, failure: Option<UtilError>)
    ensures |yielded| <= |runs|
    ensures forall i :: 0 <= i < |yielded| ==>
      FieldOrderOf(runs[i].value) == Ok(yielded[i].order) && yielded[i].start == runs[i].start && yielded[i].end == runs[i].end
    ensures failure.None? <==> |yielded| == |runs|
    ensures failure.Some? ==> FieldOrderOf(runs[|yielded|].value) == Err(failure.value)
  {
    yielded := [];
    for i := 0 to |runs|
      invariant |yielded| == i
      invariant forall j :: 0 <= j < i ==>
        FieldOrderOf(runs[j].value) == Ok(yielded[j].order) && yielded[j].start == runs[j].start && yielded[j].end == runs[j].end
    {
      var order := FieldOrderOf(runs[i].value);
      if order.Err? {
        return yielded, Some(order.error);
      }
      yielded := yielded + [OrderRun(order.value, runs[i].start, runs[i].end)];
    }
    return yielded, None;
  }

  /** The runs yielded so far: they start at frame 0 and follow each other without gaps,
      neighbours differ, and each run's frames all carry its field order. */
  predicate OrderPrefix(values: seq<Option<PropValue>>, yielded: seq<OrderRun>) {
    && (|yielded| > 0 ==> yielded[0].start == 0)
    && (forall i :: 0 <= i < |yielded| ==> yielded[i].start < yielded[i].end <= |values|)
    && (forall i :: 0 <= i < |yielded| - 1 ==> yielded[i].end == yielded[i + 1].start)
    && (forall i :: 0 <= i < |yielded| - 1 ==> yielded[i].order != yielded[i + 1].order)
    && (forall i, m :: 0 <= i < |yielded| && yielded[i].start <= m < yielded[i].end <= |values| ==>
          FieldOrderOf(Seen(values[m])) == Ok(yielded[i].order))
  }

  /** The first frame after the yielded runs. */
  function PrefixEnd(yielded: seq<OrderRun>): nat {
    if |yielded| == 0 then 0 else yielded[|yielded| - 1].end
  }

  /** The shape of a completed `group_by_field_order`: the runs cover the whole clip. */
  predicate OrderSegmented(values: seq<Option<PropValue>>, yielded: seq<OrderRun>) {
    |yielded| >= 1 && OrderPrefix(values, yielded) && PrefixEnd(yielded) == |values|
  }

  /** `group_by_field_order`: the runs it yields, and the error that ends it early. On an
      empty clip the sentinel reaches FieldBased and the generator fails at once. When it
      fails on a non-empty clip, the runs before the failure have been yielded and the
      frame right after them is the first whose value FieldBased rejects. */
  method GroupByFieldOrder(clip: seq<Props>) returns (yielded: seq<OrderRun>, failure: Option<UtilError>)
    ensures |clip| == 0 ==> yielded == [] && failure == Some(NotAFieldBased(None))
    ensures |clip| > 0 && failure.None? ==> OrderSegmented(PropValues(clip, "_FieldBased"), yielded)
    ensures |clip| > 0 ==> (failure.None? <==> forall n :: 0 <= n < |clip| ==> FieldOrderOf(Seen(PropOf(clip[n], "_FieldBased"))).Ok?)
    ensures |clip| > 0 && failure.Some? ==>
      && OrderPrefix(PropValues(clip, "_FieldBased"), yielded)
      && PrefixEnd(yielded) < |clip|
      && FieldOrderOf(Seen(PropOf(clip[PrefixEnd(yielded)], "_FieldBased"))) == Err(failure.value)
  {
    var values := PropValues(clip, "_FieldBased");
    var runs := GroupRuns(values);
    yielded, failure := ConvertOrderRuns(runs);
    if |clip| == 0 {
      assert FieldOrderOf(runs[0].value).Err?;
    }
    if |clip| > 0 {
      ConvertedRunsPrefix(values, runs, yielded);
      ConvertedRunsStop(values, runs, yielded);
      RunsCoverValues(values, runs);
    }
  }

  /** Converted runs keep the segmentation's shape up to where the conversion stopped. */
  lemma ConvertedRunsPrefix(values: seq<Option<PropValue>>, runs: seq<Run>, yielded: seq<OrderRun>)
    requires |runs| >= 1 && Segmented(values, runs, |values|)
    requires |yielded| <= |runs|
    requires forall i :: 0 <= i < |yielded| ==>
      FieldOrderOf(runs[i].value) == Ok(yielded[i].order) && yielded[i].start == runs[i].start && yielded[i].end == runs[i].end
    ensures OrderPrefix(values, yielded)
  {
    forall i | 0 <= i < |yielded|
      ensures yielded[i].start < yielded[i].end <= |values|
      ensures forall m :: yielded[i].start <= m < yielded[i].end ==> FieldOrderOf(Seen(values[m])) == Ok(yielded[i].order)
    {
      ConvertedRunAt(values, runs[i], yielded[i]);
    }
    forall i | 0 <= i < |yielded| - 1 ensures yielded[i].order != yielded[i + 1].order {
      ConvertedRunAt(values, runs[i], yielded[i]);
      ConvertedRunAt(values, runs[i + 1], yielded[i + 1]);
    }
  }

  /** Where the converted runs stop: at the clip's end when every run converted, otherwise
      on the first frame of the run that did not, which carries that run's value. */
  lemma ConvertedRunsStop(values: seq<Option<PropValue>>, runs: seq<Run>, yielded: seq<OrderRun>)
    requires |runs| >= 1 && Segmented(values, runs, |values|)
    requires |yielded| <= |runs|
    requires forall i :: 0 <= i < |yielded| ==> yielded[i].start == runs[i].start && yielded[i].end == runs[i].end
    ensures |yielded| == |runs| ==> PrefixEnd(yielded) == |values|
    ensures |yielded| < |runs| ==>
      PrefixEnd(yielded) < |values| && runs[|yielded|].value == Seen(values[PrefixEnd(yielded)])
  {
    if |yielded| < |runs| {
      NextRunStart(values, runs, |yielded|);
    }
  }

  /** One converted run: within the clip, and every frame of it carries its field order. */
  lemma ConvertedRunAt(values: seq<Option<PropValue>>, run: Run, y: OrderRun)
    requires ValidRun(values, run)
    requires FieldOrderOf(run.value) == Ok(y.order) && y.start == run.start && y.end == run.end
    ensures y.start < y.end <= |values|
    ensures forall m :: y.start <= m < y.end ==> FieldOrderOf(Seen(values[m])) == Ok(y.order)
    ensures run.value == Seen(values[y.start])
  {
  }

  /** Run k of a segmentation starts where run k - 1 ends (at 0 for the first), on a frame
      that carries its value. */
  lemma NextRunStart(values: seq<Option<PropValue>>, runs: seq<Run>, k: nat)
    requires Segmented(values, runs, |values|) && k < |runs|
    ensures runs[k].start == (if k == 0 then 0 else runs[k - 1].end)
    ensures runs[k].start < |values| && runs[k].value == Seen(values[runs[k].start])
  {
    assert ValidRun(values, runs[k]);
    if k > 0 {
      assert runs[k - 1].end == runs[k].start;
    }
  }

  /** Every frame's value is some run's value, and every run's value some frame's, so the
      conversion fails on a run exactly when it fails on a frame. */
  lemma RunsCoverValues(values: seq<Option<PropValue>>, runs: seq<Run>)
    requires |runs| >= 1 && Segmented(values, runs, |values|)
    ensures (forall i :: 0 <= i < |runs| ==> FieldOrderOf(runs[i].value).Ok?) <==>
      (forall n :: 0 <= n < |values| ==> FieldOrderOf(Seen(values[n])).Ok?)
  {
    if forall i :: 0 <= i < |runs| ==> FieldOrderOf(runs[i].value).Ok? {
      forall n | 0 <= n < |values| ensures FieldOrderOf(Seen(values[n])).Ok? {
        var i := RunOf(values, runs, n);
        assert ValidRun(values, runs[i]);
      }
    }
    if forall n :: 0 <= n < |values| ==> FieldOrderOf(Seen(values[n])).Ok? {
      forall i | 0 <= i < |runs| ensures FieldOrderOf(runs[i].value).Ok? {
        assert ValidRun(values, runs[i]);
      }
    }
  }

  /** The run a frame lies in. */
  lemma {:induction false} RunOf(values: seq<Option<PropValue>>, runs: seq<Run>, n: nat) returns (i: nat)
    requires |runs| >= 1 && Segmented(values, runs, |values|)
    requires n < |values|
    ensures i < |runs| && runs[i].start <= n < runs[i].end
    decreases |runs|
  {
    var k := |runs| - 1;
    if n >= runs[k].start {
      i := k;
    } else {
      var init := runs[..k];
      var cut := runs[k].start;
      assert Segmented(values[..cut], init, cut) by {
        forall j | 0 <= j < |init| ensures ValidRun(values[..cut], init[j]) {
          assert ValidRun(values, runs[j]);
          if j < k - 1 {
            RunEndsBefore(values, runs, j);
          }
        }
      }
      i := RunOf(values[..cut], init, n);
    }
  }

  lemma {:induction false} RunEndsBefore(values: seq<Option<PropValue>>, runs: seq<Run>, i: nat)
    requires |runs| >= 1 && Segmented(values, runs, |values|)
    requires i < |runs| - 1
    ensures runs[i].end <= runs[|runs| - 1].start
    decreases |runs| - 1 - i
  {
    if i + 1 < |runs| - 1 {
      RunEndsBefore(values, runs, i + 1);
      assert ValidRun(values, runs[i + 1]);
    }
  }

  // ---------------------------------------------------------------------
  // copy_specific_frame_props (util.py:399-417).

  /** The property map a frame ends with: every listed key the source has is copied, every
      listed key the source lacks is gone, and every other key is as it was. */
  function CopiedProps(frame: Props, src: Props, keys: seq<string>): Props {
    map k | k in frame.Keys + src.Keys && ((k in keys && k in src) || (k !in keys && k in frame)) :: if k in keys then src[k] else frame[k]
  }

  lemma CopiedPropsMeaning(frame: Props, src: Props, keys: seq<string>, k: string)
    ensures k in keys && k in src ==> k in CopiedProps(frame, src, keys) && CopiedProps(frame, src, keys)[k] == src[k]
    ensures k in keys && k !in src ==> k !in CopiedProps(frame, src, keys)
    ensures k !in keys ==> (k in CopiedProps(frame, src, keys) <==> k in frame)
    ensures k !in keys && k in frame ==> CopiedProps(frame, src, keys)[k] == frame[k]
  {
  }

  /** `copy`: the per-frame loop over the listed keys. */
  method CopyFrameProps(frame: Props, src: Props, keys: seq<string>) returns (newProps: Props)
    ensures newProps == CopiedProps(frame, src, keys)
  {
    newProps := frame;
    for i := 0 to |keys|
      invariant forall k :: k in keys[..i] && k in src ==> k in newProps && newProps[k] == src[k]
      invariant forall k :: k in keys[..i] && k !in src ==> k !in newProps
      invariant forall k :: k !in keys[..i] ==> (k in newProps <==> k in frame) && (k in frame ==> newProps[k] == frame[k])
    {
      var prop := keys[i];
      assert keys[..i + 1] == keys[..i] + [prop];
      if prop in src {
        newProps := newProps[prop := src[prop]];
      } else if prop in newProps {
        newProps := newProps - {prop};
      }
    }
    assert keys[..|keys|] == keys;
    var copied := CopiedProps(frame, src, keys);
    assert newProps.Keys == copied.Keys;
    assert forall k :: k in newProps ==> newProps[k] == copied[k];
  }

  /** With no keys listed, a frame keeps its properties. */
  lemma CopiedNoKeys(clip: seq<Props>, propSrc: seq<Props>)
    requires |propSrc| > 0
    ensures forall n :: 0 <= n < |clip| ==>
      CopiedProps(clip[n], propSrc[if n < |propSrc| then n else |propSrc| - 1], []) == clip[n]
  {
    forall n | 0 <= n < |clip|
      ensures CopiedProps(clip[n], propSrc[if n < |propSrc| then n else |propSrc| - 1], []) == clip[n]
    {
      var c := CopiedProps(clip[n], propSrc[if n < |propSrc| then n else |propSrc| - 1], []);
      assert c.Keys == clip[n].Keys;
    }
  }

  /** The clip-level call: an empty key list leaves the clip as it is; otherwise frame n
      takes its listed keys from the property source's frame n, or from its last frame when
      the property source is shorter. */
  function CopySpecificFrameProps(clip: seq<Props>, propSrc: seq<Props>, keys: seq<string>): (r: seq<Props>)
    requires |propSrc| > 0
    ensures |keys| == 0 ==> r == clip
    ensures |r| == |clip|
    ensures forall n :: 0 <= n < |clip| ==>
      r[n] == CopiedProps(clip[n], propSrc[if n < |propSrc| then n else |propSrc| - 1], keys)
  {
    if |keys| == 0 then CopiedNoKeys(clip, propSrc); clip
    else seq(|clip|, n requires 0 <= n < |clip| =>
               CopiedProps(clip[n], propSrc[if n < |propSrc| then n else |propSrc| - 1], keys))
  }

  /** With keys, the result differs from the clip only at listed keys. */
  lemma CopyOnlyListedKeys(clip: seq<Props>, propSrc: seq<Props>, keys: seq<string>, n: nat, k: string)
    requires |propSrc| > 0 && n < |clip| && k !in keys
    ensures (k in CopySpecificFrameProps(clip, propSrc, keys)[n] <==> k in clip[n])
    ensures k in clip[n] ==> CopySpecificFrameProps(clip, propSrc, keys)[n][k] == clip[n][k]
  {
  }

  // ---------------------------------------------------------------------
  // convert_format_if_needed (util.py:137-180), as the decision it makes.

  const FormatIntrinsics: seq<string> :=
    ["color_family", "sample_type", "subsampling_w", "subsampling_h", "bits_per_sample"]

  /** The keyword values the model distinguishes. */
  datatype ArgValue = IntArg(i: int) | StrArg(s: string) | FormatArg(spec: map<string, int>) | OtherArg

  /** `{attr: getattr(format, attr) for attr in FORMAT_INTRINSICS}`. */
  function SpecOf(f: VideoFormat): (spec: map<string, int>)
    ensures spec.Keys == set k | k in FormatIntrinsics
  {
    map["color_family" := ColorFamilyId(f.colorFamily),
        "sample_type" := SampleTypeId(f.sampleType),
        "subsampling_w" := f.subsamplingW,
        "subsampling_h" := f.subsamplingH,
        "bits_per_sample" := f.bitsPerSample]
  }

  /** Keyword arguments as Python passes them: `format`, `kernel` and `dither_type` are
      named parameters, and format intrinsics are integers. */
  predicate WellFormedKwargs(kwargs: map<string, ArgValue>) {
    && "format" !in kwargs && "kernel" !in kwargs && "dither_type" !in kwargs
    && forall k :: k in kwargs && k in FormatIntrinsics ==> kwargs[k].IntArg?
  }

  function IntrinsicKwargs(kwargs: map<string, ArgValue>): map<string, int>
    requires WellFormedKwargs(kwargs)
  {
    map k | k in kwargs && k in FormatIntrinsics :: kwargs[k].i
  }

  function ResizeKwargs(kwargs: map<string, ArgValue>): map<string, ArgValue> {
    map k | k in kwargs && k !in FormatIntrinsics :: kwargs[k]
  }

  /** `target_fmt_specs`: the clip's spec, overridden by `format`, then by the intrinsic
      keywords. */
  function TargetSpec(current: VideoFormat, format: Option<VideoFormat>, kwargs: map<string, ArgValue>): map<string, int>
    requires WellFormedKwargs(kwargs)
  {
    (if format.Some? then SpecOf(current) + SpecOf(format.value) else SpecOf(current)) + IntrinsicKwargs(kwargs)
  }

  /** Each intrinsic takes the keyword's value if given, else the requested format's, else
      the clip's own. */
  lemma TargetSpecPriority(current: VideoFormat, format: Option<VideoFormat>, kwargs: map<string, ArgValue>, k: string)
    requires WellFormedKwargs(kwargs) && k in FormatIntrinsics
    ensures k in TargetSpec(current, format, kwargs)
    ensures k in kwargs ==> TargetSpec(current, format, kwargs)[k] == kwargs[k].i
    ensures k !in kwargs && format.Some? ==> TargetSpec(current, format, kwargs)[k] == SpecOf(format.value)[k]
    ensures k !in kwargs && format.None? ==> TargetSpec(current, format, kwargs)[k] == SpecOf(current)[k]
  {
  }

  /** What the call does: return the clip as it is, or call the kernel with these arguments. */
  datatype Conversion = Unchanged | Resize(args: map<string, ArgValue>)

  /** The decision `convert_format_if_needed` takes. */
  method ConvertFormatIfNeeded(current: VideoFormat, format: Option<VideoFormat>, ditherType: Option<string>,
                               kwargs: map<string, ArgValue>)
    returns (c: Conversion)
    requires WellFormedKwargs(kwargs)
    ensures c.Unchanged? <==> ResizeKwargs(kwargs) == map[] && TargetSpec(current, format, kwargs) == SpecOf(current)
    ensures c.Resize? ==> ("format" in c.args <==> TargetSpec(current, format, kwargs) != SpecOf(current))
    ensures c.Resize? && "format" in c.args ==> c.args["format"] == FormatArg(TargetSpec(current, format, kwargs))
    ensures c.Resize? ==> forall k :: k in kwargs && k !in FormatIntrinsics ==> k in c.args && c.args[k] == kwargs[k]
    ensures c.Resize? ==> ("dither_type" in c.args <==>
      ditherType.Some? && ditherType.value != "none" && TargetSpec(current, format, kwargs)["bits_per_sample"] < 16)
    ensures c.Resize? && "dither_type" in c.args ==> c.args["dither_type"] == StrArg(ditherType.value)
    ensures c.Resize? ==> forall k :: k in c.args ==> k in kwargs || k == "format" || k == "dither_type"
  {
    var existing := SpecOf(current);
    var target := existing;
    if format.Some? {
      target := target + SpecOf(format.value);
    }
    target := target + IntrinsicKwargs(kwargs);
    var resizeArgs := ResizeKwargs(kwargs);
    assert target == TargetSpec(current, format, kwargs);
    if target != existing {
      resizeArgs := resizeArgs["format" := FormatArg(target)];
      assert "format" in resizeArgs;
    }
    if resizeArgs == map[] {
      return Unchanged;
    }
    assert "bits_per_sample" in target;
    if ditherType.Some? && ditherType.value != "none" && target["bits_per_sample"] < 16 {
      resizeArgs := resizeArgs["dither_type" := StrArg(ditherType.value)];
    }
    return Resize(resizeArgs);
  }

  /** Asking only for `subsampling_h=0` changes the clip exactly when its chroma is
      vertically subsampled, and the new format differs only in that. */
  lemma VerticalUpsampleDecision(current: VideoFormat)
    ensures TargetSpec(current, None, map["subsampling_h" := IntArg(0)]) == SpecOf(current)
      <==> current.subsamplingH == 0
    ensures TargetSpec(current, None, map["subsampling_h" := IntArg(0)])
      == SpecOf(current.(subsamplingH := 0))
  {
    var kw := map["subsampling_h" := IntArg(0)];
    assert IntrinsicKwargs(kw) == map["subsampling_h" := 0];
    var t := TargetSpec(current, None, kw);
    assert t == SpecOf(current) + map["subsampling_h" := 0];
    assert t == SpecOf(current.(subsamplingH := 0));
    if current.subsamplingH != 0 {
      assert t["subsampling_h"] != SpecOf(current)["subsampling_h"];
    }
  }

  // ---------------------------------------------------------------------
  // black_clip_from_clip and brighten levels (util.py:183-239).

  predicate IsLimited(colorRange: Option<int>) {
    colorRange == Some(RangeLimited)
  }

  /** The luma (or first plane) black level. */
  function LumaBlack(f: VideoFormat, colorRange: Option<int>): real {
    if f.sampleType == Integer && IsLimited(colorRange) then 16.0 * (Pow2(f.bitsPerSample) as real) / 256.0 else 0.0
  }

  /** The neutral chroma level. */
  function ChromaBlack(f: VideoFormat): real
    requires f.bitsPerSample >= 1
  {
    if f.sampleType == Integer then Pow2(f.bitsPerSample - 1) as real else 0.5
  }

  /** `black_planes`, built by appends: luma, then chroma for YUV, then the last value
      repeated up to the plane count. */
  method BlackPlanes(f: VideoFormat, colorRange: Option<int>) returns (planes: seq<real>)
    requires ValidFormat(f)
    ensures |planes| == f.numPlanes
    ensures planes[0] == LumaBlack(f, colorRange)
    ensures f.colorFamily == YUV ==> forall i :: 1 <= i < |planes| ==> planes[i] == ChromaBlack(f)
    ensures f.colorFamily != YUV ==> forall i :: 0 <= i < |planes| ==> planes[i] == planes[0]
  {
    planes := [];
    if f.sampleType == Integer && IsLimited(colorRange) {
      var floorMultiplier := (Pow2(f.bitsPerSample) as real) / 256.0;
      planes := planes + [16.0 * floorMultiplier];
    } else {
      planes := planes + [0.0];
    }
    if f.colorFamily == YUV {
      planes := planes + [if f.sampleType == Integer then Pow2(f.bitsPerSample - 1) as real else 0.5];
    }
    var fill := f.numPlanes - |planes|;
    planes := planes + seq(if fill > 0 then fill else 0, _ => planes[|planes| - 1]);
  }

  /** `max_val` in brighten. */
  function BrightenCeiling(f: VideoFormat, colorRange: Option<int>): real {
    if f.sampleType == Integer then
      if IsLimited(colorRange) then 235.0 * (Pow2(f.bitsPerSample) as real) / 256.0
      else (Pow2(f.bitsPerSample) - 1) as real
    else 1.0
  }

  /** The planes brighten's expression applies to: luma only for YUV (the empty expression
      copies the chroma planes), every plane otherwise. */
  function BrightenedPlanes(f: VideoFormat): (planes: seq<nat>)
    ensures f.colorFamily == YUV ==> planes == [0]
    ensures f.colorFamily != YUV ==> |planes| == f.numPlanes && forall i :: 0 <= i < |planes| ==> planes[i] == i
  {
    if f.colorFamily == YUV then [0] else seq(f.numPlanes, i requires 0 <= i < f.numPlanes => i)
  }

  /** For integer formats the limited-range levels are whole numbers: black is 2^(bits-4)
      and the ceiling 235 * 2^(bits-8), so 16 and 235 at 8 bits and 64 and 940 at 10. */
  lemma {:induction false} LimitedLevels(f: VideoFormat)
    requires ValidFormat(f) && f.sampleType == Integer
    ensures LumaBlack(f, Some(RangeLimited)) == Pow2(f.bitsPerSample - 4) as real
    ensures BrightenCeiling(f, Some(RangeLimited)) == (235 * Pow2(f.bitsPerSample - 8)) as real
  {
    var b := f.bitsPerSample;
    LimitedBlack(b);
    LimitedCeiling(b);
  }

  lemma LimitedBlack(b: nat)
    requires b >= 8
    ensures 16.0 * (Pow2(b) as real) / 256.0 == Pow2(b - 4) as real
  {
    var p := Pow2(b - 4);
    Pow2Split(b - 4, 4);
    assert Pow2(4) == 16;
    assert Pow2(b) == p * 16;
    assert (Pow2(b) as real) == (p as real) * 16.0;
  }

  lemma LimitedCeiling(b: nat)
    requires b >= 8
    ensures 235.0 * (Pow2(b) as real) / 256.0 == (235 * Pow2(b - 8)) as real
  {
    var p := Pow2(b - 8);
    Pow2Split(b - 8, 8);
    assert Pow2(8) == 256;
    assert Pow2(b) == p * 256;
    assert (Pow2(b) as real) == (p as real) * 256.0;
    assert (235 * p) as real == 235.0 * (p as real);
  }

  /** Black always lies below the brighten ceiling, so brightening never clips black. */
  lemma BlackBelowCeiling(f: VideoFormat, colorRange: Option<int>)
    requires ValidFormat(f)
    ensures LumaBlack(f, colorRange) < BrightenCeiling(f, colorRange)
  {
    if f.sampleType == Integer && !IsLimited(colorRange) {
      Pow2Split(f.bitsPerSample - 1, 1);
    }
  }

  // ---------------------------------------------------------------------
  // require_plugins / require_one_of (util.py:250-273).

  /** A (namespace, name) pair as the checks receive it. */
  datatype Plugin = Plugin(namespace: string, name: string)

  /** `f'{plugin_namespace} ({plugin_name})'`. */
  function Describe(p: Plugin): string {
    p.namespace + " (" + p.name + ")"
  }

  /** The descriptions of the plugins whose namespace the core lacks, in order. */
  function MissingDescriptions(plugins: seq<Plugin>, available: set<string>): (missing: seq<string>)
    ensures |missing| <= |plugins|
    ensures |missing| == 0 <==> forall i :: 0 <= i < |plugins| ==> plugins[i].namespace in available
    decreases |plugins|
  {
    if |plugins| == 0 then []
    else
      var rest := MissingDescriptions(plugins[..|plugins| - 1], available);
      var last := plugins[|plugins| - 1];
      assert forall i :: 0 <= i < |plugins| - 1 ==> plugins[..|plugins| - 1][i] == plugins[i];
      if last.namespace in available then rest else rest + [Describe(last)]
  }

  method RequirePlugins(plugins: seq<Plugin>, available: set<string>) returns (r: Result<(), UtilError>)
    ensures r.Err? <==> exists i :: 0 <= i < |plugins| && plugins[i].namespace !in available
    ensures r.Err? ==> r.error == PluginError("Missing required plugin(s): " + Join(MissingDescriptions(plugins, available), ','))
  {
    var missing := [];
    for i := 0 to |plugins|
      invariant missing == MissingDescriptions(plugins[..i], available)
    {
      assert plugins[..i + 1][..i] == plugins[..i];
      if plugins[i].namespace !in available {
        missing := missing + [Describe(plugins[i])];
      }
    }
    assert plugins[..|plugins|] == plugins;
    if |missing| > 0 {
      return Err(PluginError("Missing required plugin(s): " + Join(missing, ',')));
    }
    return Ok(());
  }

  /** The for/else: stop at the first available namespace; raise only when none is. */
  method RequireOneOf(plugins: seq<Plugin>, available: set<string>) returns (r: Result<(), UtilError>)
    ensures r.Err? <==> forall i :: 0 <= i < |plugins| ==> plugins[i].namespace !in available
    ensures r.Err? ==> r.error == PluginError("Requires any one of these plugins: " + Join(MissingDescriptions(plugins, available), ','))
  {
    var missing := [];
    for i := 0 to |plugins|
      invariant missing == MissingDescriptions(plugins[..i], available)
      invariant forall j :: 0 <= j < i ==> plugins[j].namespace !in available
    {
      assert plugins[..i + 1][..i] == plugins[..i];
      if plugins[i].namespace in available {
        return Ok(());
      }
      missing := missing + [Describe(plugins[i])];
    }
    assert plugins[..|plugins|] == plugins;
    return Err(PluginError("Requires any one of these plugins: " + Join(missing, ',')));
  }

  // ---------------------------------------------------------------------
  // Chroma location remaps (util.py:17-21, 57-71, 292-303, 319-323, 343-354).

  /** `VERTICAL_CENTER_CHROMA_LOCS`: absent or left becomes top-left, center becomes top;
      None for a value that is not a key of the table. */
  function VerticalCenterChromaLoc(loc: Option<PropValue>): (r: Option<int>)
    ensures r.Some? <==> loc in {None, Some(IntProp(ChromaLeft)), Some(IntProp(ChromaCenter))}
    ensures r.Some? ==> r.value in {ChromaTopLeft, ChromaTop}
  {
    if loc == None || loc == Some(IntProp(ChromaLeft)) then Some(ChromaTopLeft)
    else if loc == Some(IntProp(ChromaCenter)) then Some(ChromaTop)
    else None
  }

  function ChromaLocationOf(props: Props): Option<PropValue> {
    PropOf(props, "_ChromaLocation")
  }

  /** `adjust_frame_chroma_loc` of assume_vertically_cosited_chroma: a frame whose location
      is absent, left or center is rewritten; any other frame is kept. */
  function AssumeVerticallyCositedChroma(props: Props): Props {
    match VerticalCenterChromaLoc(ChromaLocationOf(props))
    case Some(loc) => props["_ChromaLocation" := IntProp(loc)]
    case None => props
  }

  /** `revise_frame_props` of shift_chroma_to_luma_sited: only a present location is
      remapped (`.get(loc, loc)`). */
  function ReviseFrameProps(props: Props): Props {
    if "_ChromaLocation" in props then
      match VerticalCenterChromaLoc(ChromaLocationOf(props))
      case Some(loc) => props["_ChromaLocation" := IntProp(loc)]
      case None => props
    else props
  }

  /** After the remap the location is vertically co-sited (top-left or top) whenever it was
      absent, left or center; other locations and all other keys are untouched; and
      remapping again changes nothing. */
  lemma CositedRemapMeaning(props: Props)
    ensures var loc := ChromaLocationOf(props);
      (loc == None || loc == Some(IntProp(ChromaLeft))) ==>
        ChromaLocationOf(AssumeVerticallyCositedChroma(props)) == Some(IntProp(ChromaTopLeft))
    ensures ChromaLocationOf(props) == Some(IntProp(ChromaCenter)) ==>
      ChromaLocationOf(AssumeVerticallyCositedChroma(props)) == Some(IntProp(ChromaTop))
    ensures VerticalCenterChromaLoc(ChromaLocationOf(props)).None? ==> AssumeVerticallyCositedChroma(props) == props
    ensures forall k :: k != "_ChromaLocation" && k in props ==>
      k in AssumeVerticallyCositedChroma(props) && AssumeVerticallyCositedChroma(props)[k] == props[k]
    ensures AssumeVerticallyCositedChroma(AssumeVerticallyCositedChroma(props)) == AssumeVerticallyCositedChroma(props)
  {
  }

  /** The revision never adds the key, and only differs from the plain remap on frames
      that lack it. */
  lemma ReviseMeaning(props: Props)
    ensures "_ChromaLocation" in ReviseFrameProps(props) <==> "_ChromaLocation" in props
    ensures "_ChromaLocation" in props ==> ReviseFrameProps(props) == AssumeVerticallyCositedChroma(props)
    ensures "_ChromaLocation" !in props ==> ReviseFrameProps(props) == props
    ensures ReviseFrameProps(ReviseFrameProps(props)) == ReviseFrameProps(props)
  {
  }

  /** Which plane clip `shift_centered_chroma` returns. */
  datatype ShiftChoice = Unshifted | ShiftedAsTop | ShiftedAsBottom

  /** Frames with vertically centred chroma take the shift of their field (`field_shifts`,
      with an absent `_Field` read by tff); a `_Field` with no entry raises KeyError. */
  function ShiftCenteredChroma(props: Props, tff: bool): (r: Result<ShiftChoice, UtilError>)
    ensures VerticalCenterChromaLoc(ChromaLocationOf(props)).None? ==> r == Ok(Unshifted)
    ensures VerticalCenterChromaLoc(ChromaLocationOf(props)).Some? ==>
      (r.Err? <==> PropOf(props, "_Field") !in {None, Some(IntProp(FieldFromBottom)), Some(IntProp(FieldFromTop))})
  {
    if VerticalCenterChromaLoc(ChromaLocationOf(props)).Some? then
      match PropOf(props, "_Field")
      case None => Ok(if tff then ShiftedAsTop else ShiftedAsBottom)
      case Some(field) =>
        if field == IntProp(FieldFromBottom) then Ok(ShiftedAsBottom)
        else if field == IntProp(FieldFromTop) then Ok(ShiftedAsTop)
        else Err(UnknownField(field))
    else Ok(Unshifted)
  }

  /** On the fields SeparateFields made, a centred-chroma field is shifted as a top field
      exactly when it is the top field of its frame. */
  lemma ShiftFollowsFieldParity(props: Props, n: nat, tff: bool)
    requires VerticalCenterChromaLoc(ChromaLocationOf(props)).Some?
    requires PropOf(props, "_Field") == Some(IntProp(SeparatedFieldProp(n, tff)))
    ensures ShiftCenteredChroma(props, tff).Ok?
    ensures ShiftCenteredChroma(props, tff).value == ShiftedAsTop <==> ((n % 2 == 0) == tff)
  {
  }

  // ---------------------------------------------------------------------
  // assume_progressive (util.py:46-54).

  /** `SetFrameProp(prop='_FieldBased', intval=FIELD_PROGRESSIVE)` on every frame: the
      frames are marked progressive and nothing else about them changes. */
  function AssumeProgressive(clip: seq<Props>): (r: seq<Props>)
    ensures |r| == |clip|
    ensures forall n :: 0 <= n < |r| ==> IntPropOf(r[n], "_FieldBased") == Some(FieldProgressive)
    ensures forall n :: 0 <= n < |r| ==> r[n].Keys == clip[n].Keys + {"_FieldBased"}
    ensures forall n, key :: 0 <= n < |r| && key in clip[n] && key != "_FieldBased" ==> r[n][key] == clip[n][key]
  {
    seq(|clip|, n requires 0 <= n < |clip| => clip[n]["_FieldBased" := IntProp(FieldProgressive)])
  }

  /** Marking is idempotent: a clip already marked progressive is marked again unchanged. */
  lemma AssumeProgressiveIdempotent(clip: seq<Props>)
    ensures AssumeProgressive(AssumeProgressive(clip)) == AssumeProgressive(clip)
  {
    var once := AssumeProgressive(clip);
    var twice := AssumeProgressive(once);
    forall n | 0 <= n < |once| ensures twice[n] == once[n] {
      assert twice[n].Keys == once[n].Keys;
    }
  }

  // ---------------------------------------------------------------------
  // annotate_bobbed_fields (util.py:364-396).

  /** `tff_int`: from the original frame's `_FieldBased`, else from the argument. */
  function TffInt(fieldBased: Option<int>, tff: Option<bool>): Result<int, UtilError> {
    if fieldBased == Some(FieldTop) then Ok(1)
    else if fieldBased == Some(FieldBottom) then Ok(0)
    else if tff.None? then Err(FieldOrderUnknown)
    else Ok(if tff.value then 1 else 0)
  }

  /** `(n & 1) ^ tff_int` for tff_int in {0, 1}. */
  function ParityXor(n: nat, t: int): int
    requires t == 0 || t == 1
  {
    if n % 2 == t then 0 else 1
  }

  /** `annotate_frame`: the bobbed frame with `prop` set. */
  function AnnotateFrame(n: nat, bobbed: Props, original: Props, prop: string, tff: Option<bool>): (r: Result<Props, UtilError>)
    ensures r.Ok? <==> (IntPropOf(original, "_FieldBased") in {Some(FieldTop), Some(FieldBottom)} || tff.Some?)
    ensures r.Ok? ==> r.value.Keys == bobbed.Keys + {prop}
    ensures r.Ok? ==> forall k :: k in bobbed && k != prop ==> r.value[k] == bobbed[k]
  {
    match TffInt(IntPropOf(original, "_FieldBased"), tff)
    case Err(e) => Err(e)
    case Ok(t) => Ok(bobbed[prop := IntProp(ParityXor(n, t))])
  }

  /** The annotation is the `_Field` value SeparateFields gives the field frame n came
      from, under the original's field order. */
  lemma AnnotationIsSourceField(n: nat, bobbed: Props, original: Props, prop: string, tff: Option<bool>)
    requires AnnotateFrame(n, bobbed, original, prop, tff).Ok?
    ensures var fb := IntPropOf(original, "_FieldBased");
      var topFirst := fb == Some(FieldTop) || (fb != Some(FieldBottom) && tff == Some(true));
      AnnotateFrame(n, bobbed, original, prop, tff).value[prop] == IntProp(SeparatedFieldProp(n, topFirst))
  {
  }

  /** The whole call: the length assertion first, then each frame annotated against the
      original frame the doubled clip shows at n. */
  function AnnotateBobbedFields(clip: seq<Props>, original: seq<Props>, prop: string, tff: Option<bool>)
    : (r: Result<seq<Result<Props, UtilError>>, UtilError>)
    ensures r.Ok? <==> |clip| == 2 * |original|
    ensures r.Ok? ==> |r.value| == |clip|
    ensures r.Ok? ==> forall n :: 0 <= n < |clip| && n < |r.value| ==>
      r.value[n] == AnnotateFrame(n, clip[n], original[n / 2], prop, tff)
  {
    if |clip| != 2 * |original| then Err(AssertionFailed)
    else Ok(seq(|clip|, n requires 0 <= n < |clip| => AnnotateFrame(n, clip[n], original[n / 2], prop, tff)))
  }
}

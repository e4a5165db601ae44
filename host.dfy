/** The VapourSynth host, as far as the modelled code relies on it: the index
    semantics of the graph primitives (never their pixel output), the video
    format record and its enumerations, and frame properties.  None of this is
    code of the repository; it is the interface the repository is written
    against. */
module Host {
  import opened Wrappers
  import opened Arith

  // ---------------------------------------------------------------------
  // Enumerations, with VapourSynth's integer values.

  datatype ColorFamily = Undefined | Gray | RGB | YUV

  /** The integer VapourSynth stores for a colour family. */
  function ColorFamilyId(c: ColorFamily): int {
    match c
    case Undefined => 0
    case Gray => 1
    case RGB => 2
    case YUV => 3
  }

  datatype SampleType = Integer | Float

  function SampleTypeId(s: SampleType): int {
    match s
    case Integer => 0
    case Float => 1
  }

  /** `_FieldBased` values. */
  const FieldProgressive: int := 0
  const FieldBottom: int := 1
  const FieldTop: int := 2

  /** `_Field` values written by SeparateFields. */
  const FieldFromBottom: int := 0
  const FieldFromTop: int := 1

  /** `_ColorRange` values. */
  const RangeFull: int := 0
  const RangeLimited: int := 1

  /** `_ChromaLocation` values. */
  const ChromaLeft: int := 0
  const ChromaCenter: int := 1
  const ChromaTopLeft: int := 2
  const ChromaTop: int := 3

  // ---------------------------------------------------------------------
  // Video formats.

  datatype VideoFormat = VideoFormat(
    colorFamily: ColorFamily,
    sampleType: SampleType,
    bitsPerSample: nat,
    subsamplingW: nat,
    subsamplingH: nat,
    numPlanes: nat)

  /** What the host guarantees of every format it hands out. */
  predicate ValidFormat(f: VideoFormat) {
    && (f.sampleType == Integer ==> 8 <= f.bitsPerSample <= 32)
    && (f.sampleType == Float ==> f.bitsPerSample == 16 || f.bitsPerSample == 32)
    && f.subsamplingW <= 4 && f.subsamplingH <= 4
    && (f.colorFamily != YUV ==> f.subsamplingW == 0 && f.subsamplingH == 0)
    && f.numPlanes == (if f.colorFamily == Gray then 1 else 3)
  }

  // ---------------------------------------------------------------------
  // Frame properties and frames.

  datatype PropValue = IntProp(i: int) | OtherProp

  type Props = map<string, PropValue>

  /** A frame: a payload the model never looks into, and its properties. */
  datatype Frame<P> = Frame(pixels: P, props: Props)

  /** `props.get(key)`. */
  function PropOf(props: Props, key: string): Option<PropValue> {
    if key in props then Some(props[key]) else None
  }

  /** `props.get(key)` read as an integer; None when absent or not an integer. */
  function IntPropOf(props: Props, key: string): Option<int> {
    if key in props && props[key].IntProp? then Some(props[key].i) else None
  }

  // ---------------------------------------------------------------------
  // Graph primitives, by index.

  /** SeparateFields: frame k becomes fields 2k (its first field) and 2k + 1. */
  function FirstFieldOf(frame: nat): nat {
    2 * frame
  }

  /** The `_Field` value SeparateFields gives field n: the first field of each frame is the
      top field when the clip is top-field-first. */
  function SeparatedFieldProp(n: nat, tff: bool): int {
    if (n % 2 == 0) == tff then FieldFromTop else FieldFromBottom
  }

  // ---------------------------------------------------------------------
  // Clip frame rates, as the graph primitives report them.

  /** SeparateFields doubles the frame rate. */
  function SeparatedRate(fps: real): real {
    2.0 * fps
  }

  /** SelectEvery with `count` offsets per `cycle` frames scales the rate by count / cycle
      when `modify_duration` is set and keeps it otherwise. Python's `clip[::step]` is
      SelectEvery(step, [0]) with durations modified. DoubleWeave, trims, splices of clips
      of one rate, AssumeFPS onto such a clip, Interleave without `modify_duration` and the
      resizers all keep the rate. */
  function SelectEveryRate(fps: real, cycle: nat, count: nat, modifyDuration: bool): real
    requires cycle > 0
  {
    if modifyDuration then fps * (count as real) / (cycle as real) else fps
  }

  function Pow2(n: nat): (p: nat)
    ensures p >= 1
  {
    if n == 0 then 1 else 2 * Pow2(n - 1)
  }

  lemma {:induction false} Pow2Split(a: nat, b: nat)
    ensures Pow2(a + b) == Pow2(a) * Pow2(b)
    decreases b
  {
    if b > 0 {
      Pow2Split(a, b - 1);
      assert Pow2(a + b) == 2 * Pow2(a + b - 1);
    }
  }

  /** SelectEvery(cycle, offsets): output n is input (n / |offsets|) * cycle + offsets[n % |offsets|]. */
  function SelectEveryIndex(n: nat, cycle: nat, offsets: seq<nat>): nat
    requires |offsets| > 0
  {
    (n / |offsets|) * cycle + offsets[n % |offsets|]
  }

  /** The number of offsets that reach into the final, partial cycle of an input of length len. */
  function TailCount(offsets: seq<nat>, tail: nat): nat
    decreases |offsets|
  {
    if |offsets| == 0 then 0
    else (if offsets[|offsets| - 1] < tail then 1 else 0) + TailCount(offsets[..|offsets| - 1], tail)
  }

  /** SelectEvery's output length: every whole cycle gives |offsets| frames, the partial cycle
      one per offset that falls inside it. */
  function SelectEveryLength(len: nat, cycle: nat, offsets: seq<nat>): nat
    requires cycle > 0
  {
    (len / cycle) * |offsets| + TailCount(offsets, len % cycle)
  }

  /** The offsets that fall inside a partial cycle come first, so the partial cycle reads
      only frames that exist. */
  predicate TailPrefixClosed(offsets: seq<nat>, tail: nat) {
    forall i, j :: 0 <= i < j < |offsets| && offsets[j] < tail ==> offsets[i] < tail
  }

  lemma {:induction false} TailCountOfPrefixClosed(offsets: seq<nat>, tail: nat, k: nat)
    requires TailPrefixClosed(offsets, tail)
    requires k <= |offsets|
    requires forall i :: 0 <= i < k ==> offsets[i] < tail
    requires forall i :: k <= i < |offsets| ==> offsets[i] >= tail
    ensures TailCount(offsets, tail) == k
    decreases |offsets|
  {
    if |offsets| > 0 {
      var init := offsets[..|offsets| - 1];
      if k == |offsets| {
        TailCountOfPrefixClosed(init, tail, k - 1);
      } else {
        TailCountOfPrefixClosed(init, tail, k);
      }
    }
  }

  /** Below the count of offsets in the partial cycle, every offset is inside it. */
  lemma {:induction false} TailIndexInside(offsets: seq<nat>, tail: nat, i: nat)
    requires TailPrefixClosed(offsets, tail)
    requires i < TailCount(offsets, tail)
    ensures i < |offsets| && offsets[i] < tail
    decreases |offsets|
  {
    var init := offsets[..|offsets| - 1];
    assert TailPrefixClosed(init, tail);
    if offsets[|offsets| - 1] < tail {
      // then every offset is inside
      assert forall j :: 0 <= j < |offsets| ==> offsets[j] < tail;
      TailCountAtMost(offsets, tail);
    } else {
      TailIndexInside(init, tail, i);
    }
  }

  lemma {:induction false} TailCountAtMost(offsets: seq<nat>, tail: nat)
    ensures TailCount(offsets, tail) <= |offsets|
    decreases |offsets|
  {
    if |offsets| > 0 {
      TailCountAtMost(offsets[..|offsets| - 1], tail);
    }
  }

  /** SelectEvery as a sequence: its length is SelectEveryLength and it reads only existing frames. */
  function SelectEvery<T>(s: seq<T>, cycle: nat, offsets: seq<nat>): (r: seq<T>)
    requires cycle > 0 && |offsets| > 0
    requires forall i :: 0 <= i < |offsets| ==> offsets[i] < cycle
    requires TailPrefixClosed(offsets, |s| % cycle)
    ensures |r| == SelectEveryLength(|s|, cycle, offsets)
    ensures forall n :: 0 <= n < |r| ==> SelectEveryIndex(n, cycle, offsets) < |s|
    ensures forall n :: 0 <= n < |r| ==> r[n] == s[SelectEveryIndex(n, cycle, offsets)]
  {
    var len := SelectEveryLength(|s|, cycle, offsets);
    forall n | 0 <= n < len
      ensures SelectEveryIndex(n, cycle, offsets) < |s|
    {
      SelectEveryInRange(|s|, cycle, offsets, n);
    }
    seq(len, n requires 0 <= n < len => s[SelectEveryIndex(n, cycle, offsets)])
  }

  lemma SelectEveryInRange(len: nat, cycle: nat, offsets: seq<nat>, n: nat)
    requires cycle > 0 && |offsets| > 0
    requires forall i :: 0 <= i < |offsets| ==> offsets[i] < cycle
    requires TailPrefixClosed(offsets, len % cycle)
    requires n < SelectEveryLength(len, cycle, offsets)
    ensures SelectEveryIndex(n, cycle, offsets) < len
  {
    var k := |offsets|;
    var c, i := n / k, n % k;
    var whole, tail := len / cycle, len % cycle;
    assert SelectEveryIndex(n, cycle, offsets) == c * cycle + offsets[i];
    if c < whole {
      WholeCycleBound(c, whole, cycle, offsets[i], len, tail);
    } else {
      TailCountAtMost(offsets, tail);
      PartialCycle(n, k, whole, TailCount(offsets, tail), c, i);
      TailIndexInside(offsets, tail, i);
      TailCycleBound(whole, cycle, offsets[i], len, tail);
    }
  }

  /** The partial cycle reads below the clip's length. */
  lemma TailCycleBound(whole: nat, cycle: nat, offset: nat, len: nat, tail: nat)
    requires cycle > 0 && offset < tail && whole == len / cycle && tail == len % cycle
    ensures whole * cycle + offset < len
  {
    assert len == whole * cycle + tail;
  }

  /** A whole cycle before the last whole one reads below the clip's length. */
  lemma WholeCycleBound(c: nat, whole: nat, cycle: nat, offset: nat, len: nat, tail: nat)
    requires cycle > 0 && c < whole && offset < cycle && whole == len / cycle && tail == len % cycle
    ensures c * cycle + offset < len
  {
    assert len == whole * cycle + tail;
    MulMonotone(c + 1, whole, cycle);
    assert (c + 1) * cycle == c * cycle + cycle;
  }

  /** An output index past the whole cycles falls in the partial cycle, among its first
      t entries. */
  lemma PartialCycle(n: nat, k: nat, whole: nat, t: nat, c: nat, i: nat)
    requires k > 0 && t <= k && c == n / k && i == n % k && n < whole * k + t && c >= whole
    ensures c == whole && i < t
  {
    assert n == c * k + i;
    assert (whole + 1) * k == whole * k + k;
    MulCancel(c, whole + 1, k);
  }

  /** Interleave((a, b)): output n is a[n / 2] when n is even and b[n / 2] when it is odd. */
  function Interleave<T>(a: seq<T>, b: seq<T>): (r: seq<T>)
    requires |a| == |b|
    ensures |r| == 2 * |a|
    ensures forall n :: 0 <= n < |r| ==> r[n] == if n % 2 == 0 then a[n / 2] else b[n / 2]
  {
    seq(2 * |a|, n requires 0 <= n < 2 * |a| => if n % 2 == 0 then a[n / 2] else b[n / 2])
  }

  /** DoubleWeave()[::2] over an even number of fields: frame m weaves fields 2m and 2m + 1. */
  function WeavePairs<T>(fields: seq<T>): (frames: seq<(T, T)>)
    requires |fields| % 2 == 0
    ensures |frames| == |fields| / 2
    ensures forall m :: 0 <= m < |frames| ==> frames[m] == (fields[2 * m], fields[2 * m + 1])
  {
    seq(|fields| / 2, m requires 0 <= m < |fields| / 2 => (fields[2 * m], fields[2 * m + 1]))
  }
}

/** vsfieldkit/interlacing.py: spreading progressive frames over interlaced
    fields, either by a pulldown pattern ("2:3:2:3") or by a target frame
    rate, and optionally putting the exact progressive frame back wherever an
    output frame's two fields came from one source frame ("clean" frames).

    Fields are numbered as SeparateFields numbers them: source frame k gives
    fields 2k (its first field) and 2k + 1. */
module Interlacing {
  import opened Wrappers
  import opened Strings
  import opened Host
  import opened Arith
  import Types

  datatype InterlaceError =
    | PatternPartNotInteger(part: string)  // int() of a pattern part raised ValueError
    | PatternOrRateRequired                // neither pulldown_pattern nor fpsnum given
    | PairUnpack                           // an odd-length offsets list cannot be read in pairs
    | NoOffsets                            // SelectEvery refuses an empty offsets list
    | ZeroDivision                         // a Fraction with a zero denominator
    | FrameOutOfRange(n: int)              // get_frame(n) beyond the clip
    | MissingProp(key: string)             // props[key] on a frame that lacks it

  // ---------------------------------------------------------------------
  // Pattern parsing (interlacing.py:35-46).

  function Sum(s: seq<nat>): nat
    decreases |s|
  {
    if |s| == 0 then 0 else Sum(s[..|s| - 1]) + s[|s| - 1]
  }

  lemma {:induction false} SumConcat(a: seq<nat>, b: seq<nat>)
    ensures Sum(a + b) == Sum(a) + Sum(b)
    decreases |b|
  {
    if |b| > 0 {
      SumConcat(a, b[..|b| - 1]);
      assert (a + b)[..|a + b| - 1] == a + b[..|b| - 1];
    } else {
      assert a + b == a;
    }
  }

  /** Prefix sums never decrease. */
  lemma {:induction false} SumPrefixMono(p: seq<nat>, i: nat, j: nat)
    requires i <= j <= |p|
    ensures Sum(p[..i]) <= Sum(p[..j])
    decreases j - i
  {
    if i < j {
      SumPrefixMono(p, i, j - 1);
      assert p[..j][..j - 1] == p[..j - 1];
    }
  }

  /** `[int(d) for d in parts]`: the first part that is not an integer raises. */
  function ParseParts(parts: seq<string>): (r: Result<seq<nat>, InterlaceError>)
    ensures r.Ok? <==> forall i :: 0 <= i < |parts| ==> ParseNat(parts[i]).Some?
    ensures r.Ok? ==> |r.value| == |parts|
    ensures r.Ok? ==> forall i :: 0 <= i < |parts| ==> ParseNat(parts[i]) == Some(r.value[i])
    ensures r.Err? ==>
      exists i :: (0 <= i < |parts| && ParseNat(parts[i]).None?
                   && r.error == PatternPartNotInteger(parts[i])
                   && forall h :: 0 <= h < i ==> ParseNat(parts[h]).Some?)
    decreases |parts|
  {
    if |parts| == 0 then Ok([])
    else
      match ParseNat(parts[0])
      case None => Err(PatternPartNotInteger(parts[0]))
      case Some(d) =>
        match ParseParts(parts[1..])
        case Err(e) =>
          assert forall i :: 1 <= i < |parts| ==> parts[i] == parts[1..][i - 1];
          Err(e)
        case Ok(ds) =>
          assert forall i :: 1 <= i < |parts| ==> parts[i] == parts[1..][i - 1];
          Ok([d] + ds)
  }

  /** The pulldown pattern's field counts, `pattern.split(':')` parsed part by part. */
  function ParsePulldownPattern(pattern: string): Result<seq<nat>, InterlaceError> {
    ParseParts(Split(pattern, ':'))
  }

  /** The decimal text of each field count. */
  function PartTexts(durations: seq<nat>): (texts: seq<string>)
    ensures |texts| == |durations|
    ensures forall i :: 0 <= i < |durations| ==> texts[i] == NatToString(durations[i])
    decreases |durations|
  {
    if |durations| == 0 then [] else [NatToString(durations[0])] + PartTexts(durations[1..])
  }

  /** The textual form of a list of field counts, as the PulldownPattern values are written. */
  function FormatPattern(durations: seq<nat>): string {
    Join(PartTexts(durations), ':')
  }

  /** Parsing a formatted pattern gives back its field counts. */
  lemma ParseFormatPattern(durations: seq<nat>)
    requires |durations| >= 1
    ensures ParsePulldownPattern(FormatPattern(durations)) == Ok(durations)
  {
    var texts := PartTexts(durations);
    forall i | 0 <= i < |texts| ensures ':' !in texts[i] {
      assert IntToString(durations[i]) == texts[i];
    }
    SplitJoin(texts, ':');
    forall i | 0 <= i < |durations| ensures ParseNat(texts[i]) == Some(durations[i]) {
      ParseNatToString(durations[i]);
    }
    var r := ParsePulldownPattern(FormatPattern(durations));
    assert r.Ok?;
    assert r.value == durations;
  }

  /** `pattern_parts *= 2` when the pattern's field count is odd. */
  function EffectivePattern(parts: seq<nat>): seq<nat> {
    if Sum(parts) % 2 != 0 then parts + parts else parts
  }

  /** The effective pattern always spans an even number of fields, starts with the
      pattern as written and is it once or twice over. */
  lemma EffectivePatternEven(parts: seq<nat>)
    ensures Sum(EffectivePattern(parts)) % 2 == 0
    ensures EffectivePattern(parts)[..|parts|] == parts
    ensures Sum(parts) % 2 == 0 ==> EffectivePattern(parts) == parts
    ensures Sum(parts) % 2 != 0 ==> |EffectivePattern(parts)| == 2 * |parts|
    ensures Sum(parts) % 2 != 0 ==> Sum(EffectivePattern(parts)) == 2 * Sum(parts)
  {
    SumConcat(parts, parts);
  }

  // ---------------------------------------------------------------------
  // _pulldown_pattern_to_field_offsets (interlacing.py:107-123).

  /** The p-th value of `cycle((a, a + 1))`. */
  function CycleAt(a: nat, p: nat): nat {
    if p % 2 == 0 then a else a + 1
  }

  /** `islice(cycle((a, a + 1)), start, stop)`. */
  function CycleSlice(a: nat, start: nat, stop: nat): (s: seq<nat>)
    requires start <= stop
    ensures |s| == stop - start
    ensures forall j :: 0 <= j < |s| ==> s[j] == CycleAt(a, start + j)
    decreases stop - start
  {
    if start == stop then [] else [CycleAt(a, start)] + CycleSlice(a, start + 1, stop)
  }

  /** The field offsets of one pattern cycle: entry i of the pattern, a frame lasting
      d fields, contributes the next d values of its own field cycle (2i, 2i + 1),
      continuing from the field count lapsed before it. */
  function FieldOffsets(pattern: seq<nat>): (offsets: seq<nat>)
    ensures |offsets| == Sum(pattern)
    decreases |pattern|
  {
    if |pattern| == 0 then []
    else
      var init := pattern[..|pattern| - 1];
      FieldOffsets(init) + CycleSlice(2 * (|pattern| - 1), Sum(init), Sum(init) + pattern[|pattern| - 1])
  }

  /** The loop of `_pulldown_pattern_to_field_offsets`. */
  method PulldownPatternToFieldOffsets(pattern: seq<nat>) returns (offsets: seq<nat>)
    ensures offsets == FieldOffsets(pattern)
  {
    offsets := [];
    var lapsedDuration: nat := 0;
    var fieldIdx: nat := 0;
    var i := 0;
    while i < |pattern|
      invariant 0 <= i <= |pattern|
      invariant lapsedDuration == Sum(pattern[..i])
      invariant fieldIdx == 2 * i
      invariant offsets == FieldOffsets(pattern[..i])
    {
      var frameDuration := pattern[i];
      PrefixStep(pattern, i);
      offsets := offsets + CycleSlice(fieldIdx, lapsedDuration, lapsedDuration + frameDuration);
      lapsedDuration := lapsedDuration + frameDuration;
      fieldIdx := fieldIdx + 2;
      i := i + 1;
    }
    assert pattern[..|pattern|] == pattern;
  }

  /** One more pattern entry adds its duration to the sum and its slice to the offsets. */
  lemma PrefixStep(pattern: seq<nat>, i: nat)
    requires i < |pattern|
    ensures Sum(pattern[..i + 1]) == Sum(pattern[..i]) + pattern[i]
    ensures FieldOffsets(pattern[..i + 1])
      == FieldOffsets(pattern[..i]) + CycleSlice(2 * i, Sum(pattern[..i]), Sum(pattern[..i]) + pattern[i])
  {
    assert pattern[..i + 1][..i] == pattern[..i];
  }

  /** The pattern entry whose fields cover output field slot k. */
  function Owner(pattern: seq<nat>, k: nat): (i: nat)
    requires k < Sum(pattern)
    ensures i < |pattern|
    ensures Sum(pattern[..i]) <= k < Sum(pattern[..i + 1])
    decreases |pattern|
  {
    var init := pattern[..|pattern| - 1];
    assert pattern[..|pattern|] == pattern;
    if k >= Sum(init) then |pattern| - 1
    else
      var i := Owner(init, k);
      assert init[..i] == pattern[..i] && init[..i + 1] == pattern[..i + 1];
      i
  }

  /** Slot k of the offsets holds field 2i + (k mod 2) of entry i that covers it: the
      offsets list has one slot per field of the pattern, each entry's slots name only
      that entry's own two fields, and slots alternate first and second field. */
  lemma {:induction false} FieldOffsetsShape(pattern: seq<nat>)
    ensures |FieldOffsets(pattern)| == Sum(pattern)
    ensures forall k :: 0 <= k < Sum(pattern) ==>
      FieldOffsets(pattern)[k] == 2 * Owner(pattern, k) + k % 2
    decreases |pattern|
  {
    if |pattern| > 0 {
      var n := |pattern|;
      var init := pattern[..n - 1];
      FieldOffsetsShape(init);
      assert pattern[..n] == pattern;
      var last := CycleSlice(2 * (n - 1), Sum(init), Sum(init) + pattern[n - 1]);
      assert FieldOffsets(pattern) == FieldOffsets(init) + last;
      forall k | 0 <= k < Sum(pattern)
        ensures FieldOffsets(pattern)[k] == 2 * Owner(pattern, k) + k % 2
      {
        if k >= Sum(init) {
          assert Owner(pattern, k) == n - 1;
          assert FieldOffsets(pattern)[k] == last[k - Sum(init)];
        } else {
          assert Owner(pattern, k) == Owner(init, k);
          assert FieldOffsets(pattern)[k] == FieldOffsets(init)[k];
        }
      }
    }
  }

  /** Slot k holds a field of the parity of k, of a frame inside the pattern cycle, namely
      the frame of the entry that covers the slot. */
  lemma FieldOffsetAt(pattern: seq<nat>, k: nat)
    requires k < Sum(pattern)
    ensures FieldOffsets(pattern)[k] % 2 == k % 2
    ensures FieldOffsets(pattern)[k] / 2 == Owner(pattern, k)
    ensures FieldOffsets(pattern)[k] < 2 * |pattern|
  {
    FieldOffsetsShape(pattern);
  }

  /** Later slots never go back to an earlier source frame. */
  lemma FieldOffsetsOrdered(pattern: seq<nat>, k1: nat, k2: nat)
    requires k1 <= k2 < Sum(pattern)
    ensures FieldOffsets(pattern)[k1] / 2 <= FieldOffsets(pattern)[k2] / 2
  {
    FieldOffsetAt(pattern, k1);
    FieldOffsetAt(pattern, k2);
    OwnerMono(pattern, k1, k2);
  }

  lemma OwnerMono(pattern: seq<nat>, k1: nat, k2: nat)
    requires k1 <= k2 < Sum(pattern)
    ensures Owner(pattern, k1) <= Owner(pattern, k2)
  {
    var i1, i2 := Owner(pattern, k1), Owner(pattern, k2);
    if i2 + 1 <= i1 {
      SumPrefixMono(pattern, i2 + 1, i1);
    }
  }

  // ---------------------------------------------------------------------
  // Clean frames (interlacing.py:59-75).

  /** Output frame j of the cycle is clean when its two fields are, in order, the first
      and second field of one source frame. */
  predicate IsCleanPair(offsets: seq<nat>, j: nat)
    requires 2 * j + 1 < |offsets|
  {
    offsets[2 * j + 1] == offsets[2 * j] + 1 && offsets[2 * j] % 2 == 0
  }

  /** `clean_frame_sources`: clean output frame -> source frame offset in the cycle. */
  function CleanFrameSources(offsets: seq<nat>): map<nat, nat> {
    map j: nat | j < |offsets| / 2 && IsCleanPair(offsets, j) :: offsets[2 * j] / 2
  }

  lemma CleanFrameSourcesAt(offsets: seq<nat>, j: nat)
    requires 2 * j + 1 < |offsets|
    ensures j in CleanFrameSources(offsets) <==> IsCleanPair(offsets, j)
    ensures j in CleanFrameSources(offsets) ==> CleanFrameSources(offsets)[j] == offsets[2 * j] / 2
  {
  }

  /** The clean-frame table equals a map that holds exactly the clean pairs, each with
      its source frame. */
  lemma CleanSourcesEqual(offsets: seq<nat>, expected: map<nat, nat>)
    requires forall j :: j in expected ==> 2 * j + 1 < |offsets| && IsCleanPair(offsets, j) && expected[j] == offsets[2 * j] / 2
    requires forall j: nat :: 2 * j + 1 < |offsets| && IsCleanPair(offsets, j) ==> j in expected
    ensures CleanFrameSources(offsets) == expected
  {
    var clean := CleanFrameSources(offsets);
    forall j | j in clean ensures j in expected && clean[j] == expected[j] {
      CleanFrameSourcesAt(offsets, j);
    }
    forall j | j in expected ensures j in clean {
      CleanFrameSourcesAt(offsets, j);
    }
    assert clean.Keys == expected.Keys;
  }

  /** The loop that fills `clean_frame_sources`, reading the offsets two at a time. */
  method BuildCleanFrameSources(offsets: seq<nat>) returns (r: Result<map<nat, nat>, InterlaceError>)
    ensures r.Ok? <==> |offsets| % 2 == 0
    ensures r.Ok? ==> r.value == CleanFrameSources(offsets)
  {
    var clean: map<nat, nat> := map[];
    var fieldIdx := 0;
    while fieldIdx < |offsets|
      invariant 0 <= fieldIdx && fieldIdx % 2 == 0
      invariant fieldIdx <= |offsets|
      invariant clean == map j: nat | j < fieldIdx / 2 && IsCleanPair(offsets, j) :: offsets[2 * j] / 2
    {
      if fieldIdx + 1 == |offsets| {
        return Err(PairUnpack);
      }
      var fieldOffset1, fieldOffset2 := offsets[fieldIdx], offsets[fieldIdx + 1];
      if fieldOffset2 == fieldOffset1 + 1 && fieldOffset1 % 2 == 0 {
        clean := clean[fieldIdx / 2 := fieldOffset1 / 2];
      }
      fieldIdx := fieldIdx + 2;
    }
    return Ok(clean);
  }

  lemma CleanPairIff(pattern: seq<nat>, j: nat)
    requires 2 * j + 1 < Sum(pattern)
    ensures FieldOffsets(pattern)[2 * j] % 2 == 0
    ensures IsCleanPair(FieldOffsets(pattern), j)
      <==> FieldOffsets(pattern)[2 * j + 1] == FieldOffsets(pattern)[2 * j] + 1
    ensures IsCleanPair(FieldOffsets(pattern), j) <==> Owner(pattern, 2 * j) == Owner(pattern, 2 * j + 1)
    ensures IsCleanPair(FieldOffsets(pattern), j) ==> FieldOffsets(pattern)[2 * j] / 2 < |pattern|
  {
    var a, b := 2 * j, 2 * j + 1;
    assert a % 2 == 0 && b % 2 == 1;
    FieldOffsetValue(pattern, a);
    FieldOffsetValue(pattern, b);
    var o1, o2 := Owner(pattern, a), Owner(pattern, b);
    assert FieldOffsets(pattern)[a] == 2 * o1;
    assert FieldOffsets(pattern)[b] == 2 * o2 + 1;
    assert (2 * o1) % 2 == 0 && (2 * o1) / 2 == o1;
  }

  /** Slot k holds field `2 * owner + k % 2`. */
  lemma FieldOffsetValue(pattern: seq<nat>, k: nat)
    requires k < Sum(pattern)
    ensures Owner(pattern, k) < |pattern|
    ensures FieldOffsets(pattern)[k] == 2 * Owner(pattern, k) + k % 2
  {
    FieldOffsetsShape(pattern);
  }

  /** Each named pattern parses into its field counts. */
  lemma NamedPatternsParse()
    ensures ParsePulldownPattern(Types.PulldownPattern.NtscFilmPulldown.Value()) == Ok([2, 3, 2, 3])
    ensures ParsePulldownPattern(Types.PulldownPattern.AdvancedPulldown.Value()) == Ok([2, 3, 3, 2])
    ensures ParsePulldownPattern(Types.PulldownPattern.MatchedPulldown.Value()) == Ok([2])
    ensures ParsePulldownPattern(Types.PulldownPattern.EuroPulldown.Value()) == Ok([2, 2, 2, 2, 2, 2, 2, 2, 2, 2, 2, 3])
  {
    FormatFourParts(2, 3, 2, 3);
    ParseFormatPattern([2, 3, 2, 3]);
    FormatFourParts(2, 3, 3, 2);
    ParseFormatPattern([2, 3, 3, 2]);
    ParseFormatPattern([2]);
    assert NatToString(2) == "2";
    EuroText();
    ParseFormatPattern([2, 2, 2, 2, 2, 2, 2, 2, 2, 2, 2, 3]);
  }

  lemma FormatFourParts(a: nat, b: nat, c: nat, d: nat)
    requires a < 10 && b < 10 && c < 10 && d < 10
    ensures FormatPattern([a, b, c, d]) == [DigitChar(a), ':', DigitChar(b), ':', DigitChar(c), ':', DigitChar(d)]
  {
    var texts := PartTexts([a, b, c, d]);
    assert texts == [[DigitChar(a)], [DigitChar(b)], [DigitChar(c)], [DigitChar(d)]];
    assert Join(texts[2..], ':') == [DigitChar(c), ':', DigitChar(d)] by {
      assert texts[2..][1..] == [[DigitChar(d)]];
    }
    assert Join(texts[1..], ':') == [DigitChar(b), ':'] + Join(texts[2..], ':') by {
      assert texts[1..][1..] == texts[2..];
    }
  }

  /** The European durations, written out, give the enumeration's string. */
  lemma EuroText()
    ensures FormatPattern([2, 2, 2, 2, 2, 2, 2, 2, 2, 2, 2, 3]) == "2:2:2:2:2:2:2:2:2:2:2:3"
  {
    var x: seq<nat> := [2, 2, 2, 2];
    var tail: seq<nat> := [2, 2, 2, 2, 2, 2, 2, 3];
    EuroTail();
    FourTwos();
    FormatConcat(x, tail);
    EuroJoin();
  }

  lemma EuroJoin()
    ensures [2, 2, 2, 2] + [2, 2, 2, 2, 2, 2, 2, 3] == [2, 2, 2, 2, 2, 2, 2, 2, 2, 2, 2, 3]
    ensures "2:2:2:2" + [':'] + "2:2:2:2:2:2:2:3" == "2:2:2:2:2:2:2:2:2:2:2:3"
  {
  }

  lemma FourTwos()
    ensures FormatPattern([2, 2, 2, 2]) == "2:2:2:2"
  {
    assert DigitChar(2) == '2';
    FormatFourParts(2, 2, 2, 2);
  }

  /** The last eight entries of the European pattern, written out. */
  lemma EuroTail()
    ensures FormatPattern([2, 2, 2, 2, 2, 2, 2, 3]) == "2:2:2:2:2:2:2:3"
  {
    var x: seq<nat> := [2, 2, 2, 2];
    var y: seq<nat> := [2, 2, 2, 3];
    FourTwos();
    assert DigitChar(2) == '2' && DigitChar(3) == '3';
    FormatFourParts(2, 2, 2, 3);
    FormatConcat(x, y);
    assert x + y == [2, 2, 2, 2, 2, 2, 2, 3];
    assert "2:2:2:2" + [':'] + "2:2:2:3" == "2:2:2:2:2:2:2:3";
  }

  lemma FormatConcat(a: seq<nat>, b: seq<nat>)
    requires |a| >= 1 && |b| >= 1
    ensures FormatPattern(a + b) == FormatPattern(a) + [':'] + FormatPattern(b)
  {
    assert PartTexts(a + b) == PartTexts(a) + PartTexts(b);
    JoinConcat(PartTexts(a), PartTexts(b));
  }

  /** Joining two non-empty lists of parts puts one separator between their joins. */
  lemma {:induction false} JoinConcat(a: seq<string>, b: seq<string>)
    requires |a| >= 1 && |b| >= 1
    ensures Join(a + b, ':') == Join(a, ':') + [':'] + Join(b, ':')
    decreases |a|
  {
    if |a| == 1 {
      assert (a + b)[1..] == b;
    } else {
      JoinConcat(a[1..], b);
      assert (a + b)[1..] == a[1..] + b;
    }
  }

  /** "2:3:2:3" (NTSC film pulldown) repeats the second and fourth frames' first
      fields, leaving output frames 0, 1 and 4 clean. */
  lemma NtscFilmPulldownCadence()
    ensures FieldOffsets([2, 3, 2, 3]) == [0, 1, 2, 3, 2, 5, 4, 7, 6, 7]
    ensures CleanFrameSources(FieldOffsets([2, 3, 2, 3])) == map[0 := 0, 1 := 1, 4 := 3]
  {
    NtscFilmPulldownOffsets();
    var offsets: seq<nat> := [0, 1, 2, 3, 2, 5, 4, 7, 6, 7];
    var expected: map<nat, nat> := map[0 := 0, 1 := 1, 4 := 3];
    forall j: nat | 2 * j + 1 < |offsets| && IsCleanPair(offsets, j) ensures j in expected {
      assert j == 0 || j == 1 || j == 2 || j == 3 || j == 4;
    }
    CleanSourcesEqual(offsets, expected);
  }

  /** "2:3:3:2" (advanced pulldown) combs only output frame 2. */
  lemma AdvancedPulldownCadence()
    ensures FieldOffsets([2, 3, 3, 2]) == [0, 1, 2, 3, 2, 5, 4, 5, 6, 7]
    ensures CleanFrameSources(FieldOffsets([2, 3, 3, 2])) == map[0 := 0, 1 := 1, 3 := 2, 4 := 3]
  {
    AdvancedPulldownOffsets();
    var offsets: seq<nat> := [0, 1, 2, 3, 2, 5, 4, 5, 6, 7];
    var expected: map<nat, nat> := map[0 := 0, 1 := 1, 3 := 2, 4 := 3];
    forall j: nat | 2 * j + 1 < |offsets| && IsCleanPair(offsets, j) ensures j in expected {
      assert j == 0 || j == 1 || j == 2 || j == 3 || j == 4;
    }
    CleanSourcesEqual(offsets, expected);
  }

  /** "2" passes every frame through clean. */
  lemma MatchedPulldownCadence()
    ensures FieldOffsets([2]) == [0, 1]
    ensures CleanFrameSources(FieldOffsets([2])) == map[0 := 0]
  {
    OffsetsOfTwo();
    var offsets: seq<nat> := [0, 1];
    forall j: nat | 2 * j + 1 < |offsets| && IsCleanPair(offsets, j) ensures j in map[0 := 0] {
      assert j == 0;
    }
    CleanSourcesEqual(offsets, map[0 := 0]);
  }

  /** The offsets of the named patterns' prefixes, built one pattern entry at a time. */
  lemma OffsetsOfTwo()
    ensures FieldOffsets([2]) == [0, 1]
  {
    assert [2][..0] == [];
    assert CycleSlice(0, 0, 2) == [0, 1];
  }

  lemma OffsetsOfTwoThree()
    ensures FieldOffsets([2, 3]) == [0, 1, 2, 3, 2]
  {
    OffsetsOfTwo();
    assert [2, 3][..1] == [2];
    assert Sum([2]) == 2 by { assert [2][..0] == []; }
    assert CycleSlice(2, 2, 5) == [2, 3, 2];
  }

  lemma LeadingOffsets()
    ensures FieldOffsets([2, 3, 2]) == [0, 1, 2, 3, 2, 5, 4]
    ensures FieldOffsets([2, 3, 3]) == [0, 1, 2, 3, 2, 5, 4, 5]
  {
    OffsetsOfTwoThree();
    assert [2, 3, 2][..2] == [2, 3] && [2, 3, 3][..2] == [2, 3];
    assert Sum([2, 3]) == 5 by { assert [2, 3][..1] == [2]; assert [2][..0] == []; }
    assert CycleSlice(4, 5, 7) == [5, 4];
    assert CycleSlice(4, 5, 8) == [5, 4, 5];
  }

  lemma NtscFilmPulldownOffsets()
    ensures FieldOffsets([2, 3, 2, 3]) == [0, 1, 2, 3, 2, 5, 4, 7, 6, 7]
  {
    LeadingOffsets();
    assert [2, 3, 2, 3][..3] == [2, 3, 2];
    assert Sum([2, 3, 2]) == 7 by { assert [2, 3, 2][..2] == [2, 3]; assert Sum([2, 3]) == 5; }
    assert CycleSlice(6, 7, 10) == [7, 6, 7];
  }

  lemma AdvancedPulldownOffsets()
    ensures FieldOffsets([2, 3, 3, 2]) == [0, 1, 2, 3, 2, 5, 4, 5, 6, 7]
  {
    LeadingOffsets();
    assert [2, 3, 3, 2][..3] == [2, 3, 3];
    assert Sum([2, 3, 3]) == 8 by { assert [2, 3, 3][..2] == [2, 3]; assert Sum([2, 3]) == 5; }
    assert CycleSlice(6, 8, 10) == [6, 7];
  }

  /** The European pattern's 25 fields are odd, so the effective pattern has 24 entries
      spanning 50 fields. */
  lemma EuroPulldownDoubled()
    ensures Sum([2, 2, 2, 2, 2, 2, 2, 2, 2, 2, 2, 3]) == 25
    ensures |EffectivePattern([2, 2, 2, 2, 2, 2, 2, 2, 2, 2, 2, 3])| == 24
    ensures Sum(EffectivePattern([2, 2, 2, 2, 2, 2, 2, 2, 2, 2, 2, 3])) == 50
  {
    var euro: seq<nat> := [2, 2, 2, 2, 2, 2, 2, 2, 2, 2, 2, 3];
    var twos: seq<nat> := [2, 2, 2, 2, 2, 2, 2, 2, 2, 2, 2];
    assert euro == twos + [3];
    SumConcat(twos, [3]);
    assert Sum(twos) == 22 by {
      var k := 0;
      while k < 11
        invariant 0 <= k <= 11 && Sum(twos[..k]) == 2 * k
      {
        assert twos[..k + 1] == twos[..k] + [2];
        SumConcat(twos[..k], [2]);
        k := k + 1;
      }
      assert twos[..11] == twos;
    }
    EffectivePatternEven(euro);
  }

  // ---------------------------------------------------------------------
  // Pattern-mode restoration (interlacing.py:77-87).

  /** The source frame a pattern-mode output frame is restored from, if it is clean. */
  function PatternCleanSource(n: nat, frameCycleSize: nat, origCycleSize: nat, clean: map<nat, nat>): Option<nat>
    requires frameCycleSize > 0
  {
    var cycleIdx := n / frameCycleSize;
    var frameIdxInCycle := n % frameCycleSize;
    if frameIdxInCycle in clean then Some(cycleIdx * origCycleSize + clean[frameIdxInCycle]) else None
  }

  /** `restore_original_frames`: a clean frame becomes the original frame's content under
      the interlaced frame's properties; any other frame is returned as it is; asking for
      a frame past the end of the clip is an error. */
  function RestoreOriginalFrame<P>(n: nat, f: Frame<P>, clip: seq<Frame<P>>,
                                   frameCycleSize: nat, origCycleSize: nat, clean: map<nat, nat>)
    : (r: Result<Frame<P>, InterlaceError>)
    requires frameCycleSize > 0
    ensures r.Err? <==> PatternCleanSource(n, frameCycleSize, origCycleSize, clean).Some?
                        && PatternCleanSource(n, frameCycleSize, origCycleSize, clean).value >= |clip|
    ensures r.Ok? ==> r.value.props == f.props
    ensures r.Ok? && PatternCleanSource(n, frameCycleSize, origCycleSize, clean).None? ==> r.value == f
    ensures r.Ok? && PatternCleanSource(n, frameCycleSize, origCycleSize, clean).Some? ==>
      PatternCleanSource(n, frameCycleSize, origCycleSize, clean).value < |clip|
      && r.value.pixels == clip[PatternCleanSource(n, frameCycleSize, origCycleSize, clean).value].pixels
  {
    match PatternCleanSource(n, frameCycleSize, origCycleSize, clean)
    case None => Ok(f)
    case Some(k) =>
      if k < |clip| then Ok(Frame(clip[k].pixels, f.props)) else Err(FrameOutOfRange(k))
  }

  /** The field of the separated source that output field n of a pattern-mode telecine
      reads: SelectEvery(cycle = 2 * orig_cycle_size, offsets). */
  function PulledDownField(offsets: seq<nat>, origCycleSize: nat, n: nat): nat
    requires |offsets| > 0
  {
    SelectEveryIndex(n, 2 * origCycleSize, offsets)
  }

  /** Splitting a clip of an even cycle into fields and reading them two by two. */
  lemma PairDivMod(size: nat, n: nat)
    requires size > 0 && size % 2 == 0
    ensures (2 * n) / size == n / (size / 2) && (2 * n) % size == 2 * (n % (size / 2))
    ensures (2 * n + 1) / size == n / (size / 2) && (2 * n + 1) % size == 2 * (n % (size / 2)) + 1
  {
    var f := size / 2;
    var c := n / f;
    var j := n % f;
    assert n == c * f + j;
    assert c * size == 2 * (c * f);
    DivModUnique(2 * n, size, c, 2 * j);
    DivModUnique(2 * n + 1, size, c, 2 * j + 1);
  }

  /** The two fields woven into pattern-mode output frame n: within cycle c = n / f, where
      f is the number of output frames per cycle, frame j = n % f reads the first and
      second slot of its pair. */
  lemma PulledDownPair(offsets: seq<nat>, origCycleSize: nat, n: nat)
    requires |offsets| > 0 && |offsets| % 2 == 0
    ensures
      var f := |offsets| / 2;
      PulledDownField(offsets, origCycleSize, 2 * n) == 2 * ((n / f) * origCycleSize) + offsets[2 * (n % f)]
      && PulledDownField(offsets, origCycleSize, 2 * n + 1) == 2 * ((n / f) * origCycleSize) + offsets[2 * (n % f) + 1]
  {
    PairDivMod(|offsets|, n);
    var c := n / (|offsets| / 2);
    assert c * (2 * origCycleSize) == 2 * (c * origCycleSize);
  }

  /** The restoration test on any even offsets list whose pairs start on a first field. */
  lemma CleanSourceIffPair(offsets: seq<nat>, origCycleSize: nat, n: nat, k: nat)
    requires |offsets| > 0 && |offsets| % 2 == 0
    requires offsets[2 * (n % (|offsets| / 2))] % 2 == 0
    ensures PatternCleanSource(n, |offsets| / 2, origCycleSize, CleanFrameSources(offsets)) == Some(k)
      <==> (PulledDownField(offsets, origCycleSize, 2 * n) == 2 * k
            && PulledDownField(offsets, origCycleSize, 2 * n + 1) == 2 * k + 1)
  {
    var f := |offsets| / 2;
    var j := n % f;
    var base := (n / f) * origCycleSize;
    PulledDownPair(offsets, origCycleSize, n);
    CleanFrameSourcesAt(offsets, j);
    var h := offsets[2 * j] / 2;
    assert offsets[2 * j] == 2 * h;
    assert PatternCleanSource(n, f, origCycleSize, CleanFrameSources(offsets))
      == if offsets[2 * j + 1] == 2 * h + 1 then Some(base + h) else None;
  }

  /** Each output frame starts on a first field. */
  lemma FirstSlotEven(pattern: seq<nat>, j: nat)
    requires 2 * j < Sum(pattern)
    ensures FieldOffsets(pattern)[2 * j] % 2 == 0
  {
    FieldOffsetParity(pattern, 2 * j);
    DivModUnique(2 * j, 2, j, 0);
  }

  lemma FieldOffsetParity(pattern: seq<nat>, k: nat)
    requires k < Sum(pattern)
    ensures FieldOffsets(pattern)[k] % 2 == k % 2
  {
    FieldOffsetAt(pattern, k);
  }

  /** Restoration picks exactly the frames whose woven fields are, in order, the two
      fields of one source frame, and it picks that frame. */
  lemma {:induction false} RestoreMatchesWeave(pattern: seq<nat>, n: nat, k: nat)
    requires Sum(pattern) % 2 == 0 && Sum(pattern) > 0
    ensures PatternCleanSource(n, Sum(pattern) / 2, |pattern|, CleanFrameSources(FieldOffsets(pattern))) == Some(k)
      <==> (PulledDownField(FieldOffsets(pattern), |pattern|, 2 * n) == 2 * k
            && PulledDownField(FieldOffsets(pattern), |pattern|, 2 * n + 1) == 2 * k + 1)
  {
    var offsets := FieldOffsets(pattern);
    var f := |offsets| / 2;
    assert f > 0;
    var j := n % f;
    assert 2 * j < |offsets|;
    FirstSlotEven(pattern, j);
    CleanSourceIffPair(offsets, |pattern|, n, k);
  }

  // ---------------------------------------------------------------------
  // Time-based telecine (interlacing.py:126-192). Fractions are exact reals.

  /** `new_length = ceil(fps * original_duration)`. */
  function TelecineLength(fps: real, origLength: nat, origFps: real): int
    requires origFps != 0.0
  {
    Ceil(fps * (origLength as real / origFps))
  }

  /** The source frame shown at a given time: `floor(time * original_fps)`. */
  function FrameAt(time: real, origFps: real): int {
    (time * origFps).Floor
  }

  /** The source frame whose time span holds the start of new field n; the new field
      rate is twice the new frame rate. */
  function OriginalFrameOfField(n: nat, fps: real, origFps: real): int
    requires fps != 0.0
  {
    var newFieldRate := 2.0 * fps;
    FrameAt(n as real / newFieldRate, origFps)
  }

  /** `orig_field_num`: the same-parity field of that source frame. */
  function OriginalFieldNum(n: nat, fps: real, origFps: real): int
    requires fps != 0.0
  {
    2 * OriginalFrameOfField(n, fps, origFps) + n % 2
  }

  /** `select_original_frame_field`: the chosen source field, carrying the durations of
      the new timeline's frame in place of its own. */
  function SelectOriginalFrameField<P>(n: nat, f: Frame<P>, origFields: seq<Frame<P>>, fps: real, origFps: real)
    : (r: Result<Frame<P>, InterlaceError>)
    requires fps != 0.0
    ensures r.Ok? <==> (0 <= OriginalFieldNum(n, fps, origFps) < |origFields|
                        && "_DurationNum" in f.props && "_DurationDen" in f.props)
    ensures r.Ok? ==> r.value.pixels == origFields[OriginalFieldNum(n, fps, origFps)].pixels
    ensures r.Ok? ==>
      r.value.props.Keys == origFields[OriginalFieldNum(n, fps, origFps)].props.Keys + {"_DurationNum", "_DurationDen"}
    ensures r.Ok? ==> r.value.props["_DurationNum"] == f.props["_DurationNum"]
    ensures r.Ok? ==> r.value.props["_DurationDen"] == f.props["_DurationDen"]
    ensures r.Ok? ==>
      forall key :: (key in r.value.props && key != "_DurationNum" && key != "_DurationDen") ==>
        r.value.props[key] == origFields[OriginalFieldNum(n, fps, origFps)].props[key]
  {
    var origFieldNum := OriginalFieldNum(n, fps, origFps);
    if origFieldNum < 0 || origFieldNum >= |origFields| then Err(FrameOutOfRange(origFieldNum))
    else if "_DurationNum" !in f.props then Err(MissingProp("_DurationNum"))
    else if "_DurationDen" !in f.props then Err(MissingProp("_DurationDen"))
    else
      var orig := origFields[origFieldNum];
      Ok(Frame(orig.pixels, orig.props["_DurationNum" := f.props["_DurationNum"]]["_DurationDen" := f.props["_DurationDen"]]))
  }

  /** The time-based clean test: both field start times of output frame n fall in one
      source frame. */
  function TimeCleanSource(n: nat, fps: real, origFps: real): Option<int>
    requires fps != 0.0
  {
    var timeAt1stField := n as real / fps;
    var timeAt2ndField := timeAt1stField + 1.0 / (2.0 * fps);
    var orig1stFieldFrameNum := FrameAt(timeAt1stField, origFps);
    var orig2ndFieldFrameNum := FrameAt(timeAt2ndField, origFps);
    if orig1stFieldFrameNum == orig2ndFieldFrameNum then Some(orig1stFieldFrameNum) else None
  }

  /** Time-based `restore_original_frames`. */
  function TimeRestoreOriginalFrame<P>(n: nat, f: Frame<P>, clip: seq<Frame<P>>, fps: real, origFps: real)
    : (r: Result<Frame<P>, InterlaceError>)
    requires fps != 0.0
    ensures r.Err? <==> TimeCleanSource(n, fps, origFps).Some?
                        && !(0 <= TimeCleanSource(n, fps, origFps).value < |clip|)
    ensures r.Ok? ==> r.value.props == f.props
    ensures r.Ok? && TimeCleanSource(n, fps, origFps).None? ==> r.value == f
    ensures r.Ok? && TimeCleanSource(n, fps, origFps).Some? ==>
      0 <= TimeCleanSource(n, fps, origFps).value < |clip|
      && r.value.pixels == clip[TimeCleanSource(n, fps, origFps).value].pixels
  {
    var source := TimeCleanSource(n, fps, origFps);
    match source
    case None => Ok(f)
    case Some(k) =>
      if 0 <= k < |clip| then Ok(Frame(clip[k].pixels, f.props)) else Err(FrameOutOfRange(k))
  }

  /** Output frame n is restored from source frame k exactly when the field selection put
      the first and second field of frame k, in that order, on output frame n. */
  lemma TimeCleanIff(n: nat, fps: real, origFps: real)
    requires fps > 0.0
    ensures TimeCleanSource(n, fps, origFps).Some? <==>
      OriginalFieldNum(2 * n + 1, fps, origFps) == OriginalFieldNum(2 * n, fps, origFps) + 1
    ensures TimeCleanSource(n, fps, origFps).Some? ==>
      OriginalFieldNum(2 * n, fps, origFps) == 2 * TimeCleanSource(n, fps, origFps).value
      && OriginalFieldNum(2 * n + 1, fps, origFps) == 2 * TimeCleanSource(n, fps, origFps).value + 1
  {
    var t1 := n as real / fps;
    var t2 := t1 + 1.0 / (2.0 * fps);
    assert (2 * n) as real / (2.0 * fps) == t1;
    assert (2 * n + 1) as real / (2.0 * fps) == t2;
    assert (2 * n) % 2 == 0 && (2 * n + 1) % 2 == 1;
  }

  lemma CeilOfWhole(x: real)
    requires x.Floor as real == x
    ensures Ceil(x) == x.Floor
  {
  }

  lemma RealMulMono(a: real, b: real, c: real)
    requires a <= b && c > 0.0
    ensures a * c <= b * c
  {
  }

  /** The unrounded new length x = fps · duration, read at the 2 · fps field rate, scales
      back to exactly `len` source frames. The rounded length ceil(x) may run past that;
      see `LastFieldPastEnd`. */
  lemma DurationIdentity(fps: real, len: real, origFps: real)
    requires fps > 0.0 && origFps > 0.0
    ensures 2.0 * (fps * (len / origFps)) * (origFps / (2.0 * fps)) == len
  {
    var c := origFps / (2.0 * fps);
    assert c * (2.0 * fps) == origFps;
    assert (len / origFps) * origFps == len;
  }

  /** When the new length rounds the duration up by less than half a frame (in particular
      when fps times the source duration is whole), every field of the new timeline reads a
      frame that exists. */
  lemma SelectedFrameInRange(fps: real, origLength: nat, origFps: real, n: nat)
    requires fps > 0.0 && origFps > 0.0
    requires TelecineLength(fps, origLength, origFps) as real - fps * (origLength as real / origFps) < 0.5
    requires n < 2 * TelecineLength(fps, origLength, origFps)
    ensures 0 <= OriginalFrameOfField(n, fps, origFps) < origLength
  {
    var m := fps * (origLength as real / origFps);
    var len := TelecineLength(fps, origLength, origFps);
    assert (n as real) <= 2.0 * (len as real) - 1.0;
    var c := origFps / (2.0 * fps);
    var x := (n as real / (2.0 * fps)) * origFps;
    DivThenScale(n as real, 2.0 * fps, origFps);
    RealMulStrict(n as real, 2.0 * m, c);
    RealMulMono(0.0, n as real, c);
    DurationIdentity(fps, origLength as real, origFps);
    FloorWithin(x, origLength);
  }

  /** When the new length rounds the duration up by half a frame or more, the last field
      of the new timeline reads a frame past the end of the clip. */
  lemma LastFieldPastEnd(fps: real, origLength: nat, origFps: real)
    requires fps > 0.0 && origFps > 0.0
    requires TelecineLength(fps, origLength, origFps) as real - fps * (origLength as real / origFps) >= 0.5
    ensures TelecineLength(fps, origLength, origFps) >= 1
    ensures OriginalFrameOfField(2 * TelecineLength(fps, origLength, origFps) - 1, fps, origFps) >= origLength
    ensures OriginalFieldNum(2 * TelecineLength(fps, origLength, origFps) - 1, fps, origFps) >= 2 * origLength
  {
    var m := fps * (origLength as real / origFps);
    var len := TelecineLength(fps, origLength, origFps);
    RealMulMono(0.0, origLength as real / origFps, fps);
    assert len >= 1;
    var n: nat := 2 * len - 1;
    assert (n as real) >= 2.0 * m;
    var c := origFps / (2.0 * fps);
    var x := (n as real / (2.0 * fps)) * origFps;
    DivThenScale(n as real, 2.0 * fps, origFps);
    RealMulMono(2.0 * m, n as real, c);
    DurationIdentity(fps, origLength as real, origFps);
    FloorAtLeast(x, origLength);
  }

  /** The overrun on a concrete clip: eleven frames at 24000/1001 last 27.5 frames at
      60000/1001, so the new length is 28 and field 55 reads source field 23 of a clip that
      separates into 22 fields. */
  lemma TelecineOverrunExample<P>(f: Frame<P>, origFields: seq<Frame<P>>)
    requires |origFields| == 22
    ensures TelecineLength(60000.0 / 1001.0, 11, 24000.0 / 1001.0) == 28
    ensures OriginalFieldNum(55, 60000.0 / 1001.0, 24000.0 / 1001.0) == 23
    ensures SelectOriginalFrameField(55, f, origFields, 60000.0 / 1001.0, 24000.0 / 1001.0).Err?
  {
    assert (60000.0 / 1001.0) * (11 as real / (24000.0 / 1001.0)) == 27.5;
    assert (55 as real / (2.0 * (60000.0 / 1001.0))) * (24000.0 / 1001.0) == 11.0;
  }

  /** The selection with the source frame held at the clip's last frame, so the rounded-up
      tail of the new timeline repeats the last frame's fields instead of reading past the
      end. */
  function ClampedFieldNum(n: nat, fps: real, origFps: real, origLength: nat): int
    requires fps != 0.0
  {
    var k := OriginalFrameOfField(n, fps, origFps);
    2 * (if k >= origLength then origLength - 1 else k) + n % 2
  }

  /** `select_original_frame_field` over the clamped field number. */
  function ClampedSelectOriginalFrameField<P>(n: nat, f: Frame<P>, origFields: seq<Frame<P>>, fps: real, origFps: real)
    : (r: Result<Frame<P>, InterlaceError>)
    requires fps != 0.0
    ensures r.Ok? <==> (0 <= ClampedFieldNum(n, fps, origFps, |origFields| / 2) < |origFields|
                        && "_DurationNum" in f.props && "_DurationDen" in f.props)
    ensures r.Ok? ==> r.value.pixels == origFields[ClampedFieldNum(n, fps, origFps, |origFields| / 2)].pixels
    ensures r.Ok? ==>
      r.value.props.Keys == origFields[ClampedFieldNum(n, fps, origFps, |origFields| / 2)].props.Keys
                            + {"_DurationNum", "_DurationDen"}
    ensures r.Ok? ==>
      forall key :: (key in r.value.props && key != "_DurationNum" && key != "_DurationDen") ==>
        r.value.props[key] == origFields[ClampedFieldNum(n, fps, origFps, |origFields| / 2)].props[key]
    ensures r.Ok? ==> r.value.props["_DurationNum"] == f.props["_DurationNum"]
    ensures r.Ok? ==> r.value.props["_DurationDen"] == f.props["_DurationDen"]
  {
    var num := ClampedFieldNum(n, fps, origFps, |origFields| / 2);
    if num < 0 || num >= |origFields| then Err(FrameOutOfRange(num))
    else if "_DurationNum" !in f.props then Err(MissingProp("_DurationNum"))
    else if "_DurationDen" !in f.props then Err(MissingProp("_DurationDen"))
    else
      var orig := origFields[num];
      Ok(Frame(orig.pixels, orig.props["_DurationNum" := f.props["_DurationNum"]]["_DurationDen" := f.props["_DurationDen"]]))
  }

  /** Every field of the new timeline has a clamped source field inside the clip, of its
      own parity; where the unclamped selection is in range the two agree. */
  lemma ClampedSelectionInRange(fps: real, origLength: nat, origFps: real, n: nat)
    requires fps > 0.0 && origFps > 0.0
    requires n < 2 * TelecineLength(fps, origLength, origFps)
    ensures 0 <= ClampedFieldNum(n, fps, origFps, origLength) < 2 * origLength
    ensures ClampedFieldNum(n, fps, origFps, origLength) % 2 == n % 2
    ensures OriginalFrameOfField(n, fps, origFps) < origLength ==>
      ClampedFieldNum(n, fps, origFps, origLength) == OriginalFieldNum(n, fps, origFps)
    ensures TelecineLength(fps, origLength, origFps) as real - fps * (origLength as real / origFps) < 0.5 ==>
      ClampedFieldNum(n, fps, origFps, origLength) == OriginalFieldNum(n, fps, origFps)
  {
    var x := (n as real / (2.0 * fps)) * origFps;
    DivThenScale(n as real, 2.0 * fps, origFps);
    RealMulMono(0.0, n as real, origFps / (2.0 * fps));
    assert OriginalFrameOfField(n, fps, origFps) >= 0;
    var k := OriginalFrameOfField(n, fps, origFps);
    var kc := if k >= origLength then origLength - 1 else k;
    ParityOfPair(kc, n);
    if TelecineLength(fps, origLength, origFps) as real - fps * (origLength as real / origFps) < 0.5 {
      SelectedFrameInRange(fps, origLength, origFps, n);
    }
  }

  /** The clamped selection fails only for a missing duration, and it is the source's
      selection whenever the new length overshoots by less than half a frame. */
  lemma ClampedSelection<P>(n: nat, f: Frame<P>, origFields: seq<Frame<P>>, fps: real, origFps: real)
    requires fps > 0.0 && origFps > 0.0 && |origFields| % 2 == 0
    requires n < 2 * TelecineLength(fps, |origFields| / 2, origFps)
    ensures ClampedSelectOriginalFrameField(n, f, origFields, fps, origFps).Ok?
      <==> "_DurationNum" in f.props && "_DurationDen" in f.props
    ensures TelecineLength(fps, |origFields| / 2, origFps) as real - fps * ((|origFields| / 2) as real / origFps) < 0.5 ==>
      ClampedSelectOriginalFrameField(n, f, origFields, fps, origFps) == SelectOriginalFrameField(n, f, origFields, fps, origFps)
  {
    ClampedSelectionInRange(fps, |origFields| / 2, origFps, n);
  }

  lemma ParityOfPair(k: nat, n: nat)
    ensures (2 * k + n % 2) % 2 == n % 2
  {
    Arith.DivModUnique(2 * k + n % 2, 2, k, n % 2);
  }

  lemma RealMulStrict(a: real, b: real, c: real)
    requires a < b && c > 0.0
    ensures a * c < b * c
  {
  }

  lemma FloorWithin(x: real, bound: nat)
    requires 0.0 <= x < bound as real
    ensures 0 <= x.Floor < bound
  {
  }

  lemma FloorAtLeast(x: real, bound: nat)
    requires x >= bound as real
    ensures x.Floor >= bound
  {
  }

  lemma BelowByStep(x: real, y: real, z: real, bound: real, c: real)
    requires x <= y && y == z - c && z == bound && c > 0.0
    ensures x < bound
  {
  }

  lemma DivThenScale(a: real, d: real, b: real)
    requires d > 0.0 && b > 0.0
    ensures (a / d) * b == a * (b / d)
    ensures b / d > 0.0
  {
  }

  lemma SubtractOnce(a: real, c: real)
    ensures (a - 1.0) * c == a * c - c
  {
  }

  /** The worked example: ten frames at 24000/1001 converted to 60000/1001 give 25 frames,
      and field 0 reads source field 0. */
  lemma TelecineExample()
    ensures TelecineLength(60000.0 / 1001.0, 10, 24000.0 / 1001.0) == 25
    ensures OriginalFieldNum(0, 60000.0 / 1001.0, 24000.0 / 1001.0) == 0
  {
    assert (60000.0 / 1001.0) * (10 as real / (24000.0 / 1001.0)) == 25.0;
  }

  // ---------------------------------------------------------------------
  // The entry point (interlacing.py:11-104).

  /** What `interlace` builds: the cadence and clean-frame table of a pattern, or the
      timeline of a target rate; `restore` is set when exact progressive frames are put
      back, which happens when interlace_progressive_chroma is False. */
  datatype Plan =
    | PatternPlan(origCycleSize: nat, offsets: seq<nat>, restore: Option<map<nat, nat>>)
    | TimePlan(fps: real, newLength: int, restoreClean: bool)

  /** Python truthiness of the optional pattern. */
  predicate PatternGiven(pattern: Option<string>) {
    pattern.Some? && pattern.value != ""
  }

  method Interlace(pattern: Option<string>, fpsnum: Option<int>, fpsden: Option<int>,
                   interlaceProgressiveChroma: bool, clipLength: nat, clipFps: real)
    returns (r: Result<Plan, InterlaceError>)
    requires clipFps >= 0.0
    ensures PatternGiven(pattern) ==>
      match ParsePulldownPattern(pattern.value)
      case Err(e) => r == Err(e)
      case Ok(parts) =>
        var eff := EffectivePattern(parts);
        if Sum(eff) == 0 then r == Err(NoOffsets)
        else r == Ok(PatternPlan(|eff|, FieldOffsets(eff),
                                 if interlaceProgressiveChroma then None
                                 else Some(CleanFrameSources(FieldOffsets(eff)))))
    ensures !PatternGiven(pattern) && (fpsnum.None? || fpsnum.value == 0) ==> r == Err(PatternOrRateRequired)
    ensures !PatternGiven(pattern) && fpsnum.Some? && fpsnum.value != 0 ==>
      var den := if fpsden.Some? then fpsden.value else 1;
      if den == 0 || clipFps == 0.0 then r == Err(ZeroDivision)
      else
        var fps := fpsnum.value as real / den as real;
        r == Ok(TimePlan(fps, TelecineLength(fps, clipLength, clipFps), !interlaceProgressiveChroma))
  {
    if PatternGiven(pattern) {
      var parsed := ParsePulldownPattern(pattern.value);
      if parsed.Err? {
        return Err(parsed.error);
      }
      var patternParts := parsed.value;
      if Sum(patternParts) % 2 != 0 {
        // Abbreviated pattern: run it twice so no cycle ends on half a frame.
        patternParts := patternParts + patternParts;
      }
      var origCycleSize := |patternParts|;
      var offsetsPattern := PulldownPatternToFieldOffsets(patternParts);
      FieldOffsetsShape(patternParts);
      if |offsetsPattern| == 0 {
        return Err(NoOffsets);
      }
      if interlaceProgressiveChroma {
        return Ok(PatternPlan(origCycleSize, offsetsPattern, None));
      }
      EffectivePatternEven(parsed.value);
      var clean := BuildCleanFrameSources(offsetsPattern);
      return Ok(PatternPlan(origCycleSize, offsetsPattern, Some(clean.value)));
    } else if fpsnum.Some? && fpsnum.value != 0 {
      var den := if fpsden.Some? then fpsden.value else 1;
      if den == 0 || clipFps == 0.0 {
        return Err(ZeroDivision);
      }
      var fps := fpsnum.value as real / den as real;
      var newLength := TelecineLength(fps, clipLength, clipFps);
      return Ok(TimePlan(fps, newLength, !interlaceProgressiveChroma));
    } else {
      return Err(PatternOrRateRequired);
    }
  }
}

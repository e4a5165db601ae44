# vsfieldkit in Dafny

vsfieldkit is a set of VapourSynth filters for interlaced and analog video.
Its filters never touch pixels themselves. Each one composes host primitives
(`SeparateFields`, `SelectEvery`, `Interleave`, `DoubleWeave`, `Crop`,
`StackHorizontal`/`StackVertical`). The index, timing, metadata and string
arithmetic decides which field or frame goes where. This project models that
arithmetic and proves what it promises:

- **Telecine** (`interlace`): parsing a pulldown pattern and doubling it when
  its sum is odd. Compiling the pattern to field offsets. The table of clean
  frames. Restoring original frames in pattern mode and in time-based mode.
  The time-based field selection.
- **Phosphor scan** (`scan_interlaced`): the field list with its warm-up
  field, and the warm-up search. The mod-4 fresh/old edit cadence used by the
  chroma repeat, the decay and the attack. The decay mask level and planes.
  The post-processing loop, and the choice of output format.
- **Metadata utilities**: run-length grouping by `_Combed` and by
  `_FieldBased`; copying or deleting listed frame properties; the format-spec
  merge and the no-op decision of `convert_format_if_needed`; black and
  brighten-ceiling levels; bob field-parity annotation; plugin checks;
  chroma-location remaps.
- **YUV4MPEG2 header**: the colour-space string, the header tokens, and a
  parser for the header. The parser proves that the header says what the clip
  and its first frame say.
- **Analog sampling**: the ITU-R BT.601, SMPTE ST 170M, ITU-R BT.470 and
  4fSC constants as exact rationals; the BT.601 frame-size dispatch; the
  padding arithmetic of the active-region resampler.
- **Edge repair** (`fill_analog_frame_ends`): fill and continue sizes,
  radius padding, the repair height, and the crop/stack geometry on symbolic
  pictures. Which repaired clip each field and frame takes. The edgefixer
  adapter's per-plane decision.
- **Enumerations**: the chroma-scanning, post-processor and pulldown-pattern
  values.

## How things are represented

- Frames and fields are symbolic values: property maps, or terms that record
  what was combined.
- Python `Fraction`s are Dafny `real`s, which are exact rationals.
- Python's `%` on a possibly negative divisor is written out as `PyMod`.
- `math.ceil` is `Arith.Ceil`.
- Host primitives are functions in module `Host` with their documented index
  semantics:
  - `SelectEvery(cycle, offs)` maps output n to `(n / |offs|)·cycle + offs[n mod |offs|]`;
  - `Interleave` alternates its two inputs;
  - `DoubleWeave()[::2]` pairs fields 2m and 2m+1.
- Each per-frame selector becomes a pure function of the frame number.

The docstring at scanning.py:30-34 says the scan doubles the number of
frames. The recycled fields of a clip of N frames are 4N long. `[:-1]` drops
the last of them, and the warm-up field inserted at position 1 brings the list
back to 4N fields (scanning.py:145-158). Weaving them gives 2N frames.
The same docstring says the frame rate doubles. SeparateFields doubles the
rate, the `SelectEvery` at scanning.py:145-149 modifies durations and doubles
it again, the edits keep it, and the `[::2]` after `DoubleWeave` halves it:
the scan plays at twice the clip's rate.

## Model

| member | source | states |
|---|---|---|
| Strings.JoinSplit | vsfieldkit/interlacing.py:36-40 | splitting on a separator and joining the parts again gives back the original text |
| Strings.SplitJoin | vsfieldkit/interlacing.py:36-40 | joining separator-free parts and splitting again gives back the same parts |
| Strings.ParseNatToString | vsfieldkit/interlacing.py:37 | `int()` of a decimal rendering gives back the number |
| Strings.ParseNat | vsfieldkit/interlacing.py:37 | parsing succeeds exactly on non-empty all-digit text |
| Arith.Ceil | vsfieldkit/interlacing.py:142 | the result is the least integer not below the real argument |
| Host.SelectEvery | vsfieldkit/scanning.py:145-149 | output n is input `(n / |offs|)·cycle + offs[n mod |offs|]`; the length counts the offsets that fall inside the tail of the last cycle |
| Host.Interleave | vsfieldkit/scanning.py:280-283 | output n is the n/2-th frame of the first clip when n is even, of the second when odd |
| Host.WeavePairs | vsfieldkit/scanning.py:101 | woven frame m pairs fields 2m and 2m+1 |
| Types.ChromaSubsampleScanningFromValue | vsfieldkit/types.py:17-34 | a value string names at most one member (the three members are distinct), and the member found has that value |
| Types.InterlacedScanPostProcessorFromValue | vsfieldkit/types.py:36-39 | the only post-processor is BLEND_VERTICALLY |
| Types.PulldownPatternFromValue | vsfieldkit/types.py:42-56 | a pattern string names at most one named pattern, and the member found has that value |
| Interlacing.ParseParts | vsfieldkit/interlacing.py:36-40 | parsing succeeds exactly when every colon-separated part is a number; it keeps one number per part, in order |
| Interlacing.ParseFormatPattern | vsfieldkit/interlacing.py:36-40 | every non-empty list of durations, written as a pattern, parses back to itself |
| Interlacing.EffectivePatternEven | vsfieldkit/interlacing.py:41-46 | the effective pattern always has an even sum; it is the pattern itself when the sum is even, and the pattern twice (twice the length and sum) when it is odd |
| Interlacing.SumConcat | vsfieldkit/interlacing.py:41 | the duration sum of a concatenation is the sum of the sums |
| Interlacing.PulldownPatternToFieldOffsets | vsfieldkit/interlacing.py:107-123 | the offset-building loop computes exactly the field offsets of the pattern |
| Interlacing.FieldOffsetsShape | vsfieldkit/interlacing.py:107-123 | there are sum(pattern) offsets; slot k holds `2·owner(k) + k mod 2`, where owner(k) is the pattern entry whose duration span holds k |
| Interlacing.FieldOffsetAt | vsfieldkit/interlacing.py:114-119 | the offset at slot k has the parity of k, its half is the owning entry, and it is below twice the pattern length |
| Interlacing.FieldOffsetsOrdered | vsfieldkit/interlacing.py:113-122 | halved offsets never decrease along the list |
| Interlacing.Owner | vsfieldkit/interlacing.py:113-122 | the owning entry of slot k is the one whose cumulative duration span contains k |
| Interlacing.BuildCleanFrameSources | vsfieldkit/interlacing.py:63-75 | the table-filling loop builds exactly the map of clean frames, and fails on an odd-length offset list |
| Interlacing.CleanFrameSourcesAt | vsfieldkit/interlacing.py:63-75 | frame j is in the table exactly when its offset pair is clean, and then it maps to half the first offset |
| Interlacing.CleanPairIff | vsfieldkit/interlacing.py:68-70 | the `% 2 == 0` test is always true on compiled offsets; a pair is clean exactly when both slots belong to one pattern entry, which is then a source frame of the cycle |
| Interlacing.RestoreOriginalFrame | vsfieldkit/interlacing.py:77-87 | a clean frame takes the source frame's content under the interlaced frame's properties; any other frame is returned unchanged; only a source index past the clip fails |
| Interlacing.PairDivMod | vsfieldkit/interlacing.py:78-79 | the cycle position of field 2n or 2n+1 is fixed by the frame position of n |
| Interlacing.RestoreMatchesWeave | vsfieldkit/interlacing.py:48-87 | pattern-mode restoration picks source frame k for output n exactly when the woven fields of n are fields 2k and 2k+1 |
| Interlacing.NamedPatternsParse | vsfieldkit/types.py:45-56 | the four named pattern strings parse to [2,3,3,2], [2,2,…,2,3], [2] and [2,3,2,3] |
| Interlacing.NtscFilmPulldownCadence | vsfieldkit/types.py:55-56 | 2:3:2:3 compiles to [0,1,2,3,2,5,4,7,6,7], and its clean frames are 0→0, 1→1, 4→3 |
| Interlacing.AdvancedPulldownCadence | vsfieldkit/types.py:45-47 | 2:3:3:2 compiles to [0,1,2,3,2,5,4,5,6,7], and 4 of its 5 frames are clean |
| Interlacing.MatchedPulldownCadence | vsfieldkit/types.py:52-53 | 2 compiles to [0,1], and its only frame is clean |
| Interlacing.EuroPulldownDoubled | vsfieldkit/types.py:49-50 | the euro pattern sums to 25, so it is doubled to 24 entries and 50 fields |
| Interlacing.EuroText | vsfieldkit/types.py:49 | the euro durations written out give the enumeration's string |
| Interlacing.SelectOriginalFrameField | vsfieldkit/interlacing.py:151-160 | new field n shows source field `2·floor(n·src_fps/(2·fps)) + n mod 2`, keeping that field's properties except the two durations, which come from the new timeline |
| Interlacing.TimeRestoreOriginalFrame | vsfieldkit/interlacing.py:175-185 | time-based restoration returns the source frame under the interlaced properties when both field times fall in one source frame, and the frame unchanged otherwise |
| Interlacing.TimeCleanIff | vsfieldkit/interlacing.py:175-185 | the time-based clean test holds exactly when the two fields of output frame n select consecutive fields 2k and 2k+1 of one source frame k |
| Interlacing.SelectedFrameInRange | vsfieldkit/interlacing.py:142-155 | when `ceil(fps·duration)` exceeds fps·duration by less than half a frame (in particular when it is whole), every field of the new length selects a source frame inside the clip |
| Interlacing.LastFieldPastEnd | vsfieldkit/interlacing.py:142-155 | when `ceil(fps·duration)` exceeds fps·duration by half a frame or more, the last new field selects a source frame past the end of the clip, so its field number is past the last source field |
| Interlacing.TelecineOverrunExample | vsfieldkit/interlacing.py:142-160 | 11 frames at 24000/1001 converted to 60000/1001 give new length 28, and field 55 selects source field 23 of a clip with 22 fields, so the selection fails |
| Interlacing.ClampedSelectOriginalFrameField | vsfieldkit/interlacing.py:151-160 | the field selection with the source frame held at the clip's last frame: the chosen field, carrying the new timeline's durations |
| Interlacing.ClampedSelectionInRange | vsfieldkit/interlacing.py:142-160 | every field of the new length has a clamped source field inside the clip, of its own parity, equal to the source's choice wherever that choice is in range |
| Interlacing.ClampedSelection | vsfieldkit/interlacing.py:151-160 | the clamped selection fails only for a missing duration, and equals the source's selection whenever the new length overshoots by less than half a frame |
| Interlacing.DurationIdentity | vsfieldkit/interlacing.py:135-153 | the unrounded length x = fps·duration, read at the 2·fps field rate, scales back to exactly the source's frame count; the rounded length ceil(x) can run past it (`LastFieldPastEnd`) |
| Interlacing.TelecineExample | vsfieldkit/interlacing.py:142-154 | 10 frames at 24000/1001 become 25 frames at 60000/1001, and field 0 shows source field 0 |
| Interlacing.Interlace | vsfieldkit/interlacing.py:11-104 | a non-empty pattern takes precedence: the plan is its offsets, and the clean table only when progressive chroma is not interlaced; otherwise a non-zero fpsnum gives the time plan; with neither it fails |
| Scanning.ChooseWarmup | vsfieldkit/scanning.py:45-49 | without a warm-up clip, a one-frame black clip with the first frame's properties; otherwise the warm-up clip's last frame |
| Scanning.FindWarmupField | vsfieldkit/scanning.py:132-140 | the search returns the first warm-up field whose `_Field` differs from the clip's first field, and fails exactly when none differs |
| Scanning.WarmupFieldOpposite | vsfieldkit/scanning.py:132-140 | on a two-field warm-up frame a differing field always exists, so the search never fails |
| Scanning.PhosphorFields | vsfieldkit/scanning.py:145-158 | the list is the first field, then the warm-up field, then the recycled fields, 4N long, so weaving gives 2N frames |
| Scanning.FieldSlots | vsfieldkit/scanning.py:142-149 | with distinct fields, every source field appears at exactly two distinct positions (its own frame and the next) except the last, which appears once |
| Scanning.WarmupSlot | vsfieldkit/scanning.py:142-149 | the warm-up field appears at position 1 and nowhere else |
| Scanning.CodeFrameFields | vsfieldkit/scanning.py:145-158 | woven frame m holds field m and the field before it (the warm-up field for m = 0) |
| Scanning.IntendedPhosphorFields | vsfieldkit/scanning.py:173-181 | the corrected layout keeps woven frame 0 and swaps the two fields of every later woven frame of the built list |
| Scanning.IntendedLayoutEditsOlderField | vsfieldkit/scanning.py:230-235 | in the corrected layout the cadence's fresh slot of frame m holds field m and its old slot the older field |
| Scanning.CodeLayoutEditsNewerField | vsfieldkit/scanning.py:145-158 | in the list as built, for every frame m ≥ 1 the cadence's old slot holds the newer field m |
| Scanning.CodeLayoutRecoloursNewerField | vsfieldkit/scanning.py:162-209 | on the list as built, the chroma repeat gives the newer field m of every frame m ≥ 1 the chroma of the older field m − 1, the reverse of what SCAN_LATEST documents at vsfieldkit/types.py:26-28 |
| Scanning.CodeLayoutDecaysNewerField | vsfieldkit/scanning.py:212-292 | on the list as built, the decay darkens the newer field of every frame m ≥ 1 |
| Scanning.CodeLayoutBrightensOlderField | vsfieldkit/scanning.py:295-340 | on the list as built, the attack brightens the older field of every frame m ≥ 1 |
| Scanning.CadenceHalfLength | vsfieldkit/scanning.py:236-245 | on an even edit range the fresh and old selections each take half the fields, and the re-order takes them all |
| Scanning.FreshHalf | vsfieldkit/scanning.py:236-240 | the fresh selection holds, at each cadence index, the field of every fresh position |
| Scanning.OldHalf | vsfieldkit/scanning.py:241-245 | the old selection holds, at each cadence index, the field of every old position |
| Scanning.Reorder | vsfieldkit/scanning.py:280-288 | interleaving and re-ordering puts every edited field back at the position it came from |
| Scanning.ReorderPosition | vsfieldkit/scanning.py:284-288 | the re-order index of a position is twice its cadence index, plus one exactly at old positions |
| Scanning.Splice | vsfieldkit/scanning.py:290-292 | fields before the offset are kept and the edited range follows them |
| Scanning.RepeatNewFieldChroma | vsfieldkit/scanning.py:162-209 | fresh positions and positions before the offset are unchanged; each old position keeps its luma and takes the chroma of its frame's fresh field |
| Scanning.ChromaSourceInRange | vsfieldkit/scanning.py:182-196 | the chroma of an old position comes from a fresh position of the same frame |
| Scanning.RoundHalfEven | vsfieldkit/scanning.py:265 | `round` returns an integer within one half of its argument |
| Scanning.MaskLevelBounds | vsfieldkit/scanning.py:252-266 | the integer mask level lies in [0, 2^bits − 1], is 0 at factor 0 and full at factor 1 |
| Scanning.DecayPlanes | vsfieldkit/scanning.py:268-273 | all planes when chroma is included, plane 0 only otherwise |
| Scanning.DecayOldField | vsfieldkit/scanning.py:212-292 | fresh positions and positions before the offset are unchanged; each old position is merged with its decay field at the mask level over the decay planes |
| Scanning.BrightenFreshFields | vsfieldkit/scanning.py:295-340 | old positions and positions before the offset are unchanged; each fresh position is brightened by the factor |
| Scanning.EditedFrame | vsfieldkit/scanning.py:59-101 | the repeat, decay and attack act on each woven frame by slot alone: the fresh slot's field is brightened under attack, and the old slot's field takes the fresh slot's chroma and is decayed toward the decay list's field at that slot |
| Scanning.BuiltFrame | vsfieldkit/scanning.py:128-159 | in the list as built, frame 0's fresh slot holds the first field and its old slot the warm-up field; from frame 1 on the fresh slot holds the older field m − 1 and the old slot the newer field m; the decay list's old slot holds a decay field of parity m |
| Scanning.ScanFrameFields | vsfieldkit/scanning.py:59-101 | each woven frame of the scan as the code builds it: frame 0 weaves the first field, brightened under attack, with the warm-up field, recoloured from it and decayed; from frame 1 on the newer field m takes the chroma of the older field m − 1 and is decayed, and the older field m − 1 is brightened |
| Scanning.IntendedScanFrameFields | vsfieldkit/scanning.py:173-181 | in the corrected scan each woven frame m weaves the newer field m, brightened under attack, with the older field, which takes field m's chroma and is decayed |
| Scanning.PostProcess | vsfieldkit/scanning.py:104-108 | every step runs; no steps leave the format alone; any blend leaves unsubsampled chroma at 16 bits or more |
| Scanning.FinalFormatRestored | vsfieldkit/scanning.py:110-125 | SCAN_UPSAMPLED asks for the upsampled subsampling at the original depth; every other mode asks for the original format |
| Scanning.FinalConversion | vsfieldkit/scanning.py:110-125 | the final spec is the one the mode calls for, and the clip is converted exactly when it is not already in it |
| Scanning.UpsampleDecision | vsfieldkit/scanning.py:55-57 | chroma is upsampled exactly when the clip has vertical subsampling |
| Scanning.WeaveScan | vsfieldkit/scanning.py:55-101 | the scan's 2N woven frames are the built field list, upsampled exactly when the chroma is vertically subsampled, with the warm-up field the field orders select, after the edits, paired as `DoubleWeave()[::2]` pairs them |
| Scanning.ScanDoublesRate | vsfieldkit/scanning.py:30-34 | the woven frames play at twice the clip's frame rate, the rate SeparateFields gives its fields |
| Scanning.ScanInterlaced | vsfieldkit/scanning.py:14-125 | the scan weaves 2N frames from the built list after the edits the options call for (frame by frame as `ScanFrameFields` states), at twice the clip's frame rate, marked progressive; the post-processed format is the scannable one, blended when any step is given; the final spec is the scannable format under SCAN_UPSAMPLED and the clip's own otherwise, left unchanged exactly when post-processing already gives it, and a conversion passes that spec as `format` |
| Util.GroupByCombed | vsfieldkit/util.py:89-107 | runs start at 0, are contiguous, cover the clip, share one `_Combed` value each, and adjacent runs differ; an empty clip gives one empty run with the sentinel |
| Util.GroupByFieldOrder | vsfieldkit/util.py:110-134 | the same segmentation by `_FieldBased`; it fails exactly when some value is not a field order, and an empty clip fails at once on the sentinel; on a failure the runs already yielded cover the clip from frame 0 up to the first frame whose value is not a field order, and the error names that value |
| Util.ConvertOrderRuns | vsfieldkit/util.py:124-134 | each yielded run carries its run's field order and span; conversion stops at the first value that is not a field order |
| Util.RunOf | vsfieldkit/util.py:99-107 | every frame lies in some run |
| Util.RunsCoverValues | vsfieldkit/util.py:120-134 | every run value converts exactly when every frame's value converts |
| Util.CopyFrameProps | vsfieldkit/util.py:407-416 | the copy loop produces exactly the copied property map |
| Util.CopiedPropsMeaning | vsfieldkit/util.py:407-416 | a listed key is copied when the source has it and deleted when it lacks it; unlisted keys are unchanged |
| Util.CopySpecificFrameProps | vsfieldkit/util.py:399-417 | each frame gets the listed keys of the matching source frame (the last one past its end); an empty key list returns the clip unchanged |
| Util.CopyOnlyListedKeys | vsfieldkit/util.py:399-417 | keys not listed are neither added, removed nor changed |
| Util.SpecOf | vsfieldkit/util.py:9-15 | a format's spec has exactly the intrinsic keys |
| Util.TargetSpecPriority | vsfieldkit/util.py:144-160 | each intrinsic comes from the keyword arguments first, then from `format`, then from the clip |
| Util.ConvertFormatIfNeeded | vsfieldkit/util.py:137-180 | the clip is unchanged exactly when there are no resize arguments and the target spec equals the clip's; otherwise `format` is passed only when the spec changes, non-intrinsic keywords pass through, and `dither_type` only when set, not 'none', and below 16 bits |
| Util.VerticalUpsampleDecision | vsfieldkit/util.py:137-180 | asking only for `subsampling_h=0` changes nothing on a clip without vertical subsampling |
| Util.BlackPlanes | vsfieldkit/util.py:183-209 | one level per plane: the luma black first, the YUV chroma mid-level next, the rest repeat the last value |
| Util.LimitedLevels | vsfieldkit/util.py:194-227 | limited-range integer black is 2^(bits−4) and the brighten ceiling is 235·2^(bits−8) |
| Util.BlackBelowCeiling | vsfieldkit/util.py:183-231 | the black level is always below the brighten ceiling |
| Util.BrightenedPlanes | vsfieldkit/util.py:233-237 | YUV brightens only luma; other families brighten every plane |
| Util.MissingDescriptions | vsfieldkit/util.py:253-256 | nothing is missing exactly when every namespace is present |
| Util.RequirePlugins | vsfieldkit/util.py:250-258 | fails exactly when some namespace is missing, naming every missing plugin in order |
| Util.RequireOneOf | vsfieldkit/util.py:261-273 | fails exactly when no namespace is present |
| Util.VerticalCenterChromaLoc | vsfieldkit/util.py:17-21 | absent, left and center locations remap to top-left or top; no other location remaps |
| Util.CositedRemapMeaning | vsfieldkit/util.py:57-71 | absent and left become top-left, center becomes top, anything else and all other keys are kept, and remapping twice changes nothing |
| Util.ReviseMeaning | vsfieldkit/util.py:343-354 | frames with a location are remapped, frames without one are kept, and revising is idempotent |
| Util.ShiftCenteredChroma | vsfieldkit/util.py:292-303 | co-sited chroma is not shifted; centred chroma takes the shift its field position calls for |
| Util.ShiftFollowsFieldParity | vsfieldkit/util.py:292-323 | a separated field is shifted as a top field exactly when its parity matches the field order |
| Util.AnnotateFrame | vsfieldkit/util.py:374-391 | annotation fails exactly when the field order is unknown and no tff is given; it adds only the named property |
| Util.AnnotationIsSourceField | vsfieldkit/util.py:374-391 | the annotation is `(n & 1) XOR t`: the position of the field bobbed frame n came from |
| Util.AssumeProgressive | vsfieldkit/util.py:46-54 | every frame is marked `_FieldBased` progressive, and no other property is added, removed or changed |
| Util.AssumeProgressiveIdempotent | vsfieldkit/util.py:46-54 | marking a marked clip again changes nothing |
| Util.AnnotateBobbedFields | vsfieldkit/util.py:364-396 | works exactly when the bobbed clip is twice the original's length, annotating frame n from original frame n/2 |
| Output.FloatDepthCode | vsfieldkit/output.py:7-11 | float depths exist exactly for 16, 32 and 64 bits |
| Output.SubsamplingCodeInverse | vsfieldkit/output.py:13-20 | the subsampling table is one-to-one: a pair has a code exactly when the code reads back as that pair |
| Output.ChromaString | vsfieldkit/output.py:115-148 | the colour-space string has no spaces; it fails exactly for a family other than GRAY or YUV, an unknown YUV subsampling, or an unknown float depth |
| Output.ChromaStringRoundTrip | vsfieldkit/output.py:119-143 | the colour-space string reads back as the format's family, sample type, subsampling and depth |
| Output.SarText | vsfieldkit/output.py:87-91 | the aspect ratio token contains no spaces |
| Output.Y4mHeader | vsfieldkit/output.py:71-112 | the header fails exactly when the range property has no code or the colour-space string fails |
| Output.TokensRoundTrip | vsfieldkit/output.py:98-110 | space-free tokens joined into a header parse back to the same fields, in order |
| Output.HeaderRoundTrip | vsfieldkit/output.py:71-112 | a built header parses back to the clip's colour space, size, rate and length, the first frame's interlacing code and aspect ratio, and a range only when the range property is present |
| Sampling.NtscLineTimeExact | vsfieldkit/sampling.py:10-22 | the NTSC line frequency is 15750000/1001 Hz |
| Sampling.NtscFieldRate | vsfieldkit/sampling.py:11-14 | the NTSC field frequency is exactly 60000/1001 |
| Sampling.ActiveBt601Samples | vsfieldkit/sampling.py:23-58 | active BT.601 samples per line are 14271/20 (SMPTE 170M), 14217/20 (BT.470) and 702 (PAL) |
| Sampling.FourFscActiveWidths | vsfieldkit/sampling.py:59-67 | 4fSC active widths are 33299/44 for NTSC and 9221927/10000 for PAL |
| Sampling.Bt601Regions | vsfieldkit/sampling.py:71-106 | fails exactly when the width is not 720 or the height is not 576, 480 or 486 |
| Sampling.Bt601RegionsExact | vsfieldkit/sampling.py:83-106 | 576 lines select PAL, 486 NTSC, and 480 NTSC with top −5 and height 486 |
| Sampling.PyMod | vsfieldkit/sampling.py:117-124 | Python's remainder: it takes the divisor's sign, lies strictly inside the divisor, and is congruent to the dividend modulo the divisor |
| Sampling.PaddedWidthBounds | vsfieldkit/sampling.py:117-124 | the padded width is the least multiple of the pad factor not below the whole width |
| Sampling.ActiveRegionResample | vsfieldkit/sampling.py:109-137 | the resampler fails exactly on a zero pad factor or a zero target active width |
| Sampling.TargetWidthPadded | vsfieldkit/sampling.py:117-128 | the target width is a multiple of the pad factor, at least ceil(target active) and below it plus the factor; the pad is never negative |
| Sampling.ResampleWindow | vsfieldkit/sampling.py:129-137 | the source window is centred on the line and maps onto the whole padded width at the active-region scale |
| Repair.OrigColorSampleEquiv | vsfieldkit/repair.py:44-46 | the sample equivalent is at least 1 |
| Repair.OrigColorSampleEquivRatio | vsfieldkit/repair.py:44-46 | it is 2^(orig − current) when the original subsampling is coarser, and 1 otherwise |
| Repair.SizesFor | vsfieldkit/repair.py:48-69 | YUV gives (1,e,e) and (1+splash,e,e); GRAY all 1 and all 1+splash; other families all e and all max(1+splash,e); fill sizes are at least 1 and continue sizes never below them |
| Repair.PadToPlanes | vsfieldkit/repair.py:74-77 | the prefix is kept and padded with the last element to the plane count |
| Repair.PadToPlanesIdempotent | vsfieldkit/repair.py:290-294 | padding twice is padding once |
| Repair.PadToPlanesEntry | vsfieldkit/repair.py:290-294 | entry i of the padded list is the i-th value, or the last one past the end |
| Repair.ExpandRadius | vsfieldkit/repair.py:71-77 | an int radius becomes a 1-tuple and is padded like a tuple |
| Repair.ClearLowBitsRoundsDown | vsfieldkit/repair.py:242-245 | clearing the low k bits gives the greatest multiple of 2^k not above the value |
| Repair.RepairHeight | vsfieldkit/repair.py:238-245 | the repair height is a multiple of the chroma height, covers both the chroma samples and the luma continue size, and is less than the larger of them plus one chroma height |
| Repair.SeparateFields | vsfieldkit/repair.py:84-86 | fails exactly on an odd frame height; a field keeps the width, has half the height, and row y of the field from the top (bottom) is frame row 2y (2y + 1) |
| Repair.SeparatedRows | vsfieldkit/repair.py:84-86 | every frame row y is row y / 2 of the field of y's parity |
| Repair.Crop | vsfieldkit/repair.py:247-277 | crop fails exactly on a negative margin or an empty result; otherwise it shifts pixels by the left and top margins |
| Repair.StackHorizontal | vsfieldkit/repair.py:255-257 | stacking fails exactly on unequal heights; widths add, left pixels then right |
| Repair.StackVertical | vsfieldkit/repair.py:111-133 | stacking fails exactly on unequal widths; heights add, top pixels then bottom |
| Repair.RepairedEdgesLayout | vsfieldkit/repair.py:246-277 | both edges are full width and repair-height tall; the top edge is continued left of the top blank width, the bottom edge right of width minus the bottom blank width |
| Repair.RepairedEdgesFail | vsfieldkit/repair.py:246-277 | edge building fails exactly when the repair height does not fit the picture, or a non-zero blank width leaves no original column beside it |
| Repair.ReassembledPixels | vsfieldkit/repair.py:109-135 | reassembly keeps the size and replaces only the blanked corners of the top and bottom repair strips |
| Repair.ChooseContinuer | vsfieldkit/repair.py:79-82 | edgefixer is used exactly when it is available |
| Repair.FieldRepairFor | vsfieldkit/repair.py:136-142 | a field from the top takes the top repair, a field from the bottom the bottom repair; any other `_Field` fails |
| Repair.RepairedFieldEdges | vsfieldkit/repair.py:109-142 | a field only receives its own edge's continuation, and only inside that edge's blanked region |
| Repair.FrameRepairFor | vsfieldkit/repair.py:154-159 | a frame takes the interlaced repair exactly when `_FieldBased` is top or bottom |
| Repair.PlaneFixFor | vsfieldkit/repair.py:299-303 | a plane passes through exactly when all its arguments are zero |
| Repair.ContinueEdgeWithEdgefixer | vsfieldkit/repair.py:281-310 | fails exactly when an argument is empty and there are planes; otherwise one decision per plane from the padded arguments |
| Repair.PlanRepairCovers | vsfieldkit/repair.py:16-108 | the planned repair height covers the chroma samples and the luma continue size at a chroma multiple, and there is a radius for every plane |

## Findings

| source | as written | input that shows it | evidently intended | confidence | as-written member | corrected member |
|---|---|---|---|---|---|---|
| vsfieldkit/scanning.py:145-158 | the field list puts the newer field of every woven frame m ≥ 1 in the slot the mod-4 cadence treats as old, so the chroma repeat gives the new field the old one's chroma, decay darkens the new field and attack brightens the old one | any clip of at least one frame (two fields); woven frame m = 1 holds fields 1 and 0 with field 1 at position 2, which the cadence edits as old | the layout in the comments at scanning.py:173-181 and 230-235, where the older field sits in the old slot | not executed | Scanning.ScanFrameFields | Scanning.IntendedScanFrameFields |
| vsfieldkit/interlacing.py:142-160 | `new_length = ceil(fps·duration)` rounds up. The last new field, 2·new_length − 1, then selects source frame `floor((2·new_length − 1)·src_fps/(2·fps))`. That frame is past the end whenever `ceil(x) − x ≥ 0.5` for x = fps·duration, so `original_fields.get_frame` is asked for a field the clip does not have | 11 frames at 24000/1001 converted to 60000/1001: x = 27.5, new length 28, field 55 selects source field 23 of a clip with 22 fields | every field of the new timeline reads a field of the clip, for example with the source frame held at the last one | not executed | Interlacing.TelecineOverrunExample | Interlacing.ClampedSelectionInRange |

`Scanning.ScanInterlaced` and `Scanning.ScanFrameFields` model the code as
written, over the list `Scanning.PhosphorFields` builds. The corrected scan is
`Scanning.IntendedScanFields`, over the layout `Scanning.IntendedPhosphorFields`,
with its frames stated by `Scanning.IntendedScanFrameFields`.
`Scanning.CodeLayoutEditsNewerField`, `Scanning.CodeLayoutRecoloursNewerField`,
`Scanning.CodeLayoutDecaysNewerField` and `Scanning.CodeLayoutBrightensOlderField`
show the discrepancy one step at a time.

`Interlacing.SelectOriginalFrameField` models the telecine selection as
written. `Interlacing.LastFieldPastEnd` shows the overrun for every input with
`ceil(x) − x ≥ 0.5`, and `Interlacing.SelectedFrameInRange` shows the selection
in range for all other inputs. The corrected selection is
`Interlacing.ClampedSelectOriginalFrameField`, proved in range by
`Interlacing.ClampedSelectionInRange` and `Interlacing.ClampedSelection`.

## Left out

- VapourSynth pixel operations (`FillBorders`, `ContinuityFixer`, edgefixer `Continuity`, `MaskedMerge`, `Expr`, `BlankClip`, `Merge`, resize kernels): foreign code. The model records which operation is applied to what, not the pixels it produces.
- `vsfieldkit/kernels.py`, `vsfieldkit/deinterlacing.py` and `vsfieldkit/__init__.py`: wrappers and re-exports with no logic of their own. They are not part of this model.
- `_blend_vertically` and the resampling in `shift_chroma_to_luma_sited`: pixel resampling. Only their effect on the format and the choice of shift are modelled.
- Floating point: the `float(factor)` text in `brighten`, the float-sample mask path, and the `float(...)` arguments handed to the kernel are taken as exact reals.
- The `ceil(width * 0.65)` default blank widths: floating point. The blank widths are parameters.
- `format_from_specifier` and the host's format registry: a format is given as a value.
- Repair.SeparateFields: does not model the host's chroma-alignment check on the frame height, because the host's checks are foreign. Only an odd height fails.
- Scanning.ScanInterlaced: models the clip-level frame rate, not the per-frame `_DurationNum` and `_DurationDen` the host rewrites alongside it, and the progressive marking as one value for every output frame.
- The decorators `@requires_plugins` and `@requires_one_of` on `fill_analog_frame_ends` (repair.py:14-15): the repair plan is modelled without them. `Util.RequirePlugins` and `Util.RequireOneOf` model the checks themselves. repair.py:7-8 imports `requires_plugins` and `requires_one_of`, but util.py defines only the plain functions `require_plugins` and `require_one_of` (util.py:250, 261). interlacing.py:8 imports `spline36_cb_cr_only` from util.py, which does not define it; it is only a default kernel argument, and kernels are foreign.
- Repair.Crop: does not model the host's subsampling-alignment errors on crops, because the host's checks are foreign.
- The re-interlacing of repaired fields with `DoubleWeave()[::2]` and `CopyFrameProps` in `fill_analog_frame_ends`: only the per-field repair and the per-frame selection are modelled.
- Interleave of unequal lengths and cadence edit ranges of odd length: the model requires an even edit range, as every call in the source provides.
- `_Field` and `_FieldBased` are taken as integers; a clip is assumed to keep one field order throughout the scan.
- `output_frame_inferred_y4m`, `clip.frames()` and `get_frame`: I/O and enumeration. Frames are given as a sequence of property maps.
- Python `int()` parsing is modelled for plain digit strings only. Signs, whitespace and underscores are not modelled.
- Output.SarText: assumes `_SARNum` and `_SARDen` are integers, because only integer properties are modelled.
- Output.ChromaString: does not check the sample type of GRAY formats, which the source also ignores.
- `PAL_SUBCARRIER_FREQ_ARGENTINA`: it lacks its line-frequency factor and nothing uses it.
- `resample_bt601_as_4fsc` never calls the resampler, and `_resample_digitized_active_regions` reads `src_original_top` and `src_original_height`, which are not in its scope. Only the dispatch and the padding arithmetic are modelled.
- Sampling.PaddedWidthBounds: proved for positive pad factors only. `PyMod` models negative factors, but their bounds are not stated.
- Interlacing.SelectedFrameInRange: the bound holds only when `ceil(x) − x < 0.5` for x = fps·duration. Otherwise it is false: the last new field reads past the end of the clip (`Interlacing.LastFieldPastEnd`, and the Findings table).
- The host graph's lazy and possibly parallel evaluation of `ModifyFrame` and `FrameEval`: each selector is a pure function of the frame number.
- Empty clips in `scan_interlaced` and `interlace`: the scan requires at least one frame, because the source reads frame 0.

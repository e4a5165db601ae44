/** vsfieldkit/output.py: the YUV4MPEG2 stream header inferred from a clip and its first
    frame's properties. The header is built as text; writing it out is not modelled. */
module Output {
  import opened Wrappers
  import opened Host
  import opened Strings

  datatype OutputError =
    | NoMatchingColorspace       // ValueError: no Y4M code for the subsampling
    | IncompatibleColorFamily    // ValueError: neither Gray nor YUV
    | UnknownFloatDepth          // KeyError in the float depth table
    | UnknownColorRange          // KeyError in the range table

  // ---------------------------------------------------------------------
  // Code tables (output.py:7-31).

  /** `Y4M_FLOAT_DEPTH_CODES.get(bits)`. */
  function FloatDepthCode(bits: nat): (c: Option<string>)
    ensures c.Some? <==> bits == 16 || bits == 32 || bits == 64
  {
    if bits == 16 then Some("h") else if bits == 32 then Some("s") else if bits == 64 then Some("d") else None
  }

  /** `Y4M_YCBCR_SUBSAMPLING_CODES.get((w, h))`. */
  function SubsamplingCode(w: nat, h: nat): Option<string> {
    if (w, h) == (1, 1) then Some("420")
    else if (w, h) == (1, 0) then Some("422")
    else if (w, h) == (0, 0) then Some("444")
    else if (w, h) == (2, 2) then Some("410")
    else if (w, h) == (2, 0) then Some("411")
    else if (w, h) == (0, 1) then Some("440")
    else None
  }

  /** The table read backwards. */
  function SubsamplingOfCode(code: string): Option<(nat, nat)> {
    if code == "420" then Some((1, 1))
    else if code == "422" then Some((1, 0))
    else if code == "444" then Some((0, 0))
    else if code == "410" then Some((2, 2))
    else if code == "411" then Some((2, 0))
    else if code == "440" then Some((0, 1))
    else None
  }

  /** The subsampling table is one-to-one: each code names exactly one (w, h) pair, and
      every code is three characters long. */
  lemma SubsamplingCodeInverse(w: nat, h: nat, code: string)
    ensures SubsamplingCode(w, h) == Some(code) <==> SubsamplingOfCode(code) == Some((w, h))
    ensures SubsamplingCode(w, h).Some? ==> |SubsamplingCode(w, h).value| == 3
  {
  }

  /** `Y4M_CHROMA_SITING_CODES.get(loc, '')`. */
  function ChromaSitingCode(loc: Option<PropValue>): string {
    if loc == Some(IntProp(ChromaCenter)) then "jpeg"
    else if loc == Some(IntProp(ChromaLeft)) then "mpeg2"
    else if loc == Some(IntProp(ChromaTopLeft)) then "paldv"
    else ""
  }

  /** `Y4M_RANGE_CODES[value]`; None is the KeyError. */
  function RangeCode(v: PropValue): Option<string> {
    if v == IntProp(RangeLimited) then Some("LIMITED")
    else if v == IntProp(RangeFull) then Some("FULL")
    else None
  }

  /** The interlacing letter for a `_FieldBased` value; anything else is '?'. */
  function InterlacingCode(v: Option<PropValue>): char {
    if v == Some(IntProp(FieldProgressive)) then 'p'
    else if v == Some(IntProp(FieldTop)) then 't'
    else if v == Some(IntProp(FieldBottom)) then 'b'
    else '?'
  }

  // ---------------------------------------------------------------------
  // The colour-space string (output.py:115-148).

  /** Mapping truthiness: None or an empty map is falsy. */
  predicate Truthy(props: Option<Props>) {
    props.Some? && |props.value| > 0
  }

  /** `_yuv4mpeg2_chroma_string`: 'mono' with the depth above 8 bits for Gray; for YUV the
      subsampling code, then 'p' and the depth above 8 bits, or for 8-bit 4:2:0 with
      properties the chroma siting, or 'p' and the float depth letter. */
  function ChromaString(f: VideoFormat, props: Option<Props>): (r: Result<string, OutputError>)
    ensures r.Ok? ==> ' ' !in r.value
    ensures r.Err? <==>
      (f.colorFamily != Gray && f.colorFamily != YUV)
      || (f.colorFamily == YUV && SubsamplingCode(f.subsamplingW, f.subsamplingH).None?)
      || (f.colorFamily == YUV && f.sampleType == Float && FloatDepthCode(f.bitsPerSample).None?)
  {
    if f.colorFamily == Gray then
      Ok("mono" + (if f.bitsPerSample > 8 then NatToString(f.bitsPerSample) else ""))
    else if f.colorFamily == YUV then
      match SubsamplingCode(f.subsamplingW, f.subsamplingH)
      case None => Err(NoMatchingColorspace)
      case Some(subsampling) =>
        if f.sampleType == Integer then
          if f.bitsPerSample > 8 then Ok(subsampling + "p" + NatToString(f.bitsPerSample))
          else if Truthy(props) && subsampling == "420" then
            Ok(subsampling + ChromaSitingCode(PropOf(props.value, "_ChromaLocation")))
          else Ok(subsampling)
        else
          assert f.sampleType == Float;
          match FloatDepthCode(f.bitsPerSample)
          case None => Err(UnknownFloatDepth)
          case Some(depth) => Ok(subsampling + "p" + depth)
    else Err(IncompatibleColorFamily)
  }

  /** What a colour-space string says about the format. */
  datatype Described = Described(colorFamily: ColorFamily, sampleType: SampleType, subsamplingW: nat,
                                 subsamplingH: nat, bitsPerSample: nat)

  function Describe(f: VideoFormat): Described {
    Described(f.colorFamily, f.sampleType, f.subsamplingW, f.subsamplingH, f.bitsPerSample)
  }

  /** A reader for the colour-space strings the writer produces. */
  function ParseChromaString(s: string): Option<Described> {
    if |s| >= 4 && s[..4] == "mono" then
      var rest := s[4..];
      if rest == "" then Some(Described(Gray, Integer, 0, 0, 8))
      else match ParseNat(rest)
        case None => None
        case Some(bits) => Some(Described(Gray, Integer, 0, 0, bits))
    else if |s| >= 3 && SubsamplingOfCode(s[..3]).Some? then
      var (w, h) := SubsamplingOfCode(s[..3]).value;
      var rest := s[3..];
      if rest == "" || rest == "jpeg" || rest == "mpeg2" || rest == "paldv" then Some(Described(YUV, Integer, w, h, 8))
      else if |rest| >= 2 && rest[0] == 'p' then
        var depth := rest[1..];
        if depth == "h" then Some(Described(YUV, Float, w, h, 16))
        else if depth == "s" then Some(Described(YUV, Float, w, h, 32))
        else if depth == "d" then Some(Described(YUV, Float, w, h, 64))
        else match ParseNat(depth)
          case None => None
          case Some(bits) => Some(Described(YUV, Integer, w, h, bits))
      else None
    else None
  }

  lemma PrefixSplit(p: string, x: string)
    ensures (p + x)[..|p|] == p && (p + x)[|p|..] == x
  {
  }

  /** The colour-space string determines the format: reading it back gives the colour
      family, sample type, subsampling and depth. Gray is read as integer samples. */
  lemma ChromaStringRoundTrip(f: VideoFormat, props: Option<Props>)
    requires ValidFormat(f)
    requires f.colorFamily == Gray ==> f.sampleType == Integer
    requires ChromaString(f, props).Ok?
    ensures ParseChromaString(ChromaString(f, props).value) == Some(Describe(f))
  {
    if f.colorFamily == Gray {
      GrayRoundTrip(f.bitsPerSample);
    } else {
      var code := SubsamplingCode(f.subsamplingW, f.subsamplingH).value;
      SubsamplingCodeInverse(f.subsamplingW, f.subsamplingH, code);
      if f.sampleType == Integer && f.bitsPerSample > 8 {
        DeepRoundTrip(code, f.subsamplingW, f.subsamplingH, f.bitsPerSample);
      } else if f.sampleType == Integer {
        var siting := if Truthy(props) && code == "420" then ChromaSitingCode(PropOf(props.value, "_ChromaLocation")) else "";
        assert ChromaString(f, props).value == code + siting;
        SitedRoundTrip(code, f.subsamplingW, f.subsamplingH, siting);
      } else {
        FloatRoundTrip(code, f.subsamplingW, f.subsamplingH, f.bitsPerSample);
      }
    }
  }

  /** 'mono' with the depth above 8 bits reads back as Gray of that depth. */
  lemma GrayRoundTrip(bits: nat)
    requires bits >= 8
    ensures ParseChromaString("mono" + (if bits > 8 then NatToString(bits) else ""))
      == Some(Described(Gray, Integer, 0, 0, bits))
  {
    var digits := if bits > 8 then NatToString(bits) else "";
    PrefixSplit("mono", digits);
    if bits > 8 {
      ParseNatToString(bits);
    }
  }

  /** A subsampling code followed by 'p' and the decimal depth reads back as that
      integer depth. */
  lemma DeepRoundTrip(code: string, w: nat, h: nat, bits: nat)
    requires |code| == 3 && SubsamplingOfCode(code) == Some((w, h))
    ensures ParseChromaString(code + "p" + NatToString(bits)) == Some(Described(YUV, Integer, w, h, bits))
  {
    var digits := NatToString(bits);
    var s := code + "p" + digits;
    var rest := "p" + digits;
    assert s == code + rest;
    PrefixSplit(code, rest);
    assert s[0] == code[0] == '4';
    assert rest[0] == 'p' && rest[1..] == digits;
    ParseNatToString(bits);
    assert rest != "jpeg" && rest != "mpeg2" && rest != "paldv";
    assert IsDigit(digits[0]);
    assert digits != "h" && digits != "s" && digits != "d";
  }

  /** A subsampling code followed by nothing or a chroma siting code reads back as 8-bit
      integer samples. */
  lemma SitedRoundTrip(code: string, w: nat, h: nat, siting: string)
    requires |code| == 3 && SubsamplingOfCode(code) == Some((w, h))
    requires siting == "" || siting == "jpeg" || siting == "mpeg2" || siting == "paldv"
    ensures ParseChromaString(code + siting) == Some(Described(YUV, Integer, w, h, 8))
  {
    PrefixSplit(code, siting);
    assert (code + siting)[0] == code[0] == '4';
  }

  /** A subsampling code followed by 'p' and the float depth letter reads back as that
      float depth. */
  lemma FloatRoundTrip(code: string, w: nat, h: nat, bits: nat)
    requires |code| == 3 && SubsamplingOfCode(code) == Some((w, h))
    requires FloatDepthCode(bits).Some?
    ensures ParseChromaString(code + "p" + FloatDepthCode(bits).value) == Some(Described(YUV, Float, w, h, bits))
  {
    var depth := FloatDepthCode(bits).value;
    var rest := "p" + depth;
    assert code + "p" + depth == code + rest;
    PrefixSplit(code, rest);
    assert (code + rest)[0] == code[0] == '4';
    assert rest[1..] == depth;
  }

  // ---------------------------------------------------------------------
  // The header (output.py:71-112).

  /** The properties the header reads are integers whenever present. */
  predicate SarPropsAreInts(props: Props) {
    && ("_SARNum" in props ==> props["_SARNum"].IntProp?)
    && ("_SARDen" in props ==> props["_SARDen"].IntProp?)
  }

  /** The A (aspect) token's value: '0:0' by default, else SARNum:SARDen with the
      denominator defaulting to 1. */
  function SarText(props: Option<Props>): (s: string)
    requires props.Some? ==> SarPropsAreInts(props.value)
    ensures ' ' !in s
  {
    if props.Some? && "_SARNum" in props.value then
      IntToString(props.value["_SARNum"].i) + ":"
        + (if "_SARDen" in props.value then IntToString(props.value["_SARDen"].i) else "1")
    else "0:0"
  }

  /** The clip attributes the header prints. */
  datatype ClipInfo = ClipInfo(format: VideoFormat, width: nat, height: nat, fpsNum: nat, fpsDen: nat, length: nat)

  /** The header's space-separated tokens; `colorRange` is the XCOLORRANGE value if any. */
  function HeaderTokens(clip: ClipInfo, chroma: string, interlacing: char, sar: string,
                        colorRange: Option<string>): seq<string> {
    ["YUV4MPEG2",
     "C" + chroma,
     "W" + NatToString(clip.width),
     "H" + NatToString(clip.height),
     "F" + NatToString(clip.fpsNum) + ":" + NatToString(clip.fpsDen),
     "I" + [interlacing],
     "A" + sar,
     "XLENGTH=" + NatToString(clip.length)]
    + (if colorRange.Some? then ["XCOLORRANGE=" + colorRange.value] else [])
  }

  /** `yuv4mpeg2_header`: `firstProps` is the first frame's properties, or None when not
      inferring from the first frame. The range lookup fails before the colour space. */
  function Y4mHeader(clip: ClipInfo, firstProps: Option<Props>): (r: Result<string, OutputError>)
    requires firstProps.Some? ==> SarPropsAreInts(firstProps.value)
    ensures r.Err? <==>
      (firstProps.Some? && "_ColorRange" in firstProps.value && RangeCode(firstProps.value["_ColorRange"]).None?)
      || ChromaString(clip.format, firstProps).Err?
  {
    var interlacing := if firstProps.Some? then InterlacingCode(PropOf(firstProps.value, "_FieldBased")) else '?';
    var sar := SarText(firstProps);
    var range :=
      if firstProps.Some? && "_ColorRange" in firstProps.value then
        match RangeCode(firstProps.value["_ColorRange"])
        case None => Err(UnknownColorRange)
        case Some(code) => Ok(Some(code))
      else Ok(None);
    if range.Err? then Err(range.error)
    else match ChromaString(clip.format, firstProps)
      case Err(e) => Err(e)
      case Ok(chroma) => Ok(Join(HeaderTokens(clip, chroma, interlacing, sar, range.value), ' '))
  }

  /** What a header says. */
  datatype HeaderFields = HeaderFields(chroma: string, width: nat, height: nat, fpsNum: nat, fpsDen: nat,
                                       interlacing: char, sar: string, length: nat, colorRange: Option<string>)

  /** The rest of `token` after `prefix`, if it starts with it. */
  function AfterPrefix(token: string, prefix: string): Option<string> {
    if |token| >= |prefix| && token[..|prefix|] == prefix then Some(token[|prefix|..]) else None
  }

  function ParseNumberToken(token: string, prefix: string): Option<nat> {
    match AfterPrefix(token, prefix)
    case None => None
    case Some(text) => ParseNat(text)
  }

  function ParseRate(token: string): Option<(nat, nat)> {
    match AfterPrefix(token, "F")
    case None => None
    case Some(text) =>
      var parts := Split(text, ':');
      if |parts| != 2 then None
      else match (ParseNat(parts[0]), ParseNat(parts[1]))
        case (Some(num), Some(den)) => Some((num, den))
        case _ => None
  }

  /** A reader for the headers the writer produces. */
  function ParseHeader(header: string): Option<HeaderFields> {
    var tokens := Split(header, ' ');
    if (|tokens| != 8 && |tokens| != 9) || tokens[0] != "YUV4MPEG2" then None
    else
      var chroma := AfterPrefix(tokens[1], "C");
      var width := ParseNumberToken(tokens[2], "W");
      var height := ParseNumberToken(tokens[3], "H");
      var rate := ParseRate(tokens[4]);
      var interlacing := AfterPrefix(tokens[5], "I");
      var sar := AfterPrefix(tokens[6], "A");
      var length := ParseNumberToken(tokens[7], "XLENGTH=");
      var range := if |tokens| == 9 then AfterPrefix(tokens[8], "XCOLORRANGE=") else Some("");
      if chroma.None? || width.None? || height.None? || rate.None? || interlacing.None? || sar.None?
         || length.None? || range.None? || |interlacing.value| != 1 then None
      else Some(HeaderFields(chroma.value, width.value, height.value, rate.value.0, rate.value.1,
                             interlacing.value[0], sar.value, length.value,
                             if |tokens| == 9 then Some(range.value) else None))
  }

  lemma AfterPrefixOf(prefix: string, x: string)
    ensures AfterPrefix(prefix + x, prefix) == Some(x)
  {
    PrefixSplit(prefix, x);
  }

  lemma NumberTokenOf(prefix: string, n: nat)
    ensures ParseNumberToken(prefix + NatToString(n), prefix) == Some(n)
  {
    AfterPrefixOf(prefix, NatToString(n));
    ParseNatToString(n);
  }

  lemma DigitsFree(n: nat, c: char)
    requires !IsDigit(c)
    ensures c !in NatToString(n)
  {
    var s := NatToString(n);
    forall i | 0 <= i < |s| ensures s[i] != c {
      assert IsDigit(s[i]);
    }
  }

  lemma RateTokenOf(num: nat, den: nat)
    ensures ParseRate("F" + NatToString(num) + ":" + NatToString(den)) == Some((num, den))
  {
    var a, b := NatToString(num), NatToString(den);
    assert "F" + a + ":" + b == "F" + (a + ":" + b);
    AfterPrefixOf("F", a + ":" + b);
    DigitsFree(num, ':');
    DigitsFree(den, ':');
    assert Join([a, b], ':') == a + ":" + b;
    SplitJoin([a, b], ':');
    ParseNatToString(num);
    ParseNatToString(den);
  }

  /** No header token holds a space, so the header splits back into its tokens. */
  lemma TokensSpaceFree(clip: ClipInfo, chroma: string, interlacing: char, sar: string, colorRange: Option<string>)
    requires ' ' !in chroma && ' ' !in sar && interlacing != ' '
    requires colorRange.Some? ==> ' ' !in colorRange.value
    ensures var tokens := HeaderTokens(clip, chroma, interlacing, sar, colorRange);
      forall i :: 0 <= i < |tokens| ==> ' ' !in tokens[i]
  {
    DigitsFree(clip.width, ' ');
    DigitsFree(clip.height, ' ');
    DigitsFree(clip.fpsNum, ' ');
    DigitsFree(clip.fpsDen, ' ');
    DigitsFree(clip.length, ' ');
  }

  /** Splitting the joined tokens and reading each one gives back what went in. */
  lemma TokensRoundTrip(clip: ClipInfo, chroma: string, interlacing: char, sar: string, range: Option<string>)
    requires ' ' !in chroma && ' ' !in sar && interlacing != ' '
    requires range.Some? ==> ' ' !in range.value
    ensures ParseHeader(Join(HeaderTokens(clip, chroma, interlacing, sar, range), ' ')) == Some(HeaderFields(
      chroma, clip.width, clip.height, clip.fpsNum, clip.fpsDen, interlacing, sar, clip.length, range))
  {
    var tokens := HeaderTokens(clip, chroma, interlacing, sar, range);
    TokensSpaceFree(clip, chroma, interlacing, sar, range);
    SplitJoin(tokens, ' ');
    AfterPrefixOf("C", chroma);
    NumberTokenOf("W", clip.width);
    NumberTokenOf("H", clip.height);
    RateTokenOf(clip.fpsNum, clip.fpsDen);
    AfterPrefixOf("I", [interlacing]);
    AfterPrefixOf("A", sar);
    NumberTokenOf("XLENGTH=", clip.length);
    if range.Some? {
      AfterPrefixOf("XCOLORRANGE=", range.value);
    }
  }

  /** Reading back a header gives the clip's dimensions, rate, length, colour-space string,
      interlacing letter, aspect text and colour range as they were written. */
  lemma HeaderRoundTrip(clip: ClipInfo, firstProps: Option<Props>)
    requires firstProps.Some? ==> SarPropsAreInts(firstProps.value)
    requires Y4mHeader(clip, firstProps).Ok?
    ensures var range :=
        if firstProps.Some? && "_ColorRange" in firstProps.value then RangeCode(firstProps.value["_ColorRange"]) else None;
      ParseHeader(Y4mHeader(clip, firstProps).value) == Some(HeaderFields(
        ChromaString(clip.format, firstProps).value, clip.width, clip.height, clip.fpsNum, clip.fpsDen,
        if firstProps.Some? then InterlacingCode(PropOf(firstProps.value, "_FieldBased")) else '?',
        SarText(firstProps), clip.length, range))
  {
    var interlacing := if firstProps.Some? then InterlacingCode(PropOf(firstProps.value, "_FieldBased")) else '?';
    var sar := SarText(firstProps);
    var range :=
      if firstProps.Some? && "_ColorRange" in firstProps.value then RangeCode(firstProps.value["_ColorRange"]) else None;
    var chroma := ChromaString(clip.format, firstProps).value;
    assert range.Some? ==> range.value == "LIMITED" || range.value == "FULL";
    TokensRoundTrip(clip, chroma, interlacing, sar, range);
  }
}

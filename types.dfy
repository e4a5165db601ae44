/** vsfieldkit/types.py: the enumerations callers pass in. Each Python Enum
    member becomes a constructor; `Value()` is the member's `.value` and
    `...FromValue` is the lookup `EnumClass(value)`, None where Python raises
    ValueError. */
module Types {
  import opened Wrappers

  /** How chroma of a vertically subsampled clip is scanned. */
  datatype ChromaSubsampleScanning = ScanBlended | ScanLatest | ScanUpsampled {
    function Value(): string {
      match this
      case ScanBlended => "SCAN_BLENDED"
      case ScanLatest => "SCAN_LATEST"
      case ScanUpsampled => "SCAN_UPSAMPLED"
    }
  }

  /** `ChromaSubsampleScanning(value)`: the members are told apart by their values. */
  function ChromaSubsampleScanningFromValue(s: string): (r: Option<ChromaSubsampleScanning>)
    ensures r.Some? ==> r.value.Value() == s
    ensures forall c: ChromaSubsampleScanning :: c.Value() == s ==> r == Some(c)
  {
    if s == "SCAN_BLENDED" then Some(ScanBlended)
    else if s == "SCAN_LATEST" then Some(ScanLatest)
    else if s == "SCAN_UPSAMPLED" then Some(ScanUpsampled)
    else None
  }

  /** Post-processing steps after phosphor scanning: one member. */
  datatype InterlacedScanPostProcessor = BlendVertically {
    function Value(): string {
      "BLEND_VERTICALLY"
    }
  }

  function InterlacedScanPostProcessorFromValue(s: string): (r: Option<InterlacedScanPostProcessor>)
    ensures r.Some? <==> s == "BLEND_VERTICALLY"
    ensures r.Some? ==> r.value.Value() == s
  {
    if s == "BLEND_VERTICALLY" then Some(BlendVertically) else None
  }

  /** Commonly found pulldown patterns, as colon-separated field counts. */
  datatype PulldownPattern = AdvancedPulldown | EuroPulldown | MatchedPulldown | NtscFilmPulldown {
    function Value(): string {
      match this
      case AdvancedPulldown => "2:3:3:2"
      case EuroPulldown => "2:2:2:2:2:2:2:2:2:2:2:3"
      case MatchedPulldown => "2"
      case NtscFilmPulldown => "2:3:2:3"
    }
  }

  function PulldownPatternFromValue(s: string): (r: Option<PulldownPattern>)
    ensures r.Some? ==> r.value.Value() == s
    ensures forall p: PulldownPattern :: p.Value() == s ==> r == Some(p)
  {
    if s == "2:3:3:2" then Some(AdvancedPulldown)
    else if s == "2:2:2:2:2:2:2:2:2:2:2:3" then Some(EuroPulldown)
    else if s == "2" then Some(MatchedPulldown)
    else if s == "2:3:2:3" then Some(NtscFilmPulldown)
    else None
  }
}

/** vsfieldkit/sampling.py: exact analog timing constants (ITU-R BT.601 sampling at
    13.5 MHz, SMPTE ST 170M and ITU-R BT.470 NTSC, PAL line timing, four times the colour
    subcarrier), the BT.601 frame-size dispatch, and the padding arithmetic that fits the
    resampled active region into a padded output width. Python Fractions are Dafny reals,
    which are exact rationals. */
module Sampling {
  import opened Wrappers
  import opened Arith

  // ---------------------------------------------------------------------
  // Constants (sampling.py:10-67).

  const Bt601SampleRate: real := 13500000.0
  const NtscSubcarrierFreq: real := 5000000.0 * (63.0 / 88.0)
  const NtscLineFreq: real := (2.0 / 455.0) * NtscSubcarrierFreq
  const NtscFieldFreq: real := (2.0 / 525.0) * NtscLineFreq
  const NtscLineTime: real := 1.0 / NtscLineFreq

  const Ntsc170mLeadBlankingTime: real := 1500.0 / 1000000000.0
  const Ntsc170mTailBlankingTime: real := 9200.0 / 1000000000.0
  const Ntsc170mLineBlankingTime: real := Ntsc170mLeadBlankingTime + Ntsc170mTailBlankingTime
  const Ntsc170mLineActiveTime: real := NtscLineTime - Ntsc170mLineBlankingTime
  const Ntsc170mActiveBt601Samples: real := Ntsc170mLineActiveTime * Bt601SampleRate

  const NtscBt470LineBlankingTime: real := 10900.0 / 1000000000.0
  const NtscBt470LineActiveTime: real := NtscLineTime - NtscBt470LineBlankingTime
  const NtscBt470LineActiveBt601Samples: real := NtscBt470LineActiveTime * Bt601SampleRate

  const PalLineFreq: real := 15625.0
  const PalSubcarrierFreq: real := (1135.0 / 4.0 + 1.0 / 625.0) * PalLineFreq
  const PalLineTime: real := 1.0 / PalLineFreq
  const PalLineBlankingTime: real := 12000.0 / 1000000000.0
  const PalLineActiveTime: real := PalLineTime - PalLineBlankingTime
  const PalActiveBt601Samples: real := PalLineActiveTime * Bt601SampleRate

  const Ntsc4fsc: real := 4.0 * NtscSubcarrierFreq
  const Ntsc4fscActiveWidth: real := Ntsc4fsc * Ntsc170mLineActiveTime
  const Ntsc4fscActiveHeight: int := 486

  const Pal4fsc: real := 4.0 * PalSubcarrierFreq
  const Pal4fscActiveWidth: real := Pal4fsc * PalLineActiveTime

  /** The NTSC line time in closed form: 1001/15750000 seconds. */
  lemma NtscLineTimeExact()
    ensures NtscLineFreq == 15750000.0 / 1001.0
    ensures NtscLineTime == 1001.0 / 15750000.0
  {
    assert NtscSubcarrierFreq == 315000000.0 / 88.0;
    assert NtscLineFreq == 630000000.0 / 40040.0;
  }

  /** The NTSC field rate is exactly 60000/1001 fields per second. */
  lemma NtscFieldRate()
    ensures NtscFieldFreq == 60000.0 / 1001.0
  {
    NtscLineTimeExact();
  }

  /** Active BT.601 samples per line: 14271/20 under SMPTE 170M, 14217/20 under BT.470,
      and 702 for PAL. */
  lemma ActiveBt601Samples()
    ensures Ntsc170mActiveBt601Samples == 14271.0 / 20.0
    ensures NtscBt470LineActiveBt601Samples == 14217.0 / 20.0
    ensures PalActiveBt601Samples == 702.0
  {
    NtscLineTimeExact();
    assert NtscLineTime * Bt601SampleRate == 858.0;
  }

  /** The 4fSC active widths: 33299/44 for NTSC and 9221927/10000 for PAL. */
  lemma FourFscActiveWidths()
    ensures Ntsc4fscActiveWidth == 33299.0 / 44.0
    ensures Pal4fscActiveWidth == 9221927.0 / 10000.0
  {
    NtscLineTimeExact();
    assert Ntsc4fsc == 1260000000.0 / 88.0;
    assert Ntsc170mLineActiveTime == 1001.0 / 15750000.0 - 10700.0 / 1000000000.0;
    assert PalSubcarrierFreq == 4433618.75;
    assert PalLineActiveTime == 52.0 / 1000000.0;
  }

  // ---------------------------------------------------------------------
  // The BT.601 frame-size dispatch (sampling.py:71-106).

  datatype SamplingError =
    | UnsupportedWidth       // only 720-sample BT.601 lines
    | UnsupportedHeight      // only 480, 486 or 576 lines
    | ZeroPadFactor          // ZeroDivisionError in `% output_pad_factor`
    | ZeroTargetActive       // ZeroDivisionError in `src_active / target_active`

  /** The active regions chosen for a source frame size. */
  datatype ActiveRegions = ActiveRegions(srcActiveWidth: real, targetActiveWidth: real,
                                         srcOriginalTop: Option<int>, srcOriginalHeight: Option<int>)

  /** `resample_bt601_as_4fsc`'s checks and choice of active regions. */
  function Bt601Regions(width: int, height: int): (r: Result<ActiveRegions, SamplingError>)
    ensures r.Err? <==> width != 720 || (height != 576 && height != 480 && height != 486)
    ensures width != 720 ==> r == Err(UnsupportedWidth)
  {
    if width != 720 then Err(UnsupportedWidth)
    else if height == 576 then Ok(ActiveRegions(PalActiveBt601Samples, Pal4fscActiveWidth, None, None))
    else if height == 480 then Ok(ActiveRegions(Ntsc170mActiveBt601Samples, Ntsc4fscActiveWidth, Some(-5), Some(486)))
    else if height == 486 then Ok(ActiveRegions(Ntsc170mActiveBt601Samples, Ntsc4fscActiveWidth, None, None))
    else Err(UnsupportedHeight)
  }

  /** 576 lines take PAL's 702 samples to 9221927/10000; 480 and 486 lines take SMPTE
      170M's 14271/20 samples to 33299/44, and 480 lines are the 486-line picture cropped
      5 lines from the top. */
  lemma Bt601RegionsExact(height: int)
    ensures height == 576 ==> Bt601Regions(720, height) == Ok(ActiveRegions(702.0, 9221927.0 / 10000.0, None, None))
    ensures height == 486 ==> Bt601Regions(720, height) == Ok(ActiveRegions(14271.0 / 20.0, 33299.0 / 44.0, None, None))
    ensures height == 480 ==>
      Bt601Regions(720, height) == Ok(ActiveRegions(14271.0 / 20.0, 33299.0 / 44.0, Some(-5), Some(Ntsc4fscActiveHeight)))
  {
    ActiveBt601Samples();
    FourFscActiveWidths();
  }

  // ---------------------------------------------------------------------
  // Padding arithmetic (sampling.py:109-137).

  /** A multiple of a non-zero divisor leaves no remainder, whatever the divisor's sign. */
  lemma MultipleOfDivisor(q: int, b: int)
    requires b != 0
    ensures (q * b) % b == 0
  {
    if b > 0 {
      MultipleMod(q, b);
    } else {
      var d, r := (q * b) / b, (q * b) % b;
      assert (q - d) * (-b) == -r;
      MulAwayFromZero(q - d, -b);
    }
  }

  /** Taking away the remainder, or the remainder and one more divisor, leaves a multiple
      of the divisor. */
  lemma RemainderCongruent(a: int, b: int)
    requires b != 0
    ensures (a - a % b) % b == 0
    ensures (a - (a % b + b)) % b == 0
  {
    var q := a / b;
    assert a - a % b == q * b;
    MultipleOfDivisor(q, b);
    assert a - (a % b + b) == (q - 1) * b;
    MultipleOfDivisor(q - 1, b);
  }

  /** Python's `a % b` for b != 0: the remainder takes the divisor's sign. */
  function PyMod(a: int, b: int): (m: int)
    requires b != 0
    ensures b > 0 ==> 0 <= m < b
    ensures b < 0 ==> b < m <= 0
    ensures (a - m) % b == 0
  {
    RemainderCongruent(a, b);
    if b > 0 || a % b == 0 then a % b else a % b + b
  }

  /** The whole target width rounded up to a multiple of the pad factor. */
  function PaddedWidth(whole: int, padFactor: int): int
    requires padFactor != 0
  {
    if PyMod(whole, padFactor) == 0 then whole else whole + (padFactor - PyMod(whole, padFactor))
  }

  /** For a positive pad factor the padded width is the least multiple of it not below
      the whole width. */
  lemma PaddedWidthBounds(whole: int, padFactor: int)
    requires padFactor > 0
    ensures PaddedWidth(whole, padFactor) % padFactor == 0
    ensures whole <= PaddedWidth(whole, padFactor) < whole + padFactor
  {
    var q := whole / padFactor;
    var m := whole % padFactor;
    assert whole == q * padFactor + m;
    if m != 0 {
      assert PaddedWidth(whole, padFactor) == (q + 1) * padFactor;
      MultipleMod(q + 1, padFactor);
    }
  }

  /** The resize window `_resample_digitized_active_regions` computes. */
  datatype Resample = Resample(targetWidth: int, targetPad: real, srcLeft: real, srcWidth: real)

  function ActiveRegionResample(clipWidth: int, srcActive: real, targetActive: real, padFactor: int)
    : (r: Result<Resample, SamplingError>)
    ensures r.Err? <==> padFactor == 0 || targetActive == 0.0
    ensures padFactor == 0 ==> r == Err(ZeroPadFactor)
  {
    if padFactor == 0 then Err(ZeroPadFactor)
    else
      var whole := Ceil(targetActive);
      var targetWidth := PaddedWidth(whole, padFactor);
      var targetPad := targetWidth as real - targetActive;
      if targetActive == 0.0 then Err(ZeroTargetActive)
      else
        var srcPad := (srcActive / targetActive) * targetPad;
        var srcLeftPad := srcPad / 2.0;
        var originalPad := clipWidth as real - srcActive;
        var originalLeftPad := originalPad / 2.0;
        Ok(Resample(targetWidth, targetPad, originalLeftPad - srcLeftPad, srcActive + srcPad))
  }

  /** With a positive pad factor the output width is a multiple of it, at least the
      rounded-up active width and less than one factor above it, so the pad is never
      negative. */
  lemma TargetWidthPadded(clipWidth: int, srcActive: real, targetActive: real, padFactor: int)
    requires padFactor > 0 && targetActive != 0.0
    ensures var r := ActiveRegionResample(clipWidth, srcActive, targetActive, padFactor).value;
      r.targetWidth % padFactor == 0
      && Ceil(targetActive) <= r.targetWidth < Ceil(targetActive) + padFactor
      && r.targetPad >= 0.0
  {
    PaddedWidthBounds(Ceil(targetActive), padFactor);
  }

  /** The source window is centred on the source line, and it spans the source samples
      that map onto the whole padded output width at the active-region scale. */
  lemma ResampleWindow(clipWidth: int, srcActive: real, targetActive: real, padFactor: int)
    requires padFactor != 0 && targetActive != 0.0
    ensures var r := ActiveRegionResample(clipWidth, srcActive, targetActive, padFactor).value;
      r.srcLeft + r.srcWidth / 2.0 == clipWidth as real / 2.0
    ensures var r := ActiveRegionResample(clipWidth, srcActive, targetActive, padFactor).value;
      r.srcWidth * targetActive == srcActive * r.targetWidth as real
  {
    var r := ActiveRegionResample(clipWidth, srcActive, targetActive, padFactor).value;
    var tw := r.targetWidth as real;
    var srcPad := (srcActive / targetActive) * (tw - targetActive);
    assert r.srcWidth == srcActive + srcPad;
    assert srcPad * targetActive == srcActive * (tw - targetActive);
  }
}

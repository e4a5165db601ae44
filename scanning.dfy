/** vsfieldkit/scanning.py: phosphor (interlaced-scan) deinterlacing as the sequencing of
    fields. A field is never looked into: it is a reference to the field SeparateFields
    produced, and every edit the filters make to it is recorded symbolically. */
module Scanning {
  import opened Wrappers
  import opened Host
  import opened Types
  import Util
  import Arith

  /** Where a field comes from: the clip's SeparateFields output, the warm-up frame's, or
      the decay base frame's. */
  datatype FieldRef = ClipField(n: nat) | WarmupField(n: nat) | DecayField(n: nat)

  /** A field frame of the phosphor list, with the edits made to it. */
  datatype Picture =
    | Plain(ref: FieldRef)
    | ChromaFrom(luma: Picture, chroma: Picture)                          // ShufflePlanes (luma, chroma, chroma)
    | Decayed(older: Picture, toward: Picture, level: int, planes: seq<nat>)  // MaskedMerge with a flat mask
    | Brightened(newer: Picture, factor: real)                            // util.brighten

  // ---------------------------------------------------------------------
  // The field list (scanning.py:128-159).

  /** The clip field shown at position p >= 2 of the list: the recycled fields are
      f0 f1 f0 f1 f2 f3 f2 f3 ..., and position p holds recycled entry p - 1. */
  function RecycledField(p: nat): nat
    requires p >= 1
  {
    RecycledSource(p - 1)
  }

  /** Entry n of the recycled fields: clip field 2 * (n / 4) + n % 2. */
  function RecycledSource(n: nat): nat {
    2 * (n / 4) + n % 2
  }

  lemma TailCountZero(offsets: seq<nat>)
    ensures TailCount(offsets, 0) == 0
  {
    TailCountOfPrefixClosed(offsets, 0, 0);
  }

  /** `recycled_fields[0] + warmup + recycled_fields[1:]`, with the recycled fields
      `SelectEvery(cycle=2, offsets=(0, 1, 0, 1))[:-1]`. */
  function PhosphorFields<T>(fields: seq<T>, warmup: T): (r: seq<T>)
    requires |fields| >= 2 && |fields| % 2 == 0
    ensures |r| == 2 * |fields|
    ensures r[0] == fields[0] && r[1] == warmup
    ensures forall p :: 2 <= p < |r| ==> RecycledField(p) < |fields| && r[p] == fields[RecycledField(p)]
  {
    var recycled := RecycledFields(fields);
    var trimmed := recycled[..|recycled| - 1];
    var r := [trimmed[0]] + [warmup] + trimmed[1..];
    assert forall p :: 2 <= p < |r| ==> r[p] == recycled[p - 1];
    r
  }

  /** `SelectEvery(cycle=2, offsets=(0, 1, 0, 1))`: every pair of fields shown twice. */
  function RecycledFields<T>(fields: seq<T>): (r: seq<T>)
    requires |fields| >= 2 && |fields| % 2 == 0
    ensures |r| == 2 * |fields|
    ensures forall n :: 0 <= n < |r| ==> RecycledSource(n) < |fields| && r[n] == fields[RecycledSource(n)]
  {
    TailCountZero([0, 1, 0, 1]);
    var r := SelectEvery(fields, 2, [0, 1, 0, 1]);
    assert |fields| == 2 * (|fields| / 2);
    assert |r| == (|fields| / 2) * 4;
    forall n | 0 <= n < |r| ensures RecycledSource(n) < |fields| && r[n] == fields[RecycledSource(n)] {
      RecycledIndex(n);
    }
    r
  }

  /** Entry n of `SelectEvery(cycle=2, offsets=(0, 1, 0, 1))` reads clip field
      RecycledSource(n). */
  lemma RecycledIndex(n: nat)
    ensures SelectEveryIndex(n, 2, [0, 1, 0, 1]) == RecycledSource(n)
  {
    var q, r := n / 4, n % 4;
    assert n == 4 * q + r;
    Arith.DivModUnique(n, 2, 2 * q + r / 2, r % 2);
    assert [0, 1, 0, 1][r] == r % 2;
  }

  /** The slot of frame m that holds its newer field, in the list as built. */
  function CodeNewSlot(m: nat): nat {
    if m == 0 then 0 else if m % 2 == 1 then 2 * m else 2 * m + 1
  }

  /** The slot of frame m that holds its older field (the warm-up field for frame 0). */
  function CodeOldSlot(m: nat): nat {
    if m == 0 then 1 else if m % 2 == 1 then 2 * m + 1 else 2 * m
  }

  /** Woven frame m (positions 2m and 2m + 1) shows clip fields m - 1 and m; frame 0
      shows the first field and the warm-up field. */
  lemma CodeFrameFields<T>(fields: seq<T>, warmup: T, m: nat)
    requires |fields| >= 2 && |fields| % 2 == 0 && m < |fields|
    ensures {CodeNewSlot(m), CodeOldSlot(m)} == {2 * m, 2 * m + 1}
    ensures PhosphorFields(fields, warmup)[CodeNewSlot(m)] == fields[m]
    ensures PhosphorFields(fields, warmup)[CodeOldSlot(m)] == if m == 0 then warmup else fields[m - 1]
  {
    if m > 0 {
      CodeSlotsRecycled(m);
    }
  }

  /** Both slots of frame m lie in the pair 2m, 2m + 1. */
  lemma SlotRange(m: nat)
    ensures 2 * m <= CodeNewSlot(m) <= 2 * m + 1
    ensures 2 * m <= CodeOldSlot(m) <= 2 * m + 1
  {
  }

  /** From frame 1 on, the newer slot recycles field m and the older slot field m - 1. */
  lemma CodeSlotsRecycled(m: nat)
    requires m >= 1
    ensures CodeNewSlot(m) >= 2 && RecycledField(CodeNewSlot(m)) == m
    ensures CodeOldSlot(m) >= 2 && RecycledField(CodeOldSlot(m)) == m - 1
  {
    var j := m / 2;
    if m % 2 == 1 {
      assert m == 2 * j + 1;
      assert CodeNewSlot(m) == 4 * j + 1 + 1 && CodeOldSlot(m) == 4 * j + 2 + 1;
      RecycledAt(j, 1);
      RecycledAt(j, 2);
    } else {
      assert m == 2 * j && j >= 1;
      assert CodeNewSlot(m) == 4 * j + 0 + 1 && CodeOldSlot(m) == 4 * (j - 1) + 3 + 1;
      RecycledAt(j, 0);
      RecycledAt(j - 1, 3);
    }
  }

  /** Position 4q + r + 1 of the list recycles field 2q + r % 2. */
  lemma RecycledAt(q: nat, r: nat)
    requires r < 4
    ensures RecycledField(4 * q + r + 1) == 2 * q + r % 2
  {
    Arith.DivModUnique(4 * q + r, 4, q, r);
    Arith.DivModUnique(4 * q + r, 2, 2 * q + r / 2, r % 2);
  }

  /** Every position after the warm-up pair belongs to a frame m >= 1 and holds that frame's
      newer or older field. */
  lemma RecycledFieldSlot(p: nat)
    requires p >= 2
    ensures var m := p / 2; m >= 1 && (p == CodeNewSlot(m) || p == CodeOldSlot(m))
    ensures var m := p / 2; p == CodeNewSlot(m) ==> RecycledField(p) == m
    ensures var m := p / 2; p == CodeOldSlot(m) ==> RecycledField(p) == m - 1
  {
    var q := (p - 1) / 4;
    var r := (p - 1) % 4;
    assert p - 1 == 4 * q + r;
    if r == 0 {
      assert p / 2 == 2 * q;
    } else if r == 1 {
      assert p / 2 == 2 * q + 1;
    } else if r == 2 {
      assert p / 2 == 2 * q + 1;
    } else {
      assert p / 2 == 2 * q + 2;
    }
  }

  /** With distinct fields, clip field j sits at exactly two positions, its own frame's
      newer slot and the next frame's older slot, except the last field, which sits at one. */
  lemma FieldSlots<T>(fields: seq<T>, warmup: T, j: nat)
    requires |fields| >= 2 && |fields| % 2 == 0 && j < |fields|
    requires forall a, b :: 0 <= a < b < |fields| ==> fields[a] != fields[b]
    requires warmup !in fields
    ensures var P := PhosphorFields(fields, warmup);
      (set p | 0 <= p < |P| && P[p] == fields[j])
        == if j + 1 < |fields| then {CodeNewSlot(j), CodeOldSlot(j + 1)} else {CodeNewSlot(j)}
    ensures j + 1 < |fields| ==> CodeNewSlot(j) != CodeOldSlot(j + 1)
  {
    var P := PhosphorFields(fields, warmup);
    var at := set p | 0 <= p < |P| && P[p] == fields[j];
    var expected := if j + 1 < |fields| then {CodeNewSlot(j), CodeOldSlot(j + 1)} else {CodeNewSlot(j)};
    forall p | p in expected ensures p in at {
      SlotHolds(fields, warmup, j, p);
    }
    forall p | p in at ensures p in expected {
      FieldPosition(fields, warmup, j, p);
    }
    assert at == expected;
    SlotRange(j);
    SlotRange(j + 1);
  }

  /** Field j's own newer slot and the next frame's older slot both hold field j. */
  lemma SlotHolds<T>(fields: seq<T>, warmup: T, j: nat, p: nat)
    requires |fields| >= 2 && |fields| % 2 == 0 && j < |fields|
    requires p == CodeNewSlot(j) || (j + 1 < |fields| && p == CodeOldSlot(j + 1))
    ensures p < 2 * |fields| && PhosphorFields(fields, warmup)[p] == fields[j]
  {
    if p == CodeNewSlot(j) {
      CodeFrameFields(fields, warmup, j);
      SlotRange(j);
    } else {
      CodeFrameFields(fields, warmup, j + 1);
      SlotRange(j + 1);
    }
  }

  /** The warm-up field sits at position 1 only. */
  lemma WarmupSlot<T>(fields: seq<T>, warmup: T)
    requires |fields| >= 2 && |fields| % 2 == 0
    requires warmup !in fields
    ensures var P := PhosphorFields(fields, warmup);
      (set p | 0 <= p < |P| && P[p] == warmup) == {1}
  {
    var P := PhosphorFields(fields, warmup);
    var warm := set p | 0 <= p < |P| && P[p] == warmup;
    forall p | p in warm ensures p == 1 {
      WarmupPosition(fields, warmup, p);
    }
    assert 1 in warm;
  }

  /** A position holding clip field j is j's own newer slot or the next frame's older slot. */
  lemma FieldPosition<T>(fields: seq<T>, warmup: T, j: nat, p: nat)
    requires |fields| >= 2 && |fields| % 2 == 0 && j < |fields|
    requires forall a, b :: 0 <= a < b < |fields| ==> fields[a] != fields[b]
    requires warmup !in fields
    requires p < 2 * |fields| && PhosphorFields(fields, warmup)[p] == fields[j]
    ensures p == CodeNewSlot(j) || (j + 1 < |fields| && p == CodeOldSlot(j + 1))
  {
    if p >= 2 {
      RecycledFieldSlot(p);
      CodeFrameFields(fields, warmup, p / 2);
    }
  }

  /** Only position 1 holds the warm-up field. */
  lemma WarmupPosition<T>(fields: seq<T>, warmup: T, p: nat)
    requires |fields| >= 2 && |fields| % 2 == 0
    requires warmup !in fields
    requires p < 2 * |fields| && PhosphorFields(fields, warmup)[p] == warmup
    ensures p == 1
  {
  }

  /** The list as its comments describe it: after the warm-up pair, each woven pair holds
      the field of even index first, so position p >= 2 holds a field of parity p % 2. It is
      the built list with every pair after the first swapped. */
  function IntendedPhosphorFields<T>(fields: seq<T>, warmup: T): (r: seq<T>)
    requires |fields| >= 2 && |fields| % 2 == 0
    ensures |r| == 2 * |fields|
    ensures forall p :: 0 <= p < |r| ==> r[p] == PhosphorFields(fields, warmup)[if p < 2 then p else Partner(p)]
  {
    var built := PhosphorFields(fields, warmup);
    seq(|built|, p requires 0 <= p < |built| => built[if p < 2 then p else Partner(p)])
  }

  /** The other position of a woven pair. */
  function Partner(p: nat): nat {
    if p % 2 == 0 then p + 1 else p - 1
  }

  /** The slot of frame m the cadence treats as fresh (p % 4 in {0, 3}). */
  function FreshSlot(m: nat): nat {
    if m % 2 == 0 then 2 * m else 2 * m + 1
  }

  /** The slot of frame m the cadence treats as old (p % 4 in {1, 2}). */
  function OldSlot(m: nat): nat {
    if m % 2 == 0 then 2 * m + 1 else 2 * m
  }

  /** In the intended list frame m shows its newer field in the cadence's fresh slot and its
      older field (the warm-up field for frame 0) in the cadence's old slot. */
  lemma IntendedLayoutEditsOlderField<T>(fields: seq<T>, warmup: T, m: nat)
    requires |fields| >= 2 && |fields| % 2 == 0 && m < |fields|
    ensures {FreshSlot(m), OldSlot(m)} == {2 * m, 2 * m + 1}
    ensures FreshPosition(FreshSlot(m)) && !FreshPosition(OldSlot(m))
    ensures IntendedPhosphorFields(fields, warmup)[FreshSlot(m)] == fields[m]
    ensures IntendedPhosphorFields(fields, warmup)[OldSlot(m)] == if m == 0 then warmup else fields[m - 1]
  {
    SlotsOfFrame(m);
    CodeFrameFields(fields, warmup, m);
    var built := PhosphorFields(fields, warmup);
    var intended := IntendedPhosphorFields(fields, warmup);
    if m == 0 {
      assert intended[0] == built[0] && intended[1] == built[1];
    } else {
      SlotsSwapped(m);
      assert intended[FreshSlot(m)] == built[CodeNewSlot(m)];
      assert intended[OldSlot(m)] == built[CodeOldSlot(m)];
    }
  }

  /** From frame 1 on, the cadence's slots are the built list's slots exchanged. */
  lemma SlotsSwapped(m: nat)
    requires m >= 1
    ensures OldSlot(m) == CodeNewSlot(m) && FreshSlot(m) == CodeOldSlot(m)
    ensures FreshSlot(m) >= 2 && Partner(FreshSlot(m)) == CodeNewSlot(m)
    ensures OldSlot(m) >= 2 && Partner(OldSlot(m)) == CodeOldSlot(m)
  {
    Arith.DivModUnique(2 * m, 2, m, 0);
    Arith.DivModUnique(2 * m + 1, 2, m, 1);
  }

  /** In the list as built, from frame 1 on, the slot the cadence treats as old holds the
      frame's newer field and the fresh slot its older one. */
  lemma CodeLayoutEditsNewerField<T>(fields: seq<T>, warmup: T, m: nat)
    requires |fields| >= 2 && |fields| % 2 == 0 && 1 <= m < |fields|
    ensures !FreshPosition(OldSlot(m)) && FreshPosition(FreshSlot(m))
    ensures PhosphorFields(fields, warmup)[OldSlot(m)] == fields[m]
    ensures PhosphorFields(fields, warmup)[FreshSlot(m)] == fields[m - 1]
  {
    SlotsOfFrame(m);
    SlotsSwapped(m);
    CodeFrameFields(fields, warmup, m);
  }

  // ---------------------------------------------------------------------
  // The edit cadence (scanning.py:162-340).

  /** Positions 0 and 3 of every four are the cadence's fresh fields, 1 and 2 its old fields. */
  predicate FreshPosition(e: nat) {
    e % 4 == 0 || e % 4 == 3
  }

  /** Where position e of the edit range lands in its half (fresh or old) of the split. */
  function CadenceIndex(e: nat): nat {
    2 * (e / 4) + (if e % 4 == 0 || e % 4 == 1 then 0 else 1)
  }

  lemma CadenceOffsetsClosed(len: nat)
    ensures TailPrefixClosed([0, 3], len % 4) && TailPrefixClosed([1, 2], len % 4)
    ensures len % 2 == 0 ==> TailPrefixClosed([0, 1, 3, 2], len % 4)
  {
  }

  lemma CadenceHalfLength(len: nat)
    requires len % 2 == 0
    ensures SelectEveryLength(len, 4, [0, 3]) == len / 2
    ensures SelectEveryLength(len, 4, [1, 2]) == len / 2
    ensures SelectEveryLength(len, 4, [0, 1, 3, 2]) == len
  {
    var t := len % 4;
    if t == 0 {
      TailCountZero([0, 3]);
      TailCountZero([1, 2]);
      TailCountZero([0, 1, 3, 2]);
    } else {
      assert t == 2;
      TailCountOfPrefixClosed([0, 3], 2, 1);
      TailCountOfPrefixClosed([1, 2], 2, 1);
      TailCountOfPrefixClosed([0, 1, 3, 2], 2, 2);
    }
  }

  /** `SelectEvery(cycle=4, offsets=(0, 3))` of an even-length range: its fresh half. */
  function FreshHalf<T>(edit: seq<T>): (r: seq<T>)
    requires |edit| % 2 == 0
    ensures |r| == |edit| / 2
    ensures forall e :: 0 <= e < |edit| && FreshPosition(e) ==> CadenceIndex(e) < |r| && r[CadenceIndex(e)] == edit[e]
  {
    CadenceOffsetsClosed(|edit|);
    CadenceHalfLength(|edit|);
    var r := SelectEvery(edit, 4, [0, 3]);
    assert forall e :: 0 <= e < |edit| && FreshPosition(e) ==> CadenceIndex(e) < |r| && r[CadenceIndex(e)] == edit[e] by {
      forall e | 0 <= e < |edit| && FreshPosition(e) ensures CadenceIndex(e) < |r| && r[CadenceIndex(e)] == edit[e] {
        CadenceIndexBound(|edit|, e);
        SelectEveryPosition(e, 2, [0, 3], if e % 4 == 0 then 0 else 1);
      }
    }
    r
  }

  /** `SelectEvery(cycle=4, offsets=(1, 2))` of an even-length range: its old half. */
  function OldHalf<T>(edit: seq<T>): (r: seq<T>)
    requires |edit| % 2 == 0
    ensures |r| == |edit| / 2
    ensures forall e :: 0 <= e < |edit| && !FreshPosition(e) ==> CadenceIndex(e) < |r| && r[CadenceIndex(e)] == edit[e]
  {
    CadenceOffsetsClosed(|edit|);
    CadenceHalfLength(|edit|);
    var r := SelectEvery(edit, 4, [1, 2]);
    assert forall e :: 0 <= e < |edit| && !FreshPosition(e) ==> CadenceIndex(e) < |r| && r[CadenceIndex(e)] == edit[e] by {
      forall e | 0 <= e < |edit| && !FreshPosition(e) ensures CadenceIndex(e) < |r| && r[CadenceIndex(e)] == edit[e] {
        CadenceIndexBound(|edit|, e);
        SelectEveryPosition(e, 2, [1, 2], if e % 4 == 1 then 0 else 1);
      }
    }
    r
  }

  /** Position e of a cycle of four taken with two offsets is output CadenceIndex(e). */
  lemma SelectEveryPosition(e: nat, k: nat, offsets: seq<nat>, i: nat)
    requires k == 2 && (offsets == [0, 3] || offsets == [1, 2]) && i < 2 && offsets[i] == e % 4
    ensures CadenceIndex(e) % 2 == i
    ensures SelectEveryIndex(CadenceIndex(e), 4, offsets) == e
  {
    var c := CadenceIndex(e);
    assert c == 2 * (e / 4) + i;
    assert c / 2 == e / 4 && c % 2 == i;
  }

  lemma CadenceIndexBound(len: nat, e: nat)
    requires len % 2 == 0 && e < len
    ensures CadenceIndex(e) < len / 2
  {
    var q, h := e / 4, len / 2;
    assert e == 4 * q + e % 4;
    assert len == 2 * h;
    if e % 4 >= 2 {
      assert 2 * h > 4 * q + 2;
      assert CadenceIndex(e) == 2 * q + 1 < h;
    } else {
      assert 2 * h > 4 * q;
      assert CadenceIndex(e) == 2 * q < h;
    }
  }

  /** `Interleave((fresh, old))` re-ordered by `SelectEvery(cycle=4, offsets=(0, 1, 3, 2))`:
      every position gets back the frame its half took from it. */
  function Reorder<T>(freshPart: seq<T>, oldPart: seq<T>): (r: seq<T>)
    requires |freshPart| == |oldPart|
    ensures |r| == 2 * |freshPart|
    ensures forall e :: 0 <= e < |r| ==> CadenceIndex(e) < |freshPart|
    ensures forall e :: 0 <= e < |r| ==>
      r[e] == if FreshPosition(e) then freshPart[CadenceIndex(e)] else oldPart[CadenceIndex(e)]
  {
    var interleaved := Interleave(freshPart, oldPart);
    CadenceOffsetsClosed(|interleaved|);
    CadenceHalfLength(|interleaved|);
    var r := SelectEvery(interleaved, 4, [0, 1, 3, 2]);
    assert forall e :: 0 <= e < |r| ==> (CadenceIndex(e) < |freshPart| &&
      r[e] == if FreshPosition(e) then freshPart[CadenceIndex(e)] else oldPart[CadenceIndex(e)]) by {
      forall e | 0 <= e < |r|
        ensures CadenceIndex(e) < |freshPart|
        ensures r[e] == if FreshPosition(e) then freshPart[CadenceIndex(e)] else oldPart[CadenceIndex(e)]
      {
        CadenceIndexBound(|r|, e);
        ReorderPosition(e);
      }
    }
    r
  }

  /** The interleaved frame SelectEvery(4, (0, 1, 3, 2)) picks for position e. */
  lemma ReorderPosition(e: nat)
    ensures var k := SelectEveryIndex(e, 4, [0, 1, 3, 2]);
      k / 2 == CadenceIndex(e) && (k % 2 == 0 <==> FreshPosition(e))
  {
    var q := e / 4;
    var k := SelectEveryIndex(e, 4, [0, 1, 3, 2]);
    assert k == 4 * q + [0, 1, 3, 2][e % 4];
  }

  /** Where an old position takes its chroma from: the fresh position of its cycle half
      (1 from 0, 2 from 3). */
  function ChromaSource(e: nat): nat {
    if e % 4 == 1 then e - 1 else e + 1
  }

  /** The edit range: everything from `offset` on; it must be non-empty and of even
      length for the two halves to interleave. */
  predicate EditableRange(len: nat, offset: nat) {
    offset < len && (len - offset) % 2 == 0
  }

  /** `clip[:offset] + edited`: positions before `offset` keep their frame, the rest come
      from the edited range in order. */
  function Splice<T>(phosphor: seq<T>, offset: nat, edited: seq<T>): (r: seq<T>)
    requires offset <= |phosphor| && |edited| == |phosphor| - offset
    ensures |r| == |phosphor|
    ensures forall p :: 0 <= p < offset ==> r[p] == phosphor[p]
    ensures forall p :: offset <= p < |r| ==> r[p] == edited[p - offset]
  {
    phosphor[..offset] + edited
  }

  /** The chroma repeat on the edit range alone. */
  function RepeatChromaInRange(edit: seq<Picture>): (r: seq<Picture>)
    requires |edit| % 2 == 0
    ensures |r| == |edit|
    ensures forall e :: 0 <= e < |r| && FreshPosition(e) ==> r[e] == edit[e]
    ensures forall e :: 0 <= e < |r| && !FreshPosition(e) ==> ChromaSource(e) < |edit|
    ensures forall e :: 0 <= e < |r| && !FreshPosition(e) ==> r[e] == ChromaFrom(edit[e], edit[ChromaSource(e)])
  {
    var source := FreshHalf(edit);
    var target := OldHalf(edit);
    var overwritten := seq(|target|, i requires 0 <= i < |target| => ChromaFrom(target[i], source[i]));
    var r := Reorder(source, overwritten);
    assert forall e :: 0 <= e < |r| && !FreshPosition(e) ==> ChromaSource(e) < |edit| && r[e] == ChromaFrom(edit[e], edit[ChromaSource(e)]) by {
      forall e | 0 <= e < |r| && !FreshPosition(e)
        ensures ChromaSource(e) < |edit| && r[e] == ChromaFrom(edit[e], edit[ChromaSource(e)])
      {
        ChromaSourceInRange(|edit|, e);
        assert source[CadenceIndex(e)] == edit[ChromaSource(e)];
      }
    }
    r
  }

  /** `_repeat_new_field_chroma`: each old position keeps its luma and takes the chroma of
      the fresh position beside it; fresh positions and everything before `offset` pass
      through. */
  function RepeatNewFieldChroma(phosphor: seq<Picture>, offset: nat): (r: seq<Picture>)
    requires EditableRange(|phosphor|, offset)
    ensures |r| == |phosphor|
    ensures forall p :: 0 <= p < |r| && (p < offset || FreshPosition(p - offset)) ==> r[p] == phosphor[p]
    ensures forall p {:trigger r[p]} :: offset <= p < |r| && !FreshPosition(p - offset) ==>
      (offset + ChromaSource(p - offset) < |r| && r[p] == ChromaFrom(phosphor[p], phosphor[offset + ChromaSource(p - offset)]))
  {
    var edit := phosphor[offset..];
    Splice(phosphor, offset, RepeatChromaInRange(edit))
  }

  lemma ChromaSourceInRange(len: nat, e: nat)
    requires len % 2 == 0 && e < len && !FreshPosition(e)
    ensures ChromaSource(e) < len && FreshPosition(ChromaSource(e))
    ensures CadenceIndex(ChromaSource(e)) == CadenceIndex(e)
  {
    var q := e / 4;
    assert e == 4 * q + e % 4;
    var s := ChromaSource(e);
    if e % 4 == 1 {
      assert s == 4 * q;
    } else {
      assert s == 4 * q + 3;
    }
  }

  // ---------------------------------------------------------------------
  // Decay (scanning.py:212-292).

  /** Python's `round`: to the nearest integer, ties to the even one. */
  function RoundHalfEven(x: real): (n: int)
    ensures (n as real) - 0.5 <= x <= (n as real) + 0.5
  {
    var f := x.Floor;
    var d := x - f as real;
    if d < 0.5 then f
    else if d > 0.5 then f + 1
    else if f % 2 == 0 then f else f + 1
  }

  /** The decay mask's value: `round(factor * mask_max)`, where mask_max is the largest
      sample value of the clip's bit depth (1.0 for float samples). */
  function MaskLevel(f: VideoFormat, factor: real): int {
    RoundHalfEven(factor * MaskMax(f))
  }

  /** `mask_max`: the largest sample value of the clip's bit depth, 1.0 for float samples. */
  function MaskMax(f: VideoFormat): (m: real)
    ensures 0.0 <= m && m.Floor as real == m
    ensures f.sampleType == Integer ==> m.Floor == Pow2(f.bitsPerSample) - 1
  {
    if f.sampleType == Float then 1.0 else (Pow2(f.bitsPerSample) - 1) as real
  }

  /** For integer samples and a factor between 0 and 1 the mask stays within the sample
      range, is 0 at factor 0 and full at factor 1. */
  lemma MaskLevelBounds(f: VideoFormat, factor: real)
    requires f.sampleType == Integer && 0.0 <= factor <= 1.0
    ensures 0 <= MaskLevel(f, factor) <= Pow2(f.bitsPerSample) - 1
    ensures factor == 0.0 ==> MaskLevel(f, factor) == 0
    ensures factor == 1.0 ==> MaskLevel(f, factor) == Pow2(f.bitsPerSample) - 1
  {
    var m := MaskMax(f);
    var top := Pow2(f.bitsPerSample) - 1;
    assert m.Floor == top;
    MaskWithin(factor, m);
  }

  /** Rounding a fraction between 0 and 1 of a whole m stays within [0, m], and gives 0
      and m at the ends. */
  lemma MaskWithin(factor: real, m: real)
    requires 0.0 <= factor <= 1.0 && 0.0 <= m && m.Floor as real == m
    ensures 0 <= RoundHalfEven(factor * m) <= m.Floor
    ensures factor == 0.0 ==> RoundHalfEven(factor * m) == 0
    ensures factor == 1.0 ==> RoundHalfEven(factor * m) == m.Floor
  {
    ScaleWithin(factor, m);
    RoundWithinWhole(factor * m, m);
    if factor == 0.0 {
      assert factor * m == 0.0;
    }
    if factor == 1.0 {
      assert factor * m == m;
    }
  }

  lemma RoundWithinWhole(x: real, m: real)
    requires 0.0 <= x <= m && m.Floor as real == m
    ensures 0 <= RoundHalfEven(x) <= m.Floor
    ensures x == 0.0 ==> RoundHalfEven(x) == 0
    ensures x == m ==> RoundHalfEven(x) == m.Floor
  {
    RoundWithin(x, 0, m.Floor);
  }

  lemma ScaleWithin(factor: real, m: real)
    requires 0.0 <= factor <= 1.0 && 0.0 <= m
    ensures 0.0 <= factor * m <= m
  {
    assert (1.0 - factor) * m >= 0.0;
  }

  /** Rounding stays within integer bounds of its argument and keeps an integer. */
  lemma RoundWithin(x: real, lo: int, hi: int)
    requires lo as real <= x <= hi as real
    ensures lo <= RoundHalfEven(x) <= hi
    ensures x == lo as real ==> RoundHalfEven(x) == lo
    ensures x == hi as real ==> RoundHalfEven(x) == hi
  {
    var n := RoundHalfEven(x);
    assert lo as real < (n as real) + 1.0;
    assert (n as real) - 1.0 < hi as real;
    if x == lo as real {
      assert x.Floor == lo;
    }
    if x == hi as real {
      assert x.Floor == hi;
    }
  }

  /** `decay_planes`: every plane when chroma is decayed too, else luma only. */
  function DecayPlanes(f: VideoFormat, includeChroma: bool): (planes: seq<nat>)
    ensures includeChroma ==> |planes| == f.numPlanes && forall i :: 0 <= i < |planes| ==> planes[i] == i
    ensures !includeChroma ==> planes == [0]
  {
    if includeChroma then seq(f.numPlanes, i requires 0 <= i < f.numPlanes => i) else [0]
  }

  /** The decay on the edit range alone. */
  function DecayInRange(edit: seq<Picture>, decayRange: seq<Picture>, level: int, planes: seq<nat>): (r: seq<Picture>)
    requires |edit| % 2 == 0 && |decayRange| == |edit|
    ensures |r| == |edit|
    ensures forall e :: 0 <= e < |r| && FreshPosition(e) ==> r[e] == edit[e]
    ensures forall e :: 0 <= e < |r| && !FreshPosition(e) ==> r[e] == Decayed(edit[e], decayRange[e], level, planes)
  {
    var freshPart := FreshHalf(edit);
    var oldPart := OldHalf(edit);
    var decayedOld := OldHalf(decayRange);
    var decayed := seq(|oldPart|, i requires 0 <= i < |oldPart| => Decayed(oldPart[i], decayedOld[i], level, planes));
    Reorder(freshPart, decayed)
  }

  /** `_decay_old_field`: each old position is merged toward the decay list's field at the
      same position, by the mask level, on the decay planes; the rest passes through. */
  function DecayOldField(phosphor: seq<Picture>, format: VideoFormat, factor: real, decayFields: seq<Picture>,
                         includeChroma: bool, offset: nat): (r: seq<Picture>)
    requires EditableRange(|phosphor|, offset) && |decayFields| == |phosphor|
    ensures |r| == |phosphor|
    ensures forall p :: 0 <= p < |r| && (p < offset || FreshPosition(p - offset)) ==> r[p] == phosphor[p]
    ensures forall p :: offset <= p < |r| && !FreshPosition(p - offset) ==>
      r[p] == Decayed(phosphor[p], decayFields[p], MaskLevel(format, factor), DecayPlanes(format, includeChroma))
  {
    var edited := DecayInRange(phosphor[offset..], decayFields[offset..], MaskLevel(format, factor), DecayPlanes(format, includeChroma));
    Splice(phosphor, offset, edited)
  }

  // ---------------------------------------------------------------------
  // Attack (scanning.py:295-340).

  /** The attack on the edit range alone. */
  function BrightenInRange(edit: seq<Picture>, factor: real): (r: seq<Picture>)
    requires |edit| % 2 == 0
    ensures |r| == |edit|
    ensures forall e :: 0 <= e < |r| && !FreshPosition(e) ==> r[e] == edit[e]
    ensures forall e :: 0 <= e < |r| && FreshPosition(e) ==> r[e] == Brightened(edit[e], factor)
  {
    var freshPart := FreshHalf(edit);
    var brightened := seq(|freshPart|, i requires 0 <= i < |freshPart| => Brightened(freshPart[i], factor));
    Reorder(brightened, OldHalf(edit))
  }

  /** `_brighten_fresh_fields`: each fresh position is brightened by the factor; the rest
      passes through. */
  function BrightenFreshFields(phosphor: seq<Picture>, factor: real, offset: nat): (r: seq<Picture>)
    requires EditableRange(|phosphor|, offset)
    ensures |r| == |phosphor|
    ensures forall p :: 0 <= p < |r| && (p < offset || !FreshPosition(p - offset)) ==> r[p] == phosphor[p]
    ensures forall p :: offset <= p < |r| && FreshPosition(p - offset) ==> r[p] == Brightened(phosphor[p], factor)
  {
    Splice(phosphor, offset, BrightenInRange(phosphor[offset..], factor))
  }

  // ---------------------------------------------------------------------
  // Warm-up field (scanning.py:45-49, 128-140).

  datatype ScanError = NoWarmupField

  /** The `for`/`else` search: the first warm-up field whose `_Field` differs from the
      clip's first field, or ValueError when every one matches. */
  method FindWarmupField(firstField: int, warmupFields: seq<int>) returns (r: Result<nat, ScanError>)
    ensures r.Ok? ==> r.value < |warmupFields| && warmupFields[r.value] != firstField
    ensures r.Ok? ==> forall i :: 0 <= i < r.value ==> warmupFields[i] == firstField
    ensures r.Err? <==> forall i :: 0 <= i < |warmupFields| ==> warmupFields[i] == firstField
  {
    for i := 0 to |warmupFields|
      invariant forall k :: 0 <= k < i ==> warmupFields[k] == firstField
    {
      if warmupFields[i] != firstField {
        return Ok(i);
      }
    }
    return Err(NoWarmupField);
  }

  /** The `_Field` values of the two fields SeparateFields makes of one frame. */
  function FrameFieldProps(tff: bool): seq<int> {
    [SeparatedFieldProp(0, tff), SeparatedFieldProp(1, tff)]
  }

  /** The warm-up field the search settles on: the second field when the warm-up frame has
      the clip's field order, the first when it has the other. */
  function WarmupIndex(clipTff: bool, warmupTff: bool): nat {
    if clipTff == warmupTff then 1 else 0
  }

  /** The search over a separated frame always succeeds, and picks the field on the other
      line parity from the clip's first field: the one that field leaves to fill. */
  lemma WarmupFieldOpposite(clipTff: bool, warmupTff: bool)
    ensures var i := WarmupIndex(clipTff, warmupTff);
      i < 2 && FrameFieldProps(warmupTff)[i] != SeparatedFieldProp(0, clipTff)
    ensures var i := WarmupIndex(clipTff, warmupTff);
      forall k :: 0 <= k < i ==> FrameFieldProps(warmupTff)[k] == SeparatedFieldProp(0, clipTff)
    ensures exists k :: 0 <= k < 2 && FrameFieldProps(warmupTff)[k] != SeparatedFieldProp(0, clipTff)
  {
    var i := WarmupIndex(clipTff, warmupTff);
    assert FrameFieldProps(warmupTff)[i] != SeparatedFieldProp(0, clipTff);
  }

  /** Where the warm-up frame comes from. */
  datatype WarmupSource = BlackWithFirstFrameProps | WarmupClipFrame(index: nat)

  /** Without a warm-up clip, a one-frame black clip carrying clip[0]'s props; otherwise the
      warm-up clip's last frame. A host clip is never empty. */
  function ChooseWarmup(warmupLength: Option<nat>): (w: WarmupSource)
    requires warmupLength.Some? ==> warmupLength.value >= 1
    ensures warmupLength.None? <==> w == BlackWithFirstFrameProps
    ensures warmupLength.Some? ==> w.WarmupClipFrame? && w.index + 1 == warmupLength.value
  {
    if warmupLength.None? then BlackWithFirstFrameProps else WarmupClipFrame(warmupLength.value - 1)
  }

  // ---------------------------------------------------------------------
  // Options and the scan itself (scanning.py:14-125).

  /** The options that steer the edits. */
  datatype ScanOptions = ScanOptions(
    scanning: ChromaSubsampleScanning,
    attackFactor: Option<real>,
    decayFactor: Option<real>)

  /** The chroma repeat runs only on upsampled chroma scanned SCAN_LATEST. */
  predicate RepeatsChroma(upsampled: bool, scanning: ChromaSubsampleScanning) {
    upsampled && scanning == ScanLatest
  }

  /** `if decay_factor:` — None and 0 skip the decay. */
  predicate Decays(decayFactor: Option<real>) {
    decayFactor.Some? && decayFactor.value != 0.0
  }

  /** Decay reaches the chroma planes under SCAN_UPSAMPLED or when nothing was upsampled. */
  predicate DecaysChroma(upsampled: bool, scanning: ChromaSubsampleScanning) {
    scanning == ScanUpsampled || !upsampled
  }

  /** Attack runs when the factor is given and is not 1. */
  predicate Attacks(attackFactor: Option<real>) {
    attackFactor.Some? && attackFactor.value != 1.0
  }

  /** The clip's separated fields, for a clip of `frames` frames. */
  function ClipFields(frames: nat): (r: seq<Picture>)
    ensures |r| == 2 * frames
    ensures forall k :: 0 <= k < |r| ==> r[k] == Plain(ClipField(k))
  {
    seq(2 * frames, k requires 0 <= k < 2 * frames => Plain(ClipField(k)))
  }

  /** The decay clip (the decay base frame repeated once per frame) separated. */
  function DecayClipFields(frames: nat): (r: seq<Picture>)
    ensures |r| == 2 * frames
    ensures forall k :: 0 <= k < |r| ==> r[k] == Plain(DecayField(k % 2))
  {
    seq(2 * frames, k requires 0 <= k < 2 * frames => Plain(DecayField(k % 2)))
  }

  /** The scannable format: vertical chroma subsampling removed. */
  function ScannableFormat(f: VideoFormat): VideoFormat {
    f.(subsamplingH := 0)
  }

  lemma EvenFourfold(n: nat)
    ensures EditableRange(4 * n, 0) <==> n >= 1
  {
    assert 4 * n == 2 * (2 * n);
    Arith.MultipleMod(2 * n, 2);
  }

  /** The list as built (scanning.py:128-159), for a clip of `frames` frames. */
  function BuiltFields(frames: nat, warmupIndex: nat): (r: seq<Picture>)
    requires frames >= 1
    ensures |r| == 4 * frames && EditableRange(|r|, 0)
  {
    EvenFourfold(frames);
    PhosphorFields(ClipFields(frames), Plain(WarmupField(warmupIndex)))
  }

  /** The decay clip's list, built the same way. The decay clip carries the clip's props,
      so its warm-up is always its own second field. */
  function BuiltDecayFields(frames: nat): (r: seq<Picture>)
    requires frames >= 1
    ensures |r| == 4 * frames
  {
    PhosphorFields(DecayClipFields(frames), Plain(DecayField(1)))
  }

  /** The chroma repeat step: only on upsampled chroma scanned SCAN_LATEST. */
  function RepeatStep(laid: seq<Picture>, upsampled: bool, o: ScanOptions): (r: seq<Picture>)
    requires EditableRange(|laid|, 0)
    ensures |r| == |laid|
  {
    if RepeatsChroma(upsampled, o.scanning) then RepeatNewFieldChroma(laid, 0) else laid
  }

  /** The decay step, toward the decay list laid out like the clip's. */
  function DecayStep(repeated: seq<Picture>, decayFields: seq<Picture>, scannable: VideoFormat, upsampled: bool,
                     o: ScanOptions): (r: seq<Picture>)
    requires EditableRange(|repeated|, 0) && |decayFields| == |repeated|
    ensures |r| == |repeated|
  {
    if Decays(o.decayFactor) then
      DecayOldField(repeated, scannable, o.decayFactor.value, decayFields, DecaysChroma(upsampled, o.scanning), 0)
    else repeated
  }

  /** The repeat, decay and attack steps of `scan_interlaced`, in that order, on a laid-out
      field list. */
  function EditFields(laid: seq<Picture>, decayFields: seq<Picture>, scannable: VideoFormat, upsampled: bool,
                      o: ScanOptions): (r: seq<Picture>)
    requires EditableRange(|laid|, 0) && |decayFields| == |laid|
    ensures |r| == |laid|
  {
    var decayed := DecayStep(RepeatStep(laid, upsampled, o), decayFields, scannable, upsampled, o);
    if Attacks(o.attackFactor) then BrightenFreshFields(decayed, o.attackFactor.value, 0) else decayed
  }

  /** What the edits make of the field in a frame's fresh slot: brightened under attack. */
  function FreshEdit(p: Picture, o: ScanOptions): Picture {
    if Attacks(o.attackFactor) then Brightened(p, o.attackFactor.value) else p
  }

  /** What the edits make of the field `p` in a frame's old slot: given the chroma of the
      fresh slot's field under SCAN_LATEST, then decayed toward the decay list's field at the
      same slot. */
  function OldEdit(p: Picture, newSlot: Picture, toward: Picture, scannable: VideoFormat, upsampled: bool,
                   o: ScanOptions): Picture {
    var withChroma := if RepeatsChroma(upsampled, o.scanning) then ChromaFrom(p, newSlot) else p;
    if Decays(o.decayFactor) then
      Decayed(withChroma, toward, MaskLevel(scannable, o.decayFactor.value), DecayPlanes(scannable, DecaysChroma(upsampled, o.scanning)))
    else withChroma
  }

  lemma SlotsOfFrame(m: nat)
    ensures {FreshSlot(m), OldSlot(m)} == {2 * m, 2 * m + 1}
    ensures FreshPosition(FreshSlot(m)) && !FreshPosition(OldSlot(m))
    ensures ChromaSource(OldSlot(m)) == FreshSlot(m)
  {
  }

  /** The cadence functions at one frame's two slots, with no offset. */
  lemma RepeatAtFrame(phosphor: seq<Picture>, m: nat)
    requires EditableRange(|phosphor|, 0) && 2 * m + 1 < |phosphor|
    ensures RepeatNewFieldChroma(phosphor, 0)[FreshSlot(m)] == phosphor[FreshSlot(m)]
    ensures RepeatNewFieldChroma(phosphor, 0)[OldSlot(m)] == ChromaFrom(phosphor[OldSlot(m)], phosphor[FreshSlot(m)])
  {
    SlotsOfFrame(m);
  }

  lemma DecayAtFrame(phosphor: seq<Picture>, format: VideoFormat, factor: real, decayFields: seq<Picture>,
                     includeChroma: bool, m: nat)
    requires EditableRange(|phosphor|, 0) && |decayFields| == |phosphor| && 2 * m + 1 < |phosphor|
    ensures DecayOldField(phosphor, format, factor, decayFields, includeChroma, 0)[FreshSlot(m)] == phosphor[FreshSlot(m)]
    ensures DecayOldField(phosphor, format, factor, decayFields, includeChroma, 0)[OldSlot(m)]
      == Decayed(phosphor[OldSlot(m)], decayFields[OldSlot(m)], MaskLevel(format, factor), DecayPlanes(format, includeChroma))
  {
    SlotsOfFrame(m);
  }

  lemma BrightenAtFrame(phosphor: seq<Picture>, factor: real, m: nat)
    requires EditableRange(|phosphor|, 0) && 2 * m + 1 < |phosphor|
    ensures BrightenFreshFields(phosphor, factor, 0)[FreshSlot(m)] == Brightened(phosphor[FreshSlot(m)], factor)
    ensures BrightenFreshFields(phosphor, factor, 0)[OldSlot(m)] == phosphor[OldSlot(m)]
  {
    SlotsOfFrame(m);
  }

  /** The edits act on each woven frame by slot alone: whatever the list holds there, the
      fresh slot is brightened and the old slot recoloured from the fresh one and decayed. */
  lemma EditedFrame(laid: seq<Picture>, decayFields: seq<Picture>, scannable: VideoFormat, upsampled: bool,
                    o: ScanOptions, m: nat)
    requires EditableRange(|laid|, 0) && |decayFields| == |laid| && 2 * m + 1 < |laid|
    ensures EditFields(laid, decayFields, scannable, upsampled, o)[FreshSlot(m)] == FreshEdit(laid[FreshSlot(m)], o)
    ensures EditFields(laid, decayFields, scannable, upsampled, o)[OldSlot(m)]
      == OldEdit(laid[OldSlot(m)], laid[FreshSlot(m)], decayFields[OldSlot(m)], scannable, upsampled, o)
  {
    SlotsOfFrame(m);
    var repeated := RepeatStep(laid, upsampled, o);
    if RepeatsChroma(upsampled, o.scanning) {
      RepeatAtFrame(laid, m);
    }
    var decayed := DecayStep(repeated, decayFields, scannable, upsampled, o);
    if Decays(o.decayFactor) {
      DecayAtFrame(repeated, scannable, o.decayFactor.value, decayFields, DecaysChroma(upsampled, o.scanning), m);
    }
    if Attacks(o.attackFactor) {
      BrightenAtFrame(decayed, o.attackFactor.value, m);
    }
  }

  /** The field list `scan_interlaced` weaves: the built list after the three optional edits. */
  function ScanFields(frames: nat, scannable: VideoFormat, upsampled: bool, warmupIndex: nat, o: ScanOptions): (r: seq<Picture>)
    requires frames >= 1
    ensures |r| == 4 * frames
  {
    EditFields(BuiltFields(frames, warmupIndex), BuiltDecayFields(frames), scannable, upsampled, o)
  }

  /** What the built list holds at the two slots of woven frame m, in the clip and in the
      decay clip. */
  lemma BuiltFrame(frames: nat, warmupIndex: nat, m: nat)
    requires frames >= 1 && m < 2 * frames
    ensures m == 0 ==> BuiltFields(frames, warmupIndex)[FreshSlot(m)] == Plain(ClipField(0))
    ensures m == 0 ==> BuiltFields(frames, warmupIndex)[OldSlot(m)] == Plain(WarmupField(warmupIndex))
    ensures m >= 1 ==> BuiltFields(frames, warmupIndex)[FreshSlot(m)] == Plain(ClipField(m - 1))
    ensures m >= 1 ==> BuiltFields(frames, warmupIndex)[OldSlot(m)] == Plain(ClipField(m))
    ensures BuiltDecayFields(frames)[OldSlot(m)] == Plain(DecayField(if m == 0 then 1 else m % 2))
  {
    if m == 0 {
      CodeFrameFields(ClipFields(frames), Plain(WarmupField(warmupIndex)), 0);
      CodeFrameFields(DecayClipFields(frames), Plain(DecayField(1)), 0);
    } else {
      CodeLayoutEditsNewerField(ClipFields(frames), Plain(WarmupField(warmupIndex)), m);
      CodeLayoutEditsNewerField(DecayClipFields(frames), Plain(DecayField(1)), m);
    }
  }

  /** Output frame m of the scan as the code builds it. Frame 0 weaves the first field,
      brightened under attack, with the warm-up field, recoloured and decayed. From frame 1
      on the old slot holds the newer field m: it takes the chroma of the older field m - 1
      and is decayed, and it is field m - 1 that is brightened. */
  lemma ScanFrameFields(frames: nat, scannable: VideoFormat, upsampled: bool, warmupIndex: nat, o: ScanOptions, m: nat)
    requires frames >= 1 && m < 2 * frames
    ensures {FreshSlot(m), OldSlot(m)} == {2 * m, 2 * m + 1}
    ensures m == 0 ==> (ScanFields(frames, scannable, upsampled, warmupIndex, o)[FreshSlot(m)]
      == FreshEdit(Plain(ClipField(0)), o))
    ensures m == 0 ==> (ScanFields(frames, scannable, upsampled, warmupIndex, o)[OldSlot(m)]
      == OldEdit(Plain(WarmupField(warmupIndex)), Plain(ClipField(0)), Plain(DecayField(1)), scannable, upsampled, o))
    ensures m >= 1 ==> (ScanFields(frames, scannable, upsampled, warmupIndex, o)[FreshSlot(m)]
      == FreshEdit(Plain(ClipField(m - 1)), o))
    ensures m >= 1 ==> (ScanFields(frames, scannable, upsampled, warmupIndex, o)[OldSlot(m)]
      == OldEdit(Plain(ClipField(m)), Plain(ClipField(m - 1)), Plain(DecayField(m % 2)), scannable, upsampled, o))
  {
    SlotsOfFrame(m);
    BuiltFrame(frames, warmupIndex, m);
    EditedFrame(BuiltFields(frames, warmupIndex), BuiltDecayFields(frames), scannable, upsampled, o, m);
  }

  /** With the list as built, from output frame 1 on, the chroma repeat gives the newer
      field the chroma of the older one. */
  lemma CodeLayoutRecoloursNewerField(frames: nat, warmupIndex: nat, m: nat)
    requires frames >= 1 && 1 <= m < 2 * frames
    ensures OldSlot(m) < 4 * frames
    ensures RepeatNewFieldChroma(BuiltFields(frames, warmupIndex), 0)[OldSlot(m)]
      == ChromaFrom(Plain(ClipField(m)), Plain(ClipField(m - 1)))
  {
    BuiltFrame(frames, warmupIndex, m);
    RepeatAtFrame(BuiltFields(frames, warmupIndex), m);
  }

  /** With the list as built, from output frame 1 on, the decay lands on the frame's newer
      field. */
  lemma CodeLayoutDecaysNewerField(frames: nat, format: VideoFormat, factor: real, includeChroma: bool,
                                   warmupIndex: nat, m: nat)
    requires frames >= 1 && 1 <= m < 2 * frames
    ensures OldSlot(m) < 4 * frames
    ensures DecayOldField(BuiltFields(frames, warmupIndex), format, factor, BuiltDecayFields(frames), includeChroma, 0)[OldSlot(m)]
      == Decayed(Plain(ClipField(m)), BuiltDecayFields(frames)[OldSlot(m)], MaskLevel(format, factor),
                 DecayPlanes(format, includeChroma))
  {
    CodeLayoutEditsNewerField(ClipFields(frames), Plain(WarmupField(warmupIndex)), m);
    DecayAtFrame(BuiltFields(frames, warmupIndex), format, factor, BuiltDecayFields(frames), includeChroma, m);
  }

  /** With the list as built, from output frame 1 on, the attack lands on the frame's older
      field. */
  lemma CodeLayoutBrightensOlderField(frames: nat, factor: real, warmupIndex: nat, m: nat)
    requires frames >= 1 && 1 <= m < 2 * frames
    ensures BrightenFreshFields(BuiltFields(frames, warmupIndex), factor, 0)[FreshSlot(m)]
      == Brightened(Plain(ClipField(m - 1)), factor)
  {
    CodeLayoutEditsNewerField(ClipFields(frames), Plain(WarmupField(warmupIndex)), m);
    BrightenAtFrame(BuiltFields(frames, warmupIndex), factor, m);
  }

  // ---------------------------------------------------------------------
  // The scan as the comments at scanning.py:173-181 and 230-235 describe it.

  /** The clip's fields in the corrected layout. */
  function IntendedFields(frames: nat, warmupIndex: nat): (r: seq<Picture>)
    requires frames >= 1
    ensures |r| == 4 * frames && EditableRange(|r|, 0)
  {
    EvenFourfold(frames);
    IntendedPhosphorFields(ClipFields(frames), Plain(WarmupField(warmupIndex)))
  }

  /** The decay clip's fields in the corrected layout. */
  function IntendedDecayFields(frames: nat): (r: seq<Picture>)
    requires frames >= 1
    ensures |r| == 4 * frames
  {
    IntendedPhosphorFields(DecayClipFields(frames), Plain(DecayField(1)))
  }

  /** The corrected field list after the three optional edits. */
  function IntendedScanFields(frames: nat, scannable: VideoFormat, upsampled: bool, warmupIndex: nat, o: ScanOptions): (r: seq<Picture>)
    requires frames >= 1
    ensures |r| == 4 * frames
  {
    EditFields(IntendedFields(frames, warmupIndex), IntendedDecayFields(frames), scannable, upsampled, o)
  }

  /** Frame m's older field before any edit: the previous clip field, or the warm-up field. */
  function OlderBase(m: nat, warmupIndex: nat): Picture {
    if m == 0 then Plain(WarmupField(warmupIndex)) else Plain(ClipField(m - 1))
  }

  lemma IntendedFrame(frames: nat, warmupIndex: nat, m: nat)
    requires frames >= 1 && m < 2 * frames
    ensures IntendedFields(frames, warmupIndex)[FreshSlot(m)] == Plain(ClipField(m))
    ensures IntendedFields(frames, warmupIndex)[OldSlot(m)] == OlderBase(m, warmupIndex)
    ensures IntendedDecayFields(frames)[OldSlot(m)] == Plain(DecayField(if m == 0 then 1 else (m - 1) % 2))
  {
    IntendedLayoutEditsOlderField(ClipFields(frames), Plain(WarmupField(warmupIndex)), m);
    IntendedLayoutEditsOlderField(DecayClipFields(frames), Plain(DecayField(1)), m);
  }

  /** In the corrected scan every output frame m weaves its newer field m, brightened under
      attack, with its older field, given field m's chroma and decayed. */
  lemma IntendedScanFrameFields(frames: nat, scannable: VideoFormat, upsampled: bool, warmupIndex: nat, o: ScanOptions, m: nat)
    requires frames >= 1 && m < 2 * frames
    ensures {FreshSlot(m), OldSlot(m)} == {2 * m, 2 * m + 1}
    ensures IntendedScanFields(frames, scannable, upsampled, warmupIndex, o)[FreshSlot(m)]
      == FreshEdit(Plain(ClipField(m)), o)
    ensures IntendedScanFields(frames, scannable, upsampled, warmupIndex, o)[OldSlot(m)]
      == OldEdit(OlderBase(m, warmupIndex), Plain(ClipField(m)), Plain(DecayField(if m == 0 then 1 else (m - 1) % 2)),
                 scannable, upsampled, o)
  {
    SlotsOfFrame(m);
    IntendedFrame(frames, warmupIndex, m);
    EditedFrame(IntendedFields(frames, warmupIndex), IntendedDecayFields(frames), scannable, upsampled, o, m);
  }

  /** `_blend_vertically`'s effect on the format: chroma at full resolution and at least
      16 bits. */
  function BlendedFormat(f: VideoFormat): VideoFormat {
    f.(subsamplingW := 0, subsamplingH := 0, bitsPerSample := if f.bitsPerSample < 16 then 16 else f.bitsPerSample)
  }

  /** The `post_processed` loop: every step is BLEND_VERTICALLY, and blending twice gives
      the format blending once does. */
  method PostProcess(f: VideoFormat, steps: seq<InterlacedScanPostProcessor>) returns (g: VideoFormat, applied: nat)
    ensures applied == |steps|
    ensures |steps| == 0 ==> g == f
    ensures |steps| > 0 ==> g.subsamplingW == 0 && g.subsamplingH == 0 && g.bitsPerSample >= 16
    ensures |steps| > 0 ==> g == BlendedFormat(f)
  {
    g := f;
    applied := 0;
    for i := 0 to |steps|
      invariant applied == i
      invariant g == if i == 0 then f else BlendedFormat(f)
    {
      match steps[i]
      case BlendVertically => g := BlendedFormat(g);
      applied := applied + 1;
    }
  }

  /** The rate of the phosphor field list: SeparateFields, then SelectEvery(2, (0, 1, 0, 1))
      with durations modified. The warm-up field is AssumeFPS'd to that rate, and every
      edit selects and interleaves without modifying durations, so the rate is kept. */
  function PhosphorRate(fps: real): real {
    SelectEveryRate(SeparatedRate(fps), 2, 4, true)
  }

  /** `DoubleWeave(phosphor_fields)[::2]`: the weave keeps the rate and the step slice
      halves it. */
  function WovenRate(fieldRate: real): real {
    SelectEveryRate(fieldRate, 2, 1, true)
  }

  /** The woven frames play at twice the clip's rate, as many frames per second as the clip
      has fields. */
  lemma ScanDoublesRate(fps: real)
    ensures WovenRate(PhosphorRate(fps)) == 2.0 * fps == SeparatedRate(fps)
  {
  }

  /** The result of the scan: the woven frames, their rate and `_FieldBased` marking, the
      post-processed format, and the final conversion with the format it aims at. */
  datatype Scan = Scan(
    frames: seq<(Picture, Picture)>,
    fps: real,
    fieldBased: int,
    processedFormat: VideoFormat,
    steps: nat,
    finalSpec: map<string, int>,
    finalConversion: Util.Conversion)

  /** The keywords of the final conversion: SCAN_UPSAMPLED keeps the scannable subsampling
      at the clip's bit depth; every other mode asks for the clip's own format. */
  function FinalKwargs(clip: VideoFormat, scannable: VideoFormat, scanning: ChromaSubsampleScanning): map<string, Util.ArgValue> {
    if scanning == ScanUpsampled then
      map["subsampling_w" := Util.IntArg(scannable.subsamplingW),
          "subsampling_h" := Util.IntArg(scannable.subsamplingH),
          "bits_per_sample" := Util.IntArg(clip.bitsPerSample)]
    else map[]
  }

  function FinalFormatArg(clip: VideoFormat, scanning: ChromaSubsampleScanning): Option<VideoFormat> {
    if scanning == ScanUpsampled then None else Some(clip)
  }

  /** The final format is the scannable one (the clip's, vertically upsampled) under
      SCAN_UPSAMPLED and the clip's own otherwise, whatever post-processing did. */
  lemma FinalFormatRestored(clip: VideoFormat, processed: VideoFormat, scanning: ChromaSubsampleScanning)
    requires processed.colorFamily == clip.colorFamily && processed.sampleType == clip.sampleType
    ensures Util.WellFormedKwargs(FinalKwargs(clip, ScannableFormat(clip), scanning))
    ensures scanning == ScanUpsampled ==>
      Util.TargetSpec(processed, FinalFormatArg(clip, scanning), FinalKwargs(clip, ScannableFormat(clip), scanning))
        == Util.SpecOf(ScannableFormat(clip))
    ensures scanning != ScanUpsampled ==>
      Util.TargetSpec(processed, FinalFormatArg(clip, scanning), FinalKwargs(clip, ScannableFormat(clip), scanning))
        == Util.SpecOf(clip)
  {
    var kw := FinalKwargs(clip, ScannableFormat(clip), scanning);
    var formatArg := FinalFormatArg(clip, scanning);
    var target := Util.TargetSpec(processed, formatArg, kw);
    var expected := if scanning == ScanUpsampled then Util.SpecOf(ScannableFormat(clip)) else Util.SpecOf(clip);
    forall k | k in Util.FormatIntrinsics ensures k in target && target[k] == expected[k] {
      FinalSpecAt(clip, processed, scanning, k);
    }
    assert Util.IntrinsicKwargs(kw).Keys <= Util.SpecOf(processed).Keys;
    assert target.Keys == expected.Keys;
  }

  /** One intrinsic of the final target spec. */
  lemma FinalSpecAt(clip: VideoFormat, processed: VideoFormat, scanning: ChromaSubsampleScanning, k: string)
    requires processed.colorFamily == clip.colorFamily && processed.sampleType == clip.sampleType
    requires k in Util.FormatIntrinsics
    ensures var target := Util.TargetSpec(processed, FinalFormatArg(clip, scanning), FinalKwargs(clip, ScannableFormat(clip), scanning));
      var expected := if scanning == ScanUpsampled then Util.SpecOf(ScannableFormat(clip)) else Util.SpecOf(clip);
      k in target && k in expected && target[k] == expected[k]
  {
    Util.TargetSpecPriority(processed, FinalFormatArg(clip, scanning), FinalKwargs(clip, ScannableFormat(clip), scanning), k);
  }

  /** `convert_format_if_needed(clip, subsampling_h=0)` and the `chroma_upsampled` test:
      the clip is converted exactly when its chroma is vertically subsampled. */
  method UpsampleDecision(format: VideoFormat) returns (upsampled: bool)
    ensures upsampled <==> format.subsamplingH != 0
  {
    var conversion := Util.ConvertFormatIfNeeded(format, None, None, map["subsampling_h" := Util.IntArg(0)]);
    Util.VerticalUpsampleDecision(format);
    assert Util.ResizeKwargs(map["subsampling_h" := Util.IntArg(0)]) == map[];
    upsampled := conversion.Resize?;
  }

  /** The warm-up search run on the warm-up frame's two fields, and (when decaying) on the
      decay clip's first frame; neither search fails. */
  method WarmupFields(clipOrder: bool, warmOrder: bool, decays: bool) returns (r: Result<nat, ScanError>)
    ensures r == Ok(WarmupIndex(clipOrder, warmOrder))
  {
    WarmupFieldOpposite(clipOrder, warmOrder);
    var found := FindWarmupField(SeparatedFieldProp(0, clipOrder), FrameFieldProps(warmOrder));
    assert found.Ok?;
    assert found.value == WarmupIndex(clipOrder, warmOrder);
    if decays {
      WarmupFieldOpposite(clipOrder, clipOrder);
      var decayFound := FindWarmupField(SeparatedFieldProp(0, clipOrder), FrameFieldProps(clipOrder));
      assert decayFound.Ok? && decayFound.value == 1;
    }
    return found;
  }

  /** The closing `convert_format_if_needed` call. */
  method FinalConversion(clip: VideoFormat, processed: VideoFormat, scanning: ChromaSubsampleScanning,
                         ditherType: Option<string>)
    returns (finalSpec: map<string, int>, conversion: Util.Conversion)
    requires processed.colorFamily == clip.colorFamily && processed.sampleType == clip.sampleType
    ensures scanning == ScanUpsampled ==> finalSpec == Util.SpecOf(ScannableFormat(clip))
    ensures scanning != ScanUpsampled ==> finalSpec == Util.SpecOf(clip)
    ensures conversion.Unchanged? <==> finalSpec == Util.SpecOf(processed)
    ensures conversion.Resize? && finalSpec != Util.SpecOf(processed) ==>
      "format" in conversion.args && conversion.args["format"] == Util.FormatArg(finalSpec)
  {
    FinalFormatRestored(clip, processed, scanning);
    var formatArg := FinalFormatArg(clip, scanning);
    var kwargs := FinalKwargs(clip, ScannableFormat(clip), scanning);
    conversion := Util.ConvertFormatIfNeeded(processed, formatArg, ditherType, kwargs);
    assert Util.ResizeKwargs(kwargs) == map[];
    finalSpec := Util.TargetSpec(processed, formatArg, kwargs);
  }

  /** The woven frames of the scan: the upsampling decision, the warm-up field, the field
      list as built with its edits, and `DoubleWeave(...)[::2]`. */
  method WeaveScan(frames: nat, format: VideoFormat, clipOrder: bool, warmOrder: bool, o: ScanOptions)
    returns (woven: seq<(Picture, Picture)>)
    requires frames >= 1
    ensures woven == WeavePairs(ScanFields(frames, ScannableFormat(format), format.subsamplingH != 0,
                                           WarmupIndex(clipOrder, warmOrder), o))
    ensures |woven| == 2 * frames
  {
    var upsampled := UpsampleDecision(format);
    var found := WarmupFields(clipOrder, warmOrder, Decays(o.decayFactor));
    var fields := ScanFields(frames, ScannableFormat(format), upsampled, found.value, o);
    woven := WeavePairs(fields);
  }

  /** `scan_interlaced`: the warm-up and upsampling decisions, the field list as built with
      its edits, the weave, post-processing and the final conversion. `clipTff` and `warmupTff` are the
      field orders clip[0] and the warm-up clip's last frame declare; `tff` overrides both. */
  method ScanInterlaced(frames: nat, fps: real, format: VideoFormat, tff: Option<bool>, clipTff: bool,
                        warmupLength: Option<nat>, warmupTff: bool, o: ScanOptions,
                        ditherType: Option<string>, postProcessing: seq<InterlacedScanPostProcessor>)
    returns (r: Result<Scan, ScanError>)
    requires frames >= 1 && ValidFormat(format)
    requires warmupLength.Some? ==> warmupLength.value >= 1
    ensures r.Ok?
    ensures var clipOrder := if tff.Some? then tff.value else clipTff;
      var warmOrder := if tff.Some? then tff.value else if warmupLength.Some? then warmupTff else clipTff;
      r.Ok? ==> (r.value.frames
        == WeavePairs(ScanFields(frames, ScannableFormat(format), format.subsamplingH != 0, WarmupIndex(clipOrder, warmOrder), o)))
    ensures r.Ok? ==> |r.value.frames| == 2 * frames
    ensures r.Ok? ==> r.value.fps == 2.0 * fps
    ensures r.Ok? ==> r.value.fieldBased == FieldProgressive
    ensures r.Ok? ==> r.value.steps == |postProcessing|
    ensures r.Ok? ==> (r.value.processedFormat
      == if |postProcessing| == 0 then ScannableFormat(format) else BlendedFormat(ScannableFormat(format)))
    ensures r.Ok? && o.scanning == ScanUpsampled ==> r.value.finalSpec == Util.SpecOf(ScannableFormat(format))
    ensures r.Ok? && o.scanning != ScanUpsampled ==> r.value.finalSpec == Util.SpecOf(format)
    ensures r.Ok? ==> (r.value.finalConversion.Unchanged? <==> r.value.finalSpec == Util.SpecOf(r.value.processedFormat))
    ensures r.Ok? && r.value.finalConversion.Resize? ==>
      "format" in r.value.finalConversion.args && r.value.finalConversion.args["format"] == Util.FormatArg(r.value.finalSpec)
  {
    var scannable := ScannableFormat(format);
    var warmup := ChooseWarmup(warmupLength);
    var clipOrder := if tff.Some? then tff.value else clipTff;
    var warmOrder := if tff.Some? then tff.value else if warmup.WarmupClipFrame? then warmupTff else clipTff;
    var woven := WeaveScan(frames, format, clipOrder, warmOrder, o);
    var wovenRate := WovenRate(PhosphorRate(fps));
    ScanDoublesRate(fps);
    // assume_progressive(laced)
    var fieldBased := FieldProgressive;
    var processed, applied := PostProcess(scannable, postProcessing);
    var finalSpec, finalConversion := FinalConversion(format, processed, o.scanning, ditherType);
    r := Ok(Scan(woven, wovenRate, fieldBased, processed, applied, finalSpec, finalConversion));
  }
}

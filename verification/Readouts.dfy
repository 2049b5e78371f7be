/**
 The two ways a CoBo can send the same samples (`decode_items`, src/decode.rs): spelled out, four
 bytes each with channel and bucket, or compact, two bytes each in readout order. Both are given
 here byte by byte, and both must decode to the same items.
 */
module Readouts {
  import opened Bytes
  import opened Items
  import opened Cursors
  import opened Decode
  import opened FrameFormat

  /** One compact item: its AGET, two bits nobody reads, and its ADC value. */
  datatype Reading = Reading(aget: nat, spare: nat, adc: nat)

  predicate ReadingFits(r: Reading) {
    r.aget < 4 && r.spare < 4 && r.adc < 4096
  }

  type Readings = rs: seq<Reading> | forall i :: 0 <= i < |rs| ==> ReadingFits(rs[i])

  /** How many items AGET `a` has sent. */
  function SentBy(rs: Readings, a: nat): nat {
    if rs == [] then 0
    else SentBy(rs[..|rs| - 1], a) + if rs[|rs| - 1].aget == a then 1 else 0
  }

  predicate TooMany(rs: Readings) {
    exists a :: 0 <= a < 4 && SentBy(rs, a) > 68 * 512
  }

  /** The sample an item stands for: channels run fastest, 68 of them to a bucket. */
  function SampleOf(rs: Readings, i: nat): Item
    requires i < |rs|
  {
    var k := SentBy(rs[..i], rs[i].aget);
    Item(rs[i].aget, k % 68, k / 68, rs[i].adc)
  }

  function InOrder(top: seq<byte>, little: bool): (b: seq<byte>)
    ensures |b| == |top|
  {
    seq(|top|, i requires 0 <= i < |top| => if little then top[|top| - 1 - i] else top[i])
  }

  function CompactBytes(r: Reading): seq<byte>
    requires ReadingFits(r)
  {
    [64 * r.aget + 16 * r.spare + r.adc / 256, r.adc % 256]
  }

  function CompactParts(rs: Readings, little: bool): seq<seq<byte>> {
    seq(|rs|, i requires 0 <= i < |rs| => InOrder(CompactBytes(rs[i]), little))
  }

  /** The item area of a compact frame. */
  function CompactArea(rs: Readings, little: bool): seq<byte> {
    Flat(CompactParts(rs, little))
  }

  predicate SamplesFit(rs: Readings) {
    forall i :: 0 <= i < |rs| ==> FieldsFit(SampleOf(rs, i))
  }

  function ExplicitParts(rs: Readings, little: bool): seq<seq<byte>>
    requires SamplesFit(rs)
  {
    seq(|rs|, i requires 0 <= i < |rs| => InOrder(WordBytes(SampleOf(rs, i)), little))
  }

  /** The item area of a frame that spells out the same samples. */
  function ExplicitArea(rs: Readings, little: bool): seq<byte>
    requires SamplesFit(rs)
  {
    Flat(ExplicitParts(rs, little))
  }

  // ---------------------------------------------------------------------
  // The bytes as words
  // ---------------------------------------------------------------------

  function ShortWord(r: Reading): Word16
    requires ReadingFits(r)
  {
    0x4000 * r.aget + 0x1000 * r.spare + r.adc
  }

  function ShortWords(rs: Readings): seq<Word16> {
    seq(|rs|, i requires 0 <= i < |rs| => ShortWord(rs[i]))
  }

  lemma {:induction false} ShortWordBytes(r: Reading, little: bool)
    requires ReadingFits(r)
    ensures Put(ShortWord(r), 2, little) == InOrder(CompactBytes(r), little)
  {
    var b := CompactBytes(r);
    assert r.adc == 256 * (r.adc / 256) + r.adc % 256;
    assert InOrder(b, little) == if little then [b[1], b[0]] else b;
    TwoByteUint(b[0], b[1]);
    ReadThenPut(InOrder(b, little), little);
  }

  lemma ShortWordFields(r: Reading)
    requires ReadingFits(r)
    ensures Aget(ShortWord(r)) == r.aget && Adc(ShortWord(r)) == r.adc
  {
  }

  lemma {:induction false} PutWordsIsFlat(
      ws: seq<nat>, size: nat, little: bool, parts: seq<seq<byte>>)
    requires size == 2 || size == 4
    requires |parts| == |ws| && forall i :: 0 <= i < |ws| ==> parts[i] == Put(ws[i], size, little)
    ensures PutWords(ws, size, little) == Flat(parts)
  {
    if ws != [] {
      PutWordsIsFlat(ws[1..], size, little, parts[1..]);
    }
  }

  lemma {:induction false} ItemBytesIsFlat(ws: seq<u32>, parts: seq<seq<byte>>)
    requires |parts| == |ws| && forall i :: 0 <= i < |ws| ==> parts[i] == PutLittle(ws[i], 4)
    ensures ItemBytes(ws) == Flat(parts)
  {
    if ws != [] {
      ItemBytesIsFlat(ws[1..], parts[1..]);
    }
  }

  lemma {:induction false} CompactAreaWords(rs: Readings, little: bool)
    ensures CompactArea(rs, little) == PutWords(ShortWords(rs), 2, little)
  {
    forall i | 0 <= i < |rs|
      ensures CompactParts(rs, little)[i] == Put(ShortWords(rs)[i], 2, little)
    {
      ShortWordBytes(rs[i], little);
    }
    PutWordsIsFlat(ShortWords(rs), 2, little, CompactParts(rs, little));
  }

  lemma {:induction false} SentIsCount(rs: Readings, a: nat)
    ensures Count(ShortWords(rs), a) == SentBy(rs, a)
  {
    if rs != [] {
      var n := |rs| - 1;
      SentIsCount(rs[..n], a);
      ShortWordFields(rs[n]);
      assert ShortWords(rs)[..n] == ShortWords(rs[..n]);
    }
  }

  lemma {:induction false} SampleIsSample(rs: Readings, i: nat)
    requires i < |rs|
    ensures Sample(ShortWords(rs), i) == SampleOf(rs, i)
  {
    assert ShortWords(rs)[..i] == ShortWords(rs[..i]);
    SentIsCount(rs[..i], rs[i].aget);
    ShortWordFields(rs[i]);
  }

  lemma {:induction false} TooManyIsOverfull(rs: Readings)
    ensures Overfull(ShortWords(rs)) <==> TooMany(rs)
    ensures !TooMany(rs) ==> SamplesFit(rs)
  {
    forall a: nat ensures Count(ShortWords(rs), a) == SentBy(rs, a) {
      SentIsCount(rs, a);
    }
    if !TooMany(rs) {
      forall i | 0 <= i < |rs| ensures FieldsFit(SampleOf(rs, i)) {
        SampleFits(ShortWords(rs), i);
        SampleIsSample(rs, i);
      }
    }
  }

  /** The words of the samples. */
  function LongWords(rs: Readings): seq<u32>
    requires SamplesFit(rs)
  {
    seq(|rs|, i requires 0 <= i < |rs| => PackItem(SampleOf(rs, i)).value)
  }

  lemma {:induction false} LongWordBytes(i: Item, little: bool)
    requires FieldsFit(i)
    ensures Put(PackItem(i).value, 4, little) == InOrder(WordBytes(i), little)
    ensures Cleared(PackItem(i).value) == PackItem(i).value
  {
    var b := WordBytes(i);
    PackedBytes(i);
    UnpackAfterPack(i);
    assert InOrder(b, little) == if little then [b[3], b[2], b[1], b[0]] else b;
  }

  lemma {:induction false} ExplicitAreaWords(rs: Readings, little: bool)
    requires SamplesFit(rs)
    ensures ExplicitArea(rs, little) == PutWords(LongWords(rs), 4, little)
    ensures ExplicitArea(rs, true) == ItemBytes(LongWords(rs))
    ensures ClearedWords(LongWords(rs)) == LongWords(rs)
  {
    forall i | 0 <= i < |rs|
      ensures ExplicitParts(rs, little)[i] == Put(LongWords(rs)[i], 4, little)
      ensures ExplicitParts(rs, true)[i] == PutLittle(LongWords(rs)[i], 4)
      ensures Cleared(LongWords(rs)[i]) == LongWords(rs)[i]
    {
      LongWordBytes(SampleOf(rs, i), little);
      LongWordBytes(SampleOf(rs, i), true);
    }
    PutWordsIsFlat(LongWords(rs), 4, little, ExplicitParts(rs, little));
    ItemBytesIsFlat(LongWords(rs), ExplicitParts(rs, true));
  }

  // ---------------------------------------------------------------------
  // Both ways decode to the same items
  // ---------------------------------------------------------------------

  /** Spelled out, in either byte order, the samples come out as their little-endian words. */
  lemma {:induction false} ExplicitDecodes(rs: Readings, little: bool)
    requires SamplesFit(rs)
    ensures ItemsOf(1, ExplicitArea(rs, little), little) == Some(ExplicitArea(rs, true))
  {
    ExplicitAreaWords(rs, little);
    PartialItems(LongWords(rs), little);
  }

  /** Compact, they come out as the same words, or not at all if an AGET sent too many. */
  lemma {:induction false} CompactDecodes(rs: Readings, little: bool)
    ensures TooMany(rs) ==> ItemsOf(2, CompactArea(rs, little), little) == None
    ensures !TooMany(rs) ==>
              && SamplesFit(rs)
              && ItemsOf(2, CompactArea(rs, little), little) == Some(ExplicitArea(rs, true))
  {
    CompactAreaWords(rs, little);
    CompactItems(ShortWords(rs), little);
    TooManyIsOverfull(rs);
    if !TooMany(rs) {
      forall i | 0 <= i < |rs| ensures CompactWords(ShortWords(rs))[i] == LongWords(rs)[i] {
        SampleIsSample(rs, i);
      }
      assert CompactWords(ShortWords(rs)) == LongWords(rs);
      ExplicitAreaWords(rs, true);
    }
  }

  /** A frame of this layout with these bytes as its items. */
  function FrameWith(h: Header, frameType: nat, count: nat, area: seq<byte>, lay: Layout): seq<byte>
    requires |h.mult| == 4 && |h.lastCell| == 4 && MetaFits(lay)
  {
    HeaderBytes(h, frameType, ItemBytesOf(frameType), count, lay)
    + (lay.headerPad + (area + lay.tailPad))
  }

  lemma {:induction false} CompactFrame(h: Header, rs: Readings, lay: Layout)
    requires HeaderFits(h) && |rs| < U32_LIMIT && LayoutFits(lay)
    ensures TooMany(rs) ==> Decoded(FrameWith(h, 2, |rs|, CompactArea(rs, lay.little), lay)).None?
    ensures !TooMany(rs) ==>
              && SamplesFit(rs)
              && Decoded(FrameWith(h, 2, |rs|, CompactArea(rs, lay.little), lay))
                 == Some(Carried(h, 2, ExplicitArea(rs, true)))
  {
    CompactAreaWords(rs, lay.little);
    CompactDecodes(rs, lay.little);
    JudgeBuilt(h, 2, ShortWords(rs), lay);
  }

  lemma {:induction false} ExplicitFrame(h: Header, rs: Readings, lay: Layout)
    requires HeaderFits(h) && |rs| < U32_LIMIT && LayoutFits(lay) && SamplesFit(rs)
    ensures Decoded(FrameWith(h, 1, |rs|, ExplicitArea(rs, lay.little), lay))
            == Some(Carried(h, 1, ExplicitArea(rs, true)))
  {
    ExplicitAreaWords(rs, lay.little);
    ExplicitDecodes(rs, lay.little);
    JudgeBuilt(h, 1, LongWords(rs), lay);
  }

  /**
   The two frame types mean the same. A compact frame and a frame that spells out its samples,
   each in its own layout and byte order, decode to the same items; the compact one fails iff an
   AGET sent more than 68 * 512 items.
   */
  lemma {:induction false} SameItemsEitherWay(h: Header, rs: Readings, short: Layout, long: Layout)
    requires HeaderFits(h) && |rs| < U32_LIMIT
    requires LayoutFits(short) && LayoutFits(long)
    ensures var f := FrameWith(h, 2, |rs|, CompactArea(rs, short.little), short);
            if TooMany(rs) then Decoded(f).None?
            else
              && SamplesFit(rs)
              && var g := FrameWith(h, 1, |rs|, ExplicitArea(rs, long.little), long);
                 && Decoded(f) == Some(Carried(h, 2, ExplicitArea(rs, true)))
                 && Decoded(g) == Some(Carried(h, 1, ExplicitArea(rs, true)))
  {
    CompactFrame(h, rs, short);
    if !TooMany(rs) {
      ExplicitFrame(h, rs, long);
    }
  }
}

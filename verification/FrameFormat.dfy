/**
 The layout of a CoBo frame as its producers write it (the builders in the tests of
 src/decode.rs), as the inverse of decoding: what goes into a frame, in either byte order and
 any block size, comes out of the decoder field by field.
 */
module FrameFormat {
  import opened Bytes
  import F = Framer
  import opened Items
  import opened Cursors
  import opened Decode

  datatype Header = Header(
    revision: byte, eventTime: nat, eventIdx: nat, cobo: byte, asad: byte, readOffset: nat,
    status: byte, mult: seq<nat>, windowOut: nat, lastCell: seq<nat>)

  /** What the decoder does not read: bits 6..4 of metaType, byte 4, the hit patterns, byte 87. */
  datatype Unread = Unread(flags: nat, dataSource: byte, hitPattern: seq<byte>, last: byte)

  /** How a frame is laid out: sizes count blocks of 2^blkLog bytes, padding fills them up. */
  datatype Layout = Layout(
    little: bool, blkLog: nat, headerBlocks: nat, totalBlocks: nat, headerPad: seq<byte>,
    tailPad: seq<byte>, unread: Unread)

  predicate MetaFits(lay: Layout) {
    lay.blkLog < 16 && lay.unread.flags < 8 && |lay.unread.hitPattern| == 36
  }

  /** The header has the size it says. */
  predicate LayoutFits(lay: Layout) {
    && MetaFits(lay) && lay.headerBlocks < 0x1_0000
    && lay.headerBlocks * F.Pow2(lay.blkLog) == HEADER_MIN_BYTES + |lay.headerPad|
  }

  /** The whole frame, with this many bytes of items, has the size it says. */
  predicate TotalFits(lay: Layout, itemBytes: nat) {
    && lay.totalBlocks < 0x100_0000
    && lay.totalBlocks * F.Pow2(lay.blkLog)
       == HEADER_MIN_BYTES + |lay.headerPad| + itemBytes + |lay.tailPad|
  }

  ghost predicate Fits16(vs: seq<nat>) {
    |vs| == 4 && forall i :: 0 <= i < 4 ==> vs[i] < 0x1_0000
  }

  ghost predicate HeaderFits(h: Header) {
    && h.eventTime < 0x1_0000_0000_0000 && h.eventIdx < U32_LIMIT && h.readOffset < 0x1_0000
    && h.windowOut < U32_LIMIT && Fits16(h.mult) && Fits16(h.lastCell)
  }

  function PutFour(vs: seq<nat>, little: bool): (b: seq<byte>)
    requires |vs| == 4
    ensures |b| == 8
  {
    Put(vs[0], 2, little) + Put(vs[1], 2, little) + Put(vs[2], 2, little) + Put(vs[3], 2, little)
  }

  function PutWords(ws: seq<nat>, size: nat, little: bool): (b: seq<byte>)
    requires size == 2 || size == 4
    ensures |b| == |ws| * size
  {
    if ws == [] then [] else Put(ws[0], size, little) + PutWords(ws[1..], size, little)
  }

  /** Byte order, flags and block size. */
  function MetaType(lay: Layout): byte
    requires MetaFits(lay)
  {
    lay.blkLog + 16 * lay.unread.flags + if lay.little then 0x80 else 0
  }

  /** Bytes 0..8: metaType, frame size in blocks, data source, frame type, revision. */
  function Primary(h: Header, frameType: nat, lay: Layout): (b: seq<byte>)
    requires MetaFits(lay)
    ensures |b| == 8
  {
    [MetaType(lay)] + Put(lay.totalBlocks, 3, lay.little) + [lay.unread.dataSource]
    + Put(frameType, 2, lay.little) + [h.revision]
  }

  /** Bytes 8..16: header size in blocks, item size, item count. */
  function Sizes(itemSize: nat, count: nat, lay: Layout): (b: seq<byte>)
    ensures |b| == 8
  {
    Put(lay.headerBlocks, 2, lay.little) + Put(itemSize, 2, lay.little) + Put(count, 4, lay.little)
  }

  /** Bytes 16..31: event time and index, cobo, asad, read offset, status. */
  function EventPart(h: Header, little: bool): (b: seq<byte>)
    ensures |b| == 15
  {
    Put(h.eventTime, 6, little) + Put(h.eventIdx, 4, little) + [h.cobo, h.asad]
    + Put(h.readOffset, 2, little) + [h.status]
  }

  /** Bytes 67..88: multiplicities, window, last cells. */
  function TailPart(h: Header, lay: Layout): (b: seq<byte>)
    requires |h.mult| == 4 && |h.lastCell| == 4
    ensures |b| == 21
  {
    PutFour(h.mult, lay.little) + Put(h.windowOut, 4, lay.little) + PutFour(h.lastCell, lay.little)
    + [lay.unread.last]
  }

  function HeaderBytes(h: Header, frameType: nat, itemSize: nat, count: nat, lay: Layout): (b: seq<byte>)
    requires |h.mult| == 4 && |h.lastCell| == 4 && MetaFits(lay)
    ensures |b| == HEADER_MIN_BYTES
  {
    Primary(h, frameType, lay) + Sizes(itemSize, count, lay) + EventPart(h, lay.little)
    + lay.unread.hitPattern + TailPart(h, lay)
  }

  function ItemBytesOf(frameType: nat): nat {
    if frameType == 1 then 4 else 2
  }

  function BuildFrame(h: Header, frameType: nat, ws: seq<nat>, lay: Layout): seq<byte>
    requires |h.mult| == 4 && |h.lastCell| == 4 && MetaFits(lay)
  {
    HeaderBytes(h, frameType, ItemBytesOf(frameType), |ws|, lay)
    + (lay.headerPad + (PutWords(ws, ItemBytesOf(frameType), lay.little) + lay.tailPad))
  }

  // ---------------------------------------------------------------------
  // Reading the parts back
  // ---------------------------------------------------------------------

  lemma {:induction false} SubSlice(f: seq<byte>, lo: nat, hi: nat, a: nat, b: nat)
    requires lo <= hi <= |f| && a <= b <= hi - lo
    ensures f[lo..hi][a..b] == f[lo + a..lo + b]
  {
    var part := f[lo..hi];
    forall i | 0 <= i < b - a ensures part[a..b][i] == f[lo + a..lo + b][i] {
      assert part[a + i] == f[lo + a + i];
    }
    assert part[a..b] == f[lo + a..lo + b];
  }

  lemma {:induction false} Read16(v: nat, little: bool)
    requires v < 0x1_0000
    ensures Uint(Put(v, 2, little), little) == v
  {
    assert Pow256(2) == 0x1_0000;
    PutThenRead(v, 2, little);
  }

  lemma {:induction false} Read32(v: nat, little: bool)
    requires v < U32_LIMIT
    ensures Uint(Put(v, 4, little), little) == v
  {
    assert Pow256(4) == U32_LIMIT;
    PutThenRead(v, 4, little);
  }

  lemma {:induction false} Read48(v: nat, little: bool)
    requires v < 0x1_0000_0000_0000
    ensures Uint(Put(v, 6, little), little) == v
  {
    assert Pow256(4) == U32_LIMIT;
    assert Pow256(6) == 256 * Pow256(5) && Pow256(5) == 256 * Pow256(4);
    PutThenRead(v, 6, little);
  }

  /** The frame, cut where its parts meet. */
  ghost predicate Parts(f: seq<byte>, h: Header, frameType: nat, itemSize: nat, count: nat, lay: Layout)
    requires |h.mult| == 4 && |h.lastCell| == 4 && MetaFits(lay)
  {
    && |f| >= HEADER_MIN_BYTES
    && f[0..8] == Primary(h, frameType, lay)
    && f[8..16] == Sizes(itemSize, count, lay)
    && f[16..31] == EventPart(h, lay.little)
    && f[67..88] == TailPart(h, lay)
  }

  lemma {:induction false} FiveParts(
      a: seq<byte>, b: seq<byte>, c: seq<byte>, gap: seq<byte>, d: seq<byte>, rest: seq<byte>)
    requires |a| == |b| == 8 && |c| == 15 && |gap| == 36 && |d| == 21
    ensures var f := (a + b + c + gap + d) + rest;
            f[0..8] == a && f[8..16] == b && f[16..31] == c && f[67..88] == d && f[88..] == rest
  {
  }

  lemma {:induction false} HeaderParts(
      h: Header, frameType: nat, itemSize: nat, count: nat, lay: Layout, rest: seq<byte>)
    requires |h.mult| == 4 && |h.lastCell| == 4 && MetaFits(lay)
    ensures var f := HeaderBytes(h, frameType, itemSize, count, lay) + rest;
            Parts(f, h, frameType, itemSize, count, lay) && f[HEADER_MIN_BYTES..] == rest
  {
    FiveParts(Primary(h, frameType, lay), Sizes(itemSize, count, lay), EventPart(h, lay.little),
              lay.unread.hitPattern, TailPart(h, lay), rest);
  }

  lemma {:induction false} PrimaryReads(f: seq<byte>, h: Header, frameType: nat, lay: Layout)
    requires MetaFits(lay) && frameType < 0x1_0000
    requires |f| >= 8 && f[0..8] == Primary(h, frameType, lay)
    ensures F.IsLittle(f[0]) == lay.little && f[0] % 16 == lay.blkLog
    ensures Field(f, 5, 2) == frameType && f[7] == h.revision
  {
    var p := Primary(h, frameType, lay);
    assert f[0] == p[0] && f[7] == p[7];
    SubSlice(f, 0, 8, 5, 7);
    assert p[5..7] == Put(frameType, 2, lay.little);
    Read16(frameType, lay.little);
  }

  lemma {:induction false} ThreeSlices(f: seq<byte>, a: seq<byte>, b: seq<byte>, c: seq<byte>)
    requires |f| >= 16 && |a| == |b| == 2 && |c| == 4 && f[8..16] == a + b + c
    ensures f[8..10] == a && f[10..12] == b && f[12..16] == c
  {
    assert a + b + c == a + (b + c);
    HeadAndRest(f, 8, 16, a, b + c);
    HeadAndRest(f, 10, 16, b, c);
  }

  lemma {:induction false} SizesRead(f: seq<byte>, itemSize: nat, count: nat, lay: Layout)
    requires |f| >= 16 && f[8..16] == Sizes(itemSize, count, lay) && F.IsLittle(f[0]) == lay.little
    requires lay.headerBlocks < 0x1_0000 && itemSize < 0x1_0000 && count < U32_LIMIT
    ensures Field(f, 8, 2) == lay.headerBlocks && Field(f, 10, 2) == itemSize
    ensures Field(f, 12, 4) == count
  {
    ThreeSlices(f, Put(lay.headerBlocks, 2, lay.little), Put(itemSize, 2, lay.little),
                Put(count, 4, lay.little));
    Read16(lay.headerBlocks, lay.little);
    Read16(itemSize, lay.little);
    Read32(count, lay.little);
  }

  lemma {:induction false} EventSlices(
      f: seq<byte>, a: seq<byte>, b: seq<byte>, c: seq<byte>, d: seq<byte>, e: seq<byte>)
    requires |f| >= 31 && |a| == 6 && |b| == 4 && |c| == |d| == 2 && |e| == 1
    requires f[16..31] == a + b + c + d + e
    ensures f[16..22] == a && f[22..26] == b && f[26..28] == c && f[28..30] == d && f[30..31] == e
  {
    assert a + b + c + d + e == a + (b + (c + (d + e)));
    HeadAndRest(f, 16, 31, a, b + (c + (d + e)));
    HeadAndRest(f, 22, 31, b, c + (d + e));
    HeadAndRest(f, 26, 31, c, d + e);
    HeadAndRest(f, 28, 31, d, e);
  }

  lemma {:induction false} EventReads(f: seq<byte>, h: Header, little: bool)
    requires |f| >= 31 && f[16..31] == EventPart(h, little) && F.IsLittle(f[0]) == little
    requires HeaderFits(h)
    ensures Field(f, 16, 6) == h.eventTime && Field(f, 22, 4) == h.eventIdx
    ensures f[26] == h.cobo && f[27] == h.asad && Field(f, 28, 2) == h.readOffset && f[30] == h.status
  {
    EventSlices(f, Put(h.eventTime, 6, little), Put(h.eventIdx, 4, little), [h.cobo, h.asad],
                Put(h.readOffset, 2, little), [h.status]);
    assert f[26] == f[26..28][0] && f[27] == f[26..28][1] && f[30] == f[30..31][0];
    Read48(h.eventTime, little);
    Read32(h.eventIdx, little);
    Read16(h.readOffset, little);
  }

  lemma {:induction false} HeadAndRest(f: seq<byte>, off: nat, end: nat, a: seq<byte>, rest: seq<byte>)
    requires off <= end <= |f| && f[off..end] == a + rest
    ensures off + |a| <= end && f[off..off + |a|] == a && f[off + |a|..end] == rest
  {
    assert |f[off..end]| == end - off;
    SubSlice(f, off, end, 0, |a|);
    SubSlice(f, off, end, |a|, end - off);
  }

  lemma {:induction false} FieldRead(f: seq<byte>, off: nat, v: nat, little: bool)
    requires off + 2 <= |f| && F.IsLittle(f[0]) == little && v < 0x1_0000
    requires f[off..off + 2] == Put(v, 2, little)
    ensures Field(f, off, 2) == v
  {
    Read16(v, little);
  }

  lemma {:induction false} FourSlices(
      f: seq<byte>, off: nat, a: seq<byte>, b: seq<byte>, c: seq<byte>, d: seq<byte>)
    requires off + 8 <= |f| && |a| == |b| == |c| == |d| == 2 && f[off..off + 8] == a + b + c + d
    ensures f[off..off + 2] == a && f[off + 2..off + 4] == b
    ensures f[off + 4..off + 6] == c && f[off + 6..off + 8] == d
  {
    assert a + b + c + d == a + (b + (c + d));
    HeadAndRest(f, off, off + 8, a, b + (c + d));
    HeadAndRest(f, off + 2, off + 8, b, c + d);
    HeadAndRest(f, off + 4, off + 8, c, d);
  }

  lemma {:induction false} FourRead(f: seq<byte>, off: nat, vs: seq<nat>, little: bool)
    requires off + 8 <= |f| && F.IsLittle(f[0]) == little && Fits16(vs)
    requires f[off..off + 8] == PutFour(vs, little)
    ensures FourFields(f, off) == vs
  {
    FourSlices(f, off, Put(vs[0], 2, little), Put(vs[1], 2, little), Put(vs[2], 2, little),
               Put(vs[3], 2, little));
    FieldRead(f, off, vs[0], little);
    FieldRead(f, off + 2, vs[1], little);
    FieldRead(f, off + 4, vs[2], little);
    FieldRead(f, off + 6, vs[3], little);
  }

  lemma {:induction false} TailSlices(
      f: seq<byte>, a: seq<byte>, b: seq<byte>, c: seq<byte>, d: seq<byte>)
    requires |f| >= 88 && |a| == |c| == 8 && |b| == 4 && f[67..88] == a + b + c + d
    ensures f[67..75] == a && f[75..79] == b && f[79..87] == c
  {
    assert a + b + c + d == a + (b + (c + d));
    HeadAndRest(f, 67, 88, a, b + (c + d));
    HeadAndRest(f, 75, 88, b, c + d);
    HeadAndRest(f, 79, 88, c, d);
  }

  lemma {:induction false} TailReads(f: seq<byte>, h: Header, lay: Layout)
    requires |f| >= 88 && HeaderFits(h) && f[67..88] == TailPart(h, lay)
    requires F.IsLittle(f[0]) == lay.little
    ensures FourFields(f, 67) == h.mult && Field(f, 75, 4) == h.windowOut
    ensures FourFields(f, 79) == h.lastCell
  {
    TailSlices(f, PutFour(h.mult, lay.little), Put(h.windowOut, 4, lay.little),
               PutFour(h.lastCell, lay.little), [lay.unread.last]);
    FourRead(f, 67, h.mult, lay.little);
    FourRead(f, 79, h.lastCell, lay.little);
    Read32(h.windowOut, lay.little);
  }

  lemma {:induction false} WordsRead(ws: seq<nat>, size: nat, little: bool)
    requires size == 2 || size == 4
    requires forall i :: 0 <= i < |ws| ==> ws[i] < Pow256(size)
    ensures Words(PutWords(ws, size, little), size, little) == ws
  {
    if ws != [] {
      var head, tail := Put(ws[0], size, little), PutWords(ws[1..], size, little);
      assert (head + tail)[..size] == head && (head + tail)[size..] == tail;
      PutThenRead(ws[0], size, little);
      WordsRead(ws[1..], size, little);
    }
  }

  // ---------------------------------------------------------------------
  // The round trip
  // ---------------------------------------------------------------------

  /** The fragment a frame with this header and these items stands for. */
  function Carried(h: Header, frameType: nat, items: seq<byte>): Fragment {
    Fragment(h.eventIdx, h.eventTime, h.cobo, h.asad, frameType, h.revision, h.readOffset, h.status,
             h.mult, h.windowOut, h.lastCell, items)
  }

  lemma {:induction false} HeaderReads(
      f: seq<byte>, h: Header, frameType: nat, itemSize: nat, count: nat, lay: Layout,
      items: seq<byte>)
    requires HeaderFits(h) && (frameType == 1 || frameType == 2)
    requires MetaFits(lay) && lay.headerBlocks < 0x1_0000
    requires itemSize < 0x1_0000 && count < U32_LIMIT
    requires Parts(f, h, frameType, itemSize, count, lay)
    ensures F.IsLittle(f[0]) == lay.little && FrameType(f) == frameType
    ensures ItemStart(f) == lay.headerBlocks * F.Pow2(lay.blkLog)
    ensures ItemCount(f) == count && Field(f, 10, 2) == itemSize
    ensures FragmentOf(f, items) == Carried(h, frameType, items)
  {
    PrimaryReads(f, h, frameType, lay);
    SizesRead(f, itemSize, count, lay);
    EventReads(f, h, lay.little);
    TailReads(f, h, lay);
  }

  /** What stands behind the header: padding, items, padding. */
  lemma {:induction false} ItemsBehind(f: seq<byte>, pad: seq<byte>, area: seq<byte>, tail: seq<byte>)
    requires |f| >= HEADER_MIN_BYTES && f[HEADER_MIN_BYTES..] == pad + (area + tail)
    ensures var start := HEADER_MIN_BYTES + |pad|;
            && |f| == start + |area| + |tail|
            && f[start..start + |area|] == area
  {
    assert |f[HEADER_MIN_BYTES..]| == |pad| + |area| + |tail|;
    assert f[HEADER_MIN_BYTES..] == f[HEADER_MIN_BYTES..|f|];
    HeadAndRest(f, HEADER_MIN_BYTES, |f|, pad, area + tail);
    HeadAndRest(f, HEADER_MIN_BYTES + |pad|, |f|, area, tail);
  }

  /** A frame with these parts is consistent, and its item area is where the layout puts it. */
  lemma {:induction false} PartsAreConsistent(
      f: seq<byte>, h: Header, frameType: nat, count: nat, lay: Layout, area: seq<byte>,
      items: seq<byte>)
    requires HeaderFits(h) && (frameType == 1 || frameType == 2) && count < U32_LIMIT
    requires LayoutFits(lay) && |area| == count * ItemBytesOf(frameType)
    requires Parts(f, h, frameType, ItemBytesOf(frameType), count, lay)
    requires f[HEADER_MIN_BYTES..] == lay.headerPad + (area + lay.tailPad)
    ensures IsData(f) && HeaderConsistent(f) && ItemArea(f) == area
    ensures F.IsLittle(f[0]) == lay.little && FrameType(f) == frameType
    ensures FragmentOf(f, items) == Carried(h, frameType, items)
  {
    HeaderReads(f, h, frameType, ItemBytesOf(frameType), count, lay, items);
    ItemsBehind(f, lay.headerPad, area, lay.tailPad);
  }

  lemma {:induction false} BuiltFrame(
      h: Header, frameType: nat, ws: seq<nat>, lay: Layout, items: seq<byte>)
    requires HeaderFits(h) && (frameType == 1 || frameType == 2) && |ws| < U32_LIMIT
    requires LayoutFits(lay)
    ensures var f := BuildFrame(h, frameType, ws, lay);
            && |f| >= HEADER_MIN_BYTES && IsData(f) && HeaderConsistent(f)
            && F.IsLittle(f[0]) == lay.little && FrameType(f) == frameType
            && ItemArea(f) == PutWords(ws, ItemBytesOf(frameType), lay.little)
            && FragmentOf(f, items) == Carried(h, frameType, items)
  {
    var area := PutWords(ws, ItemBytesOf(frameType), lay.little);
    var rest := lay.headerPad + (area + lay.tailPad);
    HeaderParts(h, frameType, ItemBytesOf(frameType), |ws|, lay, rest);
    PartsAreConsistent(BuildFrame(h, frameType, ws, lay), h, frameType, |ws|, lay, area, items);
  }

  lemma {:induction false} PrimaryAnnounces(h: Header, frameType: nat, lay: Layout)
    requires MetaFits(lay) && lay.totalBlocks < 0x100_0000
    requires lay.totalBlocks * F.Pow2(lay.blkLog) >= 8
    ensures F.ParseFrameSize(Primary(h, frameType, lay))
            == Some(lay.totalBlocks * F.Pow2(lay.blkLog))
  {
    assert Primary(h, frameType, lay)[1..4] == Put(lay.totalBlocks, 3, lay.little);
    assert Pow256(3) == 0x100_0000;
    PutThenRead(lay.totalBlocks, 3, lay.little);
  }

  /** The framer takes a built frame for exactly one frame, as far as 24 bits of blocks reach. */
  lemma {:induction false} BuiltFrameIsWellFormed(
      h: Header, frameType: nat, ws: seq<nat>, lay: Layout, max: nat)
    requires |h.mult| == 4 && |h.lastCell| == 4
    requires LayoutFits(lay) && TotalFits(lay, |ws| * ItemBytesOf(frameType))
    requires |BuildFrame(h, frameType, ws, lay)| <= max
    ensures F.WellFormed(BuildFrame(h, frameType, ws, lay), max)
  {
    var f := BuildFrame(h, frameType, ws, lay);
    var area := PutWords(ws, ItemBytesOf(frameType), lay.little);
    HeaderParts(h, frameType, ItemBytesOf(frameType), |ws|, lay, lay.headerPad + (area + lay.tailPad));
    assert f[..8] == f[0..8];
    PrimaryAnnounces(h, frameType, lay);
  }

  lemma {:induction false} JudgeBuilt(h: Header, frameType: nat, ws: seq<nat>, lay: Layout)
    requires HeaderFits(h) && (frameType == 1 || frameType == 2) && |ws| < U32_LIMIT
    requires LayoutFits(lay)
    ensures var area := PutWords(ws, ItemBytesOf(frameType), lay.little);
            Decoded(BuildFrame(h, frameType, ws, lay))
            == match ItemsOf(frameType, area, lay.little)
               case None => None
               case Some(items) => Some(Carried(h, frameType, items))
  {
    var area := PutWords(ws, ItemBytesOf(frameType), lay.little);
    var r := ItemsOf(frameType, area, lay.little);
    BuiltFrame(h, frameType, ws, lay, if r.Some? then r.value else []);
  }

  lemma {:induction false} PartialItems(words: seq<u32>, little: bool)
    ensures ItemsOf(1, PutWords(words, 4, little), little) == Some(ItemBytes(ClearedWords(words)))
  {
    assert Pow256(4) == U32_LIMIT;
    WordsRead(words, 4, little);
    assert Words32(PutWords(words, 4, little), little) == words;
  }

  lemma {:induction false} CompactItems(ws: seq<Word16>, little: bool)
    ensures ItemsOf(2, PutWords(ws, 2, little), little)
            == if Overfull(ws) then None else Some(ItemBytes(CompactWords(ws)))
  {
    assert Pow256(2) == 0x1_0000;
    WordsRead(ws, 2, little);
    assert Words16(PutWords(ws, 2, little), little) == ws;
  }

  /**
   A frameType 1 frame gives back its header and its words with the reserved bits cleared, in
   either byte order; packed samples (`Items.UnpackAfterPack`) have none set.
   */
  lemma {:induction false} PartialRoundTrip(h: Header, words: seq<u32>, lay: Layout)
    requires HeaderFits(h) && |words| < U32_LIMIT && LayoutFits(lay)
    ensures Decoded(BuildFrame(h, 1, words, lay))
            == Some(Carried(h, 1, ItemBytes(ClearedWords(words))))
  {
    JudgeBuilt(h, 1, words, lay);
    PartialItems(words, lay.little);
  }

  /** A compact frame gives back its header and its items in closed form, or fails if overfull. */
  lemma {:induction false} CompactRoundTrip(h: Header, ws: seq<Word16>, lay: Layout)
    requires HeaderFits(h) && |ws| < U32_LIMIT && LayoutFits(lay)
    ensures Decoded(BuildFrame(h, 2, ws, lay))
            == if Overfull(ws) then None else Some(Carried(h, 2, ItemBytes(CompactWords(ws))))
  {
    JudgeBuilt(h, 2, ws, lay);
    CompactItems(ws, lay.little);
  }

  /** The two layouts the source builds: single bytes without padding, and blocks of 256. */
  lemma {:induction false} LayoutsOfTheSource(
      little: bool, u: Unread, itemBytes: nat, pad: seq<byte>, tail: seq<byte>)
    requires |pad| == 168 && u.flags < 8 && |u.hitPattern| == 36
    ensures var lay := Layout(little, 0, 88, 88 + itemBytes, [], [], u);
            LayoutFits(lay) && (88 + itemBytes < 0x100_0000 ==> TotalFits(lay, itemBytes))
    ensures forall blocks: nat :: blocks < 0x100_0000 && blocks * 256 == 256 + itemBytes + |tail| ==>
                                    && LayoutFits(Layout(little, 8, 1, blocks, pad, tail, u))
                                    && TotalFits(Layout(little, 8, 1, blocks, pad, tail, u), itemBytes)
  {
    assert F.Pow2(0) == 1;
    assert F.Pow2(8) == 256 by {
      assert F.Pow2(4) == 16;
    }
  }

  // ---------------------------------------------------------------------
  // Nothing else decodes
  // ---------------------------------------------------------------------

  /** The frame is one its producers could have written. */
  ghost predicate Writes(
    f: seq<byte>, h: Header, frameType: nat, ws: seq<nat>, lay: Layout)
  {
    && HeaderFits(h) && LayoutFits(lay) && |ws| < U32_LIMIT
    && (frameType == 1 || frameType == 2)
    && (forall i :: 0 <= i < |ws| ==> ws[i] < Pow256(ItemBytesOf(frameType)))
    && f == BuildFrame(h, frameType, ws, lay)
  }

  function HeaderOf(f: seq<byte>): (h: Header)
    requires |f| >= HEADER_MIN_BYTES
  {
    Header(f[7], Field(f, 16, 6), Field(f, 22, 4), f[26], f[27], Field(f, 28, 2), f[30],
           FourFields(f, 67), Field(f, 75, 4), FourFields(f, 79))
  }

  function LayoutOf(f: seq<byte>): Layout
    requires |f| >= HEADER_MIN_BYTES && HeaderConsistent(f)
  {
    Layout(F.IsLittle(f[0]), f[0] % 16, Field(f, 8, 2), Field(f, 1, 3),
           f[HEADER_MIN_BYTES..ItemStart(f)], f[ItemsEnd(f)..],
           Unread(f[0] / 16 % 8, f[4], f[31..67], f[87]))
  }

  lemma {:induction false} WordsRewrite(area: seq<byte>, size: nat, little: bool)
    requires (size == 2 || size == 4) && |area| % size == 0
    ensures PutWords(Words(area, size, little), size, little) == area
  {
    if area != [] {
      ReadThenPut(area[..size], little);
      WordsRewrite(area[size..], size, little);
    }
  }

  lemma {:induction false} FieldRewrite(f: seq<byte>, off: nat, size: nat)
    requires off + size <= |f| && |f| > 0
    ensures Put(Field(f, off, size), size, F.IsLittle(f[0])) == f[off..off + size]
  {
    ReadThenPut(f[off..off + size], F.IsLittle(f[0]));
  }

  lemma Glue(f: seq<byte>, lo: nat, mid: nat, hi: nat)
    requires lo <= mid <= hi <= |f|
    ensures f[lo..mid] + f[mid..hi] == f[lo..hi]
  {
  }

  lemma MetaRewrite(m: byte)
    ensures m == m % 16 + 16 * (m / 16 % 8) + if F.IsLittle(m) then 0x80 else 0
  {
  }

  lemma {:induction false} PrimaryGlue(f: seq<byte>)
    requires |f| >= 8
    ensures [f[0]] + f[1..4] + [f[4]] + f[5..7] + [f[7]] == f[0..8]
  {
    assert [f[0]] == f[0..1] && [f[4]] == f[4..5] && [f[7]] == f[7..8];
    Glue(f, 0, 1, 4);
    Glue(f, 0, 4, 5);
    Glue(f, 0, 5, 7);
    Glue(f, 0, 7, 8);
  }

  lemma {:induction false} PrimaryRewrite(f: seq<byte>)
    requires |f| >= HEADER_MIN_BYTES && HeaderConsistent(f)
    ensures Primary(HeaderOf(f), FrameType(f), LayoutOf(f)) == f[0..8]
  {
    FieldRewrite(f, 1, 3);
    FieldRewrite(f, 5, 2);
    MetaRewrite(f[0]);
    assert MetaType(LayoutOf(f)) == f[0];
    PrimaryGlue(f);
  }

  lemma {:induction false} SizesRewrite(f: seq<byte>)
    requires |f| >= HEADER_MIN_BYTES && HeaderConsistent(f)
    ensures Sizes(Field(f, 10, 2), ItemCount(f), LayoutOf(f)) == f[8..16]
  {
    FieldRewrite(f, 8, 2);
    FieldRewrite(f, 10, 2);
    FieldRewrite(f, 12, 4);
    Glue(f, 8, 10, 12);
    Glue(f, 8, 12, 16);
  }

  lemma {:induction false} EventGlue(f: seq<byte>)
    requires |f| >= 31
    ensures f[16..22] + f[22..26] + [f[26], f[27]] + f[28..30] + [f[30]] == f[16..31]
  {
    assert [f[26], f[27]] == f[26..28] && [f[30]] == f[30..31];
    Glue(f, 16, 22, 26);
    Glue(f, 16, 26, 28);
    Glue(f, 16, 28, 30);
    Glue(f, 16, 30, 31);
  }

  lemma {:induction false} EventRewrite(f: seq<byte>)
    requires |f| >= HEADER_MIN_BYTES
    ensures EventPart(HeaderOf(f), F.IsLittle(f[0])) == f[16..31]
  {
    FieldRewrite(f, 16, 6);
    FieldRewrite(f, 22, 4);
    FieldRewrite(f, 28, 2);
    EventGlue(f);
  }

  lemma {:induction false} TailRewrite(f: seq<byte>)
    requires |f| >= HEADER_MIN_BYTES && HeaderConsistent(f)
    ensures TailPart(HeaderOf(f), LayoutOf(f)) == f[67..88]
  {
    FourRewrite(f, 67);
    FieldRewrite(f, 75, 4);
    FourRewrite(f, 79);
    assert [f[87]] == f[87..88];
    Glue(f, 67, 75, 79);
    Glue(f, 67, 79, 87);
    Glue(f, 67, 87, 88);
  }

  lemma {:induction false} FourRewrite(f: seq<byte>, off: nat)
    requires off + 8 <= |f|
    ensures PutFour(FourFields(f, off), F.IsLittle(f[0])) == f[off..off + 8]
  {
    FieldRewrite(f, off, 2);
    FieldRewrite(f, off + 2, 2);
    FieldRewrite(f, off + 4, 2);
    FieldRewrite(f, off + 6, 2);
    Glue(f, off, off + 2, off + 4);
    Glue(f, off, off + 4, off + 6);
    Glue(f, off, off + 6, off + 8);
  }

  lemma {:induction false} FieldsFit16(f: seq<byte>)
    requires |f| >= HEADER_MIN_BYTES
    ensures HeaderFits(HeaderOf(f)) && Field(f, 8, 2) < 0x1_0000 && ItemCount(f) < U32_LIMIT
  {
    SixBytes(f, 16);
    FourBytes(f, 22);
    TwoBytes(f, 28);
    FourWidths(f, 67);
    FourBytes(f, 75);
    FourWidths(f, 79);
    TwoBytes(f, 8);
    FourBytes(f, 12);
  }

  lemma {:induction false} HeaderGlue(f: seq<byte>)
    requires |f| >= HEADER_MIN_BYTES
    ensures f[0..8] + f[8..16] + f[16..31] + f[31..67] + f[67..88] == f[..HEADER_MIN_BYTES]
  {
    Glue(f, 0, 8, 16);
    Glue(f, 0, 16, 31);
    Glue(f, 0, 31, 67);
    Glue(f, 0, 67, 88);
  }

  lemma {:induction false} HeaderRewrite(f: seq<byte>)
    requires |f| >= HEADER_MIN_BYTES && HeaderConsistent(f) && IsData(f)
    ensures HeaderFits(HeaderOf(f)) && LayoutFits(LayoutOf(f)) && ItemCount(f) < U32_LIMIT
    ensures HeaderBytes(HeaderOf(f), FrameType(f), Field(f, 10, 2), ItemCount(f), LayoutOf(f))
            == f[..HEADER_MIN_BYTES]
  {
    FieldsFit16(f);
    PrimaryRewrite(f);
    SizesRewrite(f);
    EventRewrite(f);
    TailRewrite(f);
    HeaderGlue(f);
  }

  lemma {:induction false} AreaRewrite(f: seq<byte>)
    requires |f| >= HEADER_MIN_BYTES && HeaderConsistent(f) && IsData(f)
    ensures var size := ItemBytesOf(FrameType(f));
            var ws := Words(ItemArea(f), size, F.IsLittle(f[0]));
            |ws| == ItemCount(f) && PutWords(ws, size, F.IsLittle(f[0])) == ItemArea(f)
  {
    var size := ItemBytesOf(FrameType(f));
    assert |ItemArea(f)| == ItemCount(f) * size;
    WordsRewrite(ItemArea(f), size, F.IsLittle(f[0]));
  }

  lemma {:induction false} BehindTheHeader(f: seq<byte>)
    requires |f| >= HEADER_MIN_BYTES && HeaderConsistent(f)
    ensures f == f[..HEADER_MIN_BYTES]
                 + (f[HEADER_MIN_BYTES..ItemStart(f)] + (ItemArea(f) + f[ItemsEnd(f)..]))
  {
    Glue(f, ItemStart(f), ItemsEnd(f), |f|);
    Glue(f, HEADER_MIN_BYTES, ItemStart(f), |f|);
    Glue(f, 0, HEADER_MIN_BYTES, |f|);
  }

  lemma WordsFit(area: seq<byte>, size: nat, little: bool)
    requires size == 2 || size == 4
    ensures forall i :: 0 <= i < |Words(area, size, little)| ==>
                          Words(area, size, little)[i] < Pow256(size)
  {
  }

  /** Every frame that decodes is put together from a header, words and a layout. */
  lemma {:induction false} DecodedIsWritten(f: seq<byte>)
    requires |f| >= HEADER_MIN_BYTES && HeaderConsistent(f) && IsData(f)
    ensures var ws := Words(ItemArea(f), ItemBytesOf(FrameType(f)), F.IsLittle(f[0]));
            Writes(f, HeaderOf(f), FrameType(f), ws, LayoutOf(f))
  {
    HeaderRewrite(f);
    AreaRewrite(f);
    BehindTheHeader(f);
    WordsFit(ItemArea(f), ItemBytesOf(FrameType(f)), F.IsLittle(f[0]));
  }

  /** Too many items on one AGET of a compact frame. */
  ghost predicate TooManyWords(ws: seq<nat>) {
    exists us: seq<Word16> :: us == ws && Overfull(us)
  }

  /** What stands in the item area of a frame that decodes. */
  lemma {:induction false} DecodedMeans(f: seq<byte>)
    requires Decoded(f).Some?
    ensures |f| >= HEADER_MIN_BYTES && HeaderConsistent(f) && IsData(f)
    ensures FrameType(f) == 2 ==> !TooManyWords(Words(ItemArea(f), 2, F.IsLittle(f[0])))
  {
    if FrameType(f) == 2 {
      assert Words16(ItemArea(f), F.IsLittle(f[0])) == Words(ItemArea(f), 2, F.IsLittle(f[0]));
    }
  }

  lemma {:induction false} WrittenDecodes(
      f: seq<byte>, h: Header, frameType: nat, ws: seq<nat>, lay: Layout)
    requires Writes(f, h, frameType, ws, lay) && (frameType == 2 ==> !TooManyWords(ws))
    ensures Decoded(f).Some?
  {
    assert Pow256(2) == 0x1_0000 && Pow256(4) == U32_LIMIT;
    if frameType == 1 {
      PartialRoundTrip(h, ws, lay);
    } else {
      CompactRoundTrip(h, ws, lay);
    }
  }

  /** Written by a producer, and not overfull. */
  ghost predicate Acceptable(
    f: seq<byte>, h: Header, frameType: nat, ws: seq<nat>, lay: Layout)
  {
    Writes(f, h, frameType, ws, lay) && (frameType == 2 ==> !TooManyWords(ws))
  }

  /**
   The decoder accepts exactly what the layout describes: a frame gives a fragment iff it is
   written from a header and items in some layout, and, if it is compact, no AGET has too many.
   */
  lemma {:induction false} DecodesIffWritten(f: seq<byte>)
    ensures Decoded(f).Some?
            <==> exists h, frameType, ws, lay :: Acceptable(f, h, frameType, ws, lay)
  {
    if Decoded(f).Some? {
      DecodedMeans(f);
      DecodedIsWritten(f);
      var ws := Words(ItemArea(f), ItemBytesOf(FrameType(f)), F.IsLittle(f[0]));
      assert Acceptable(f, HeaderOf(f), FrameType(f), ws, LayoutOf(f));
    } else if h, frameType, ws, lay :| Acceptable(f, h, frameType, ws, lay) {
      WrittenDecodes(f, h, frameType, ws, lay);
    }
  }
}

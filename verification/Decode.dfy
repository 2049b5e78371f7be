/**
 Decoding one CoBo frame (src/decode.rs). `Judge` says what a frame is; the `Decoder` object
 returns the fragment and keeps the counters.
 */
module Decode {
  import opened Bytes
  import opened Framer
  import opened Items
  import opened Cursors

  const MIN_FRAME_BYTES: nat := 8
  const HEADER_MIN_BYTES: nat := 88
  const TOPOLOGY_FRAME_TYPE: nat := 7
  const TOPOLOGY_FRAME_BYTES: nat := 12

  datatype Fragment = Fragment(
    eventIdx: nat, eventTime: nat, cobo: byte, asad: byte, frameType: nat, revision: byte,
    readOffset: nat, status: byte, mult: seq<nat>, windowOut: nat, lastCell: seq<nat>,
    items: seq<byte>)

  // ---------------------------------------------------------------------
  // Peeking at a header
  // ---------------------------------------------------------------------

  /** The unsigned field at `off`, in the byte order the frame's metaType selects. */
  function Field(frame: seq<byte>, off: nat, size: nat): nat
    requires off + size <= |frame| && |frame| > 0
  {
    Uint(frame[off..off + size], IsLittle(frame[0]))
  }

  function FrameType(frame: seq<byte>): nat
    requires |frame| >= MIN_FRAME_BYTES
  {
    Field(frame, 5, 2)
  }

  predicate IsData(frame: seq<byte>)
    requires |frame| >= MIN_FRAME_BYTES
  {
    FrameType(frame) == 1 || FrameType(frame) == 2
  }

  function PeekAsad(frame: seq<byte>): Option<byte> {
    if |frame| < 28 || !IsData(frame) then None else Some(frame[27])
  }

  function PeekEventIdx(frame: seq<byte>): Option<nat> {
    if |frame| < 28 || !IsData(frame) then None else Some(Field(frame, 22, 4))
  }

  datatype Topology = Topology(cobo: byte, asadMask: byte, twoPMode: bool)

  function ParseTopology(frame: seq<byte>): Option<Topology> {
    if |frame| < TOPOLOGY_FRAME_BYTES || FrameType(frame) != TOPOLOGY_FRAME_TYPE then None
    else Some(Topology(frame[8], frame[9], frame[10] != 0))
  }

  /** The frame type, from the two bytes of the wire. */
  function WireType(frame: seq<byte>): nat
    requires |frame| >= 7
  {
    var a: nat, b: nat := frame[5], frame[6];
    if frame[0] >= 128 then a + 256 * b else 256 * a + b
  }

  /** The event index, from the four bytes of the wire. */
  function WireEventIdx(frame: seq<byte>): nat
    requires |frame| >= 26
  {
    var a: nat, b: nat, c: nat, d: nat := frame[22], frame[23], frame[24], frame[25];
    if frame[0] >= 128 then a + 0x100 * b + 0x1_0000 * c + 0x100_0000 * d
    else 0x100_0000 * a + 0x1_0000 * b + 0x100 * c + d
  }

  lemma {:induction false} TypeFromBytes(frame: seq<byte>)
    requires |frame| >= MIN_FRAME_BYTES
    ensures FrameType(frame) == WireType(frame)
  {
    assert frame[5..7] == [frame[5], frame[6]];
    TwoByteUint(frame[5], frame[6]);
    TwoByteUint(frame[6], frame[5]);
  }

  lemma {:induction false} EventIdxFromBytes(frame: seq<byte>)
    requires |frame| >= 26
    ensures Field(frame, 22, 4) == WireEventIdx(frame)
  {
    assert frame[22..26] == [frame[22], frame[23], frame[24], frame[25]];
    FourByteUint(frame[22], frame[23], frame[24], frame[25]);
    FourByteUint(frame[25], frame[24], frame[23], frame[22]);
  }

  /** A control frame: whole enough to have a type, and it is not that of data. */
  predicate IsControl(frame: seq<byte>) {
    |frame| >= 8 && WireType(frame) != 1 && WireType(frame) != 2
  }

  /** What every peek sees, and which frames are unsupported, from the bytes of the wire alone. */
  lemma {:induction false} PeeksFromBytes(frame: seq<byte>)
    ensures var data := |frame| >= 28 && (WireType(frame) == 1 || WireType(frame) == 2);
            && PeekAsad(frame) == (if data then Some(frame[27]) else None)
            && PeekEventIdx(frame) == (if data then Some(WireEventIdx(frame)) else None)
    ensures ParseTopology(frame)
            == if |frame| >= 12 && WireType(frame) == 7
               then Some(Topology(frame[8], frame[9], frame[10] != 0)) else None
    ensures Judge(frame) == Unsupported <==> IsControl(frame)
  {
    if |frame| >= MIN_FRAME_BYTES {
      TypeFromBytes(frame);
    }
    if |frame| >= 28 {
      EventIdxFromBytes(frame);
    }
  }

  // ---------------------------------------------------------------------
  // What a frame is
  // ---------------------------------------------------------------------

  datatype Verdict = Data(fragment: Fragment) | Malformed | Unsupported

  function ItemSize(frame: seq<byte>): nat
    requires |frame| >= MIN_FRAME_BYTES
  {
    if FrameType(frame) == 1 then 4 else 2
  }

  function ItemStart(frame: seq<byte>): nat
    requires |frame| >= HEADER_MIN_BYTES
  {
    Field(frame, 8, 2) * Pow2(frame[0] % 16)
  }

  function ItemCount(frame: seq<byte>): nat
    requires |frame| >= HEADER_MIN_BYTES
  {
    Field(frame, 12, 4)
  }

  function ItemsEnd(frame: seq<byte>): nat
    requires |frame| >= HEADER_MIN_BYTES
  {
    ItemStart(frame) + ItemCount(frame) * Field(frame, 10, 2)
  }

  predicate HeaderConsistent(frame: seq<byte>)
    requires |frame| >= HEADER_MIN_BYTES
  {
    && Field(frame, 10, 2) == ItemSize(frame)
    && ItemStart(frame) >= HEADER_MIN_BYTES
    && ItemsEnd(frame) <= |frame|
  }

  function ItemArea(frame: seq<byte>): seq<byte>
    requires |frame| >= HEADER_MIN_BYTES && HeaderConsistent(frame)
  {
    frame[ItemStart(frame)..ItemsEnd(frame)]
  }

  /** The items of an item area in closed form; `None` for an overfull compact frame. */
  function ItemsOf(frameType: nat, area: seq<byte>, little: bool): Option<seq<byte>> {
    if frameType == 1 then
      Some(ItemBytes(ClearedWords(Words32(area, little))))
    else
      var ws := Words16(area, little);
      if Overfull(ws) then None else Some(ItemBytes(CompactWords(ws)))
  }

  function Words32(area: seq<byte>, little: bool): (ws: seq<u32>)
    ensures |ws| == |area| / 4
  {
    assert Pow256(4) == U32_LIMIT;
    var ws := Words(area, 4, little);
    seq(|ws|, i requires 0 <= i < |ws| => ws[i])
  }

  function Words16(area: seq<byte>, little: bool): (ws: seq<Word16>)
    ensures |ws| == |area| / 2
  {
    assert Pow256(2) == 0x1_0000;
    var ws := Words(area, 2, little);
    seq(|ws|, i requires 0 <= i < |ws| => ws[i])
  }

  function FourFields(frame: seq<byte>, off: nat): seq<nat>
    requires off + 8 <= |frame|
  {
    [Field(frame, off, 2), Field(frame, off + 2, 2), Field(frame, off + 4, 2), Field(frame, off + 6, 2)]
  }

  function Judge(frame: seq<byte>): Verdict {
    if |frame| < MIN_FRAME_BYTES then Malformed
    else if !IsData(frame) then Unsupported
    else if |frame| < HEADER_MIN_BYTES then Malformed
    else if !HeaderConsistent(frame) then Malformed
    else
      match ItemsOf(FrameType(frame), ItemArea(frame), IsLittle(frame[0]))
      case None => Malformed
      case Some(items) => Data(FragmentOf(frame, items))
  }

  function FragmentOf(frame: seq<byte>, items: seq<byte>): Fragment
    requires |frame| >= HEADER_MIN_BYTES
  {
    Fragment(
      Field(frame, 22, 4), Field(frame, 16, 6), frame[26], frame[27], FrameType(frame),
      frame[7], Field(frame, 28, 2), frame[30], FourFields(frame, 67),
      Field(frame, 75, 4), FourFields(frame, 79), items)
  }

  /** The fragment of a frame that decodes. */
  function Decoded(frame: seq<byte>): Option<Fragment> {
    match Judge(frame)
    case Data(fragment) => Some(fragment)
    case Malformed => None
    case Unsupported => None
  }

  // ---------------------------------------------------------------------
  // The decoder object
  // ---------------------------------------------------------------------

  datatype Counts = Counts(
    frames: nat, items: nat, malformed: nat, unsupported: nat, topology: nat,
    type1: nat, type2: nat, sizeMismatch: nat)

  const ZERO_COUNTS := Counts(0, 0, 0, 0, 0, 0, 0, 0)

  /** The counters after one more frame. */
  function Account(c: Counts, frame: seq<byte>): Counts {
    match Judge(frame)
    case Malformed => c.(malformed := c.malformed + 1)
    case Unsupported =>
      c.(unsupported := c.unsupported + 1,
         topology := c.topology + if FrameType(frame) == TOPOLOGY_FRAME_TYPE then 1 else 0)
    case Data(fragment) =>
      var d := c.(frames := c.frames + 1, items := c.items + |fragment.items| / 4);
      if FrameType(frame) == 1 then d.(type1 := d.type1 + 1)
      else
        d.(type2 := d.type2 + 1,
           sizeMismatch := d.sizeMismatch + if SizeLooksComplete(ItemCount(frame)) then 0 else 1)
  }

  class Decoder {
    var frames: nat
    var items: nat
    var malformed: nat
    var unsupported: nat
    var topology: nat
    var framesType1: nat
    var framesType2: nat
    var compactSizeMismatch: nat

    constructor ()
      ensures State() == ZERO_COUNTS
    {
      frames, items, malformed, unsupported, topology := 0, 0, 0, 0, 0;
      framesType1, framesType2, compactSizeMismatch := 0, 0, 0;
    }

    function State(): Counts
      reads this
    {
      Counts(frames, items, malformed, unsupported, topology, framesType1, framesType2,
             compactSizeMismatch)
    }

    method Decode(frame: seq<byte>) returns (r: Option<Fragment>)
      modifies this
      ensures r == Decoded(frame)
      ensures State() == Account(old(State()), frame)
    {
      if |frame| < MIN_FRAME_BYTES {
        malformed := malformed + 1;
        return None;
      }
      var frameType := FrameType(frame);
      if frameType != 1 && frameType != 2 {
        unsupported := unsupported + 1;
        if frameType == TOPOLOGY_FRAME_TYPE {
          topology := topology + 1;
        }
        return None;
      }
      if |frame| < HEADER_MIN_BYTES {
        malformed := malformed + 1;
        return None;
      }
      var itemBytes := ReadItems(frame);
      if itemBytes.None? {
        malformed := malformed + 1;
        return None;
      }
      CountData(frameType, ItemCount(frame), |itemBytes.value| / 4);
      return Some(FragmentOf(frame, itemBytes.value));
    }

    method CountData(frameType: nat, itemCount: nat, decodedItems: nat)
      modifies this
      ensures var c := old(State());
              State() == c.(frames := c.frames + 1, items := c.items + decodedItems,
                            type1 := c.type1 + if frameType == 1 then 1 else 0,
                            type2 := c.type2 + if frameType == 1 then 0 else 1,
                            sizeMismatch := c.sizeMismatch +
                            if frameType == 1 || SizeLooksComplete(itemCount) then 0 else 1)
    {
      frames := frames + 1;
      items := items + decodedItems;
      if frameType == 1 {
        framesType1 := framesType1 + 1;
      } else {
        framesType2 := framesType2 + 1;
        if itemCount == 0 || itemCount % ITEMS_PER_AGET != 0
           || itemCount / ITEMS_PER_AGET > MAX_AGETS {
          compactSizeMismatch := compactSizeMismatch + 1;
        }
      }
    }
  }

  /** The size checks of a data frame, then its items; `None` when any of them fails. */
  method ReadItems(frame: seq<byte>) returns (r: Option<seq<byte>>)
    requires |frame| >= HEADER_MIN_BYTES && IsData(frame)
    ensures r == if HeaderConsistent(frame)
                 then ItemsOf(FrameType(frame), ItemArea(frame), IsLittle(frame[0])) else None
  {
    var frameType := FrameType(frame);
    var itemSize, itemCount, itemStart := Field(frame, 10, 2), ItemCount(frame), ItemStart(frame);
    var itemsEnd := itemStart + itemCount * itemSize;
    var expected := if frameType == 1 then 4 else 2;
    if itemSize != expected || itemStart < HEADER_MIN_BYTES || itemsEnd > |frame| {
      return None;
    }
    r := DecodeItems(frameType, frame[itemStart..itemsEnd], IsLittle(frame[0]));
  }

  method DecodeItems(frameType: nat, area: seq<byte>, little: bool) returns (r: Option<seq<byte>>)
    ensures r == ItemsOf(frameType, area, little)
  {
    if frameType == 1 {
      var out := DecodePartial(Words32(area, little));
      r := Some(out);
    } else {
      r := DecodeCompact(Words16(area, little));
    }
  }

  // ---------------------------------------------------------------------
  // Accounting, and agreement with the peeks
  // ---------------------------------------------------------------------

  function Tally(frames: seq<seq<byte>>): Counts {
    if frames == [] then ZERO_COUNTS
    else Account(Tally(frames[..|frames| - 1]), frames[|frames| - 1])
  }

  /** Every frame is counted in exactly one class, and the sub-counters partition theirs. */
  lemma {:induction false} EveryFrameIsCountedOnce(frames: seq<seq<byte>>)
    ensures var t := Tally(frames);
            && t.frames + t.malformed + t.unsupported == |frames|
            && t.type1 + t.type2 == t.frames
            && t.topology <= t.unsupported && t.sizeMismatch <= t.type2
  {
    if frames != [] {
      EveryFrameIsCountedOnce(frames[..|frames| - 1]);
    }
  }

  predicate Decodes(frame: seq<byte>) {
    Decoded(frame).Some?
  }

  /** Neither a control frame nor one that decodes. */
  predicate IsBroken(frame: seq<byte>) {
    !Decodes(frame) && !IsControl(frame)
  }

  predicate IsTopology(frame: seq<byte>) {
    |frame| >= 8 && WireType(frame) == 7
  }

  predicate IsPartial(frame: seq<byte>) {
    Decodes(frame) && WireType(frame) == 1
  }

  predicate IsCompact(frame: seq<byte>) {
    Decodes(frame) && WireType(frame) == 2
  }

  /** A compact frame whose items are not one, two, three or four whole AGETs. */
  predicate OddSized(frame: seq<byte>) {
    IsCompact(frame)
    && var n := |Decoded(frame).value.items| / 4; n !in {34816, 69632, 104448, 139264}
  }

  /** How many items the frames decode to. */
  function ItemsIn(frames: seq<seq<byte>>): nat {
    if frames == [] then 0
    else
      var d := Decoded(frames[|frames| - 1]);
      ItemsIn(frames[..|frames| - 1]) + if d.Some? then |d.value.items| / 4 else 0
  }

  lemma CompleteSizes(n: nat)
    ensures SizeLooksComplete(n) <==> n in {34816, 69632, 104448, 139264}
  {
    var q := n / ITEMS_PER_AGET;
    assert n % ITEMS_PER_AGET == 0 ==> n == q * ITEMS_PER_AGET;
    assert n % ITEMS_PER_AGET == 0 && n != 0 && q <= MAX_AGETS ==> q in {1, 2, 3, 4};
  }

  lemma {:induction false} CompactItemCount(frame: seq<byte>)
    requires IsCompact(frame)
    ensures |Decoded(frame).value.items| / 4 == ItemCount(frame)
  {
    TypeFromBytes(frame);
    assert |ItemArea(frame)| == 2 * ItemCount(frame);
  }

  /** Every counter is the number of frames of its kind, over any list of frames. */
  lemma {:induction false} CountersAreExact(frames: seq<seq<byte>>)
    ensures var t := Tally(frames);
            && t.frames == CountIf(frames, Decodes) && t.items == ItemsIn(frames)
            && t.malformed == CountIf(frames, IsBroken)
            && t.unsupported == CountIf(frames, IsControl)
            && t.topology == CountIf(frames, IsTopology)
            && t.type1 == CountIf(frames, IsPartial) && t.type2 == CountIf(frames, IsCompact)
            && t.sizeMismatch == CountIf(frames, OddSized)
  {
    if frames != [] {
      var f := frames[|frames| - 1];
      CountersAreExact(frames[..|frames| - 1]);
      PeeksFromBytes(f);
      if |f| >= MIN_FRAME_BYTES {
        TypeFromBytes(f);
      }
      if IsCompact(f) {
        CompactItemCount(f);
        CompleteSizes(ItemCount(f));
      }
    }
  }

  /**
   The header peeks that route raw frames agree with the decoder: a frame that decodes goes to
   the file of its own AsAd, so a frame kept under ctrl/ is never a fragment.
   */
  lemma PeeksAgreeWithDecoding(frame: seq<byte>)
    ensures Decoded(frame).Some? ==>
              && PeekAsad(frame) == Some(Decoded(frame).value.asad)
              && PeekEventIdx(frame) == Some(Decoded(frame).value.eventIdx)
    ensures PeekAsad(frame).None? ==> Decoded(frame).None?
    ensures ParseTopology(frame).Some? ==> Judge(frame) == Unsupported
  {
  }

  lemma {:induction false} FieldWidth(frame: seq<byte>, off: nat, size: nat)
    requires off + size <= |frame| && |frame| > 0
    ensures Field(frame, off, size) < Pow256(size)
  {
    UintBound(frame[off..off + size], IsLittle(frame[0]));
  }

  lemma {:induction false} ItemsAreWholeWords(frameType: nat, area: seq<byte>, little: bool)
    requires ItemsOf(frameType, area, little).Some?
    ensures |ItemsOf(frameType, area, little).value| % 4 == 0
  {
    if frameType == 1 {
      WholeWords(ClearedWords(Words32(area, little)));
    } else {
      WholeWords(CompactWords(Words16(area, little)));
    }
  }

  lemma WholeWords(words: seq<u32>)
    ensures |ItemBytes(words)| % 4 == 0
  {
  }

  lemma {:induction false} TwoBytes(frame: seq<byte>, off: nat)
    requires off + 2 <= |frame|
    ensures Field(frame, off, 2) < 0x1_0000
  {
    FieldWidth(frame, off, 2);
    assert Pow256(2) == 0x1_0000;
  }

  lemma {:induction false} FourBytes(frame: seq<byte>, off: nat)
    requires off + 4 <= |frame|
    ensures Field(frame, off, 4) < U32_LIMIT
  {
    FieldWidth(frame, off, 4);
    assert Pow256(4) == U32_LIMIT;
  }

  lemma {:induction false} SixBytes(frame: seq<byte>, off: nat)
    requires off + 6 <= |frame|
    ensures Field(frame, off, 6) < 0x1_0000_0000_0000
  {
    FieldWidth(frame, off, 6);
    assert Pow256(4) == U32_LIMIT;
    assert Pow256(5) == 256 * Pow256(4);
  }

  lemma {:induction false} FourWidths(frame: seq<byte>, off: nat)
    requires off + 8 <= |frame|
    ensures forall i :: 0 <= i < 4 ==> FourFields(frame, off)[i] < 0x1_0000
  {
    TwoBytes(frame, off);
    TwoBytes(frame, off + 2);
    TwoBytes(frame, off + 4);
    TwoBytes(frame, off + 6);
  }

  /** Every field of the fragment fits its place in the frame. */
  predicate Sane(f: Fragment) {
    && f.eventTime < 0x1_0000_0000_0000 && f.eventIdx < U32_LIMIT
    && (f.frameType == 1 || f.frameType == 2)
    && f.readOffset < 0x1_0000 && f.windowOut < U32_LIMIT
    && |f.mult| == |f.lastCell| == 4
    && (forall i :: 0 <= i < 4 ==> f.mult[i] < 0x1_0000 && f.lastCell[i] < 0x1_0000)
    && |f.items| % 4 == 0
  }

  /** Fragment fields keep their wire width, and items are whole words. */
  lemma {:induction false} FragmentWidths(frame: seq<byte>)
    requires Decoded(frame).Some?
    ensures Sane(Decoded(frame).value)
  {
    SixBytes(frame, 16);
    FourBytes(frame, 22);
    TwoBytes(frame, 28);
    FourWidths(frame, 67);
    FourBytes(frame, 75);
    FourWidths(frame, 79);
    ItemsAreWholeWords(FrameType(frame), ItemArea(frame), IsLittle(frame[0]));
  }
}

/**
 The wire form of samples and of message streams (src/msg.rs): the 32-bit item word, the
 byte string of a fragment's items, and the length-prefixed stream of messages.

 A word is the natural number its bits denote. Its fields do not overlap, so or-ing shifted
 fields together is adding them, and shifting and masking is dividing and taking remainders.
 */
module Items {
  import opened Bytes

  const AGET_MAX: nat := 3
  const CHAN_MAX: nat := 127
  const BUCKET_MAX: nat := 511
  const ADC_MAX: nat := 4095

  const AGET_UNIT: nat := 0x4000_0000 // bit 30
  const CHAN_UNIT: nat := 0x80_0000 // bit 23
  const BUCKET_UNIT: nat := 0x4000 // bit 14
  const RESERVED_UNIT: nat := 0x1000 // bits 13:12

  datatype Item = Item(aget: nat, chan: nat, bucket: nat, adc: nat)

  predicate FieldsFit(i: Item) {
    i.aget <= AGET_MAX && i.chan <= CHAN_MAX && i.bucket <= BUCKET_MAX && i.adc <= ADC_MAX
  }

  /** Packs one sample; a field that does not fit is an error, never truncated. */
  function PackItem(i: Item): Option<u32> {
    if FieldsFit(i) then
      Some(i.aget * AGET_UNIT + i.chan * CHAN_UNIT + i.bucket * BUCKET_UNIT + i.adc)
    else None
  }

  /** Unpacks a word, ignoring the two reserved bits. */
  function UnpackItem(w: u32): Item {
    Item(w / AGET_UNIT % 4, w / CHAN_UNIT % 128, w / BUCKET_UNIT % 512, w % 4096)
  }

  function ReservedBits(w: u32): nat {
    w / RESERVED_UNIT % 4
  }

  /** Packing is injective on the samples it accepts: unpacking recovers them. */
  lemma {:induction false} UnpackAfterPack(i: Item)
    ensures PackItem(i).Some? <==> FieldsFit(i)
    ensures PackItem(i).Some? ==> UnpackItem(PackItem(i).value) == i
    ensures PackItem(i).Some? ==> ReservedBits(PackItem(i).value) == 0
  {
    if FieldsFit(i) {
      var w := PackItem(i).value;
      assert w / AGET_UNIT == i.aget;
      assert w / CHAN_UNIT == i.aget * 128 + i.chan;
      assert w / BUCKET_UNIT == (i.aget * 128 + i.chan) * 512 + i.bucket;
      assert w / RESERVED_UNIT == ((i.aget * 128 + i.chan) * 512 + i.bucket) * 4;
    }
  }

  /** Every word unpacks to a packable sample, and packing it again only clears bits 13:12. */
  lemma {:induction false} PackAfterUnpack(w: u32)
    ensures PackItem(UnpackItem(w)) == Some(w - ReservedBits(w) * RESERVED_UNIT)
  {
    var a, b, c := w / 4096, w / BUCKET_UNIT, w / CHAN_UNIT;
    assert w == a * 4096 + w % 4096;
    assert b == a / 4 && a == b * 4 + a % 4;
    assert c == b / 512 && b == c * 512 + b % 512;
    assert w / AGET_UNIT == c / 128 && c == c / 128 * 128 + c % 128;
  }

  /** The four bytes of a packed sample, from the top: where each field has its bits. */
  function WordBytes(i: Item): (b: seq<byte>)
    requires FieldsFit(i)
    ensures |b| == 4
  {
    [64 * i.aget + i.chan / 2, 128 * (i.chan % 2) + i.bucket / 4,
     64 * (i.bucket % 4) + i.adc / 256, i.adc % 256]
  }

  lemma WordInBytes(
      aget: nat, chanHigh: nat, chanLow: nat, bucketHigh: nat, bucketLow: nat, adcHigh: nat,
      adcLow: nat)
    ensures aget * AGET_UNIT + (2 * chanHigh + chanLow) * CHAN_UNIT
            + (4 * bucketHigh + bucketLow) * BUCKET_UNIT + (256 * adcHigh + adcLow)
            == 0x100_0000 * (64 * aget + chanHigh) + 0x1_0000 * (128 * chanLow + bucketHigh)
               + 0x100 * (64 * bucketLow + adcHigh) + adcLow
  {
  }

  function FromBytes(a: nat, b: nat, c: nat, d: nat): nat {
    0x100_0000 * a + 0x1_0000 * b + 0x100 * c + d
  }

  lemma {:induction false} FourBytesOf(w: nat, a: byte, b: byte, c: byte, d: byte)
    requires w == FromBytes(a, b, c, d)
    ensures PutBig(w, 4) == [a, b, c, d] && PutLittle(w, 4) == [d, c, b, a]
  {
    FourByteUint(a, b, c, d);
    ReadThenPut([a, b, c, d], false);
    ReadThenPut([d, c, b, a], true);
  }

  lemma PackedValue(i: Item)
    requires FieldsFit(i)
    ensures var b := WordBytes(i);
            PackItem(i).value == FromBytes(b[0], b[1], b[2], b[3])
  {
    WordInBytes(i.aget, i.chan / 2, i.chan % 2, i.bucket / 4, i.bucket % 4, i.adc / 256, i.adc % 256);
  }

  /** A packed sample in bytes: its AGET is on top, then channel, bucket and ADC value. */
  lemma {:induction false} PackedBytes(i: Item)
    requires FieldsFit(i)
    ensures var w := PackItem(i).value;
            var b := WordBytes(i);
            PutBig(w, 4) == b && PutLittle(w, 4) == [b[3], b[2], b[1], b[0]]
  {
    var b := WordBytes(i);
    PackedValue(i);
    FourBytesOf(PackItem(i).value, b[0], b[1], b[2], b[3]);
  }

  // ---------------------------------------------------------------------
  // Fragment items: little-endian words
  // ---------------------------------------------------------------------

  function ItemBytes(words: seq<u32>): (b: seq<byte>)
    ensures |b| == 4 * |words|
  {
    if words == [] then [] else PutLittle(words[0], 4) + ItemBytes(words[1..])
  }

  lemma {:induction false} ItemBytesConcat(a: seq<u32>, b: seq<u32>)
    ensures ItemBytes(a + b) == ItemBytes(a) + ItemBytes(b)
  {
    if a == [] {
      assert a + b == b;
    } else {
      var head, tail := PutLittle(a[0], 4), ItemBytes(a[1..]);
      assert (a + b)[1..] == a[1..] + b;
      ItemBytesConcat(a[1..], b);
      assert ItemBytes(a + b) == head + (tail + ItemBytes(b));
      assert head + (tail + ItemBytes(b)) == (head + tail) + ItemBytes(b);
    }
  }

  lemma {:induction false} ItemBytesSnoc(a: seq<u32>, w: u32)
    ensures ItemBytes(a + [w]) == ItemBytes(a) + PutLittle(w, 4)
  {
    ItemBytesConcat(a, [w]);
    assert [w][1..] == [];
  }

  method ItemsToBytes(words: seq<u32>) returns (out: seq<byte>)
    ensures out == ItemBytes(words)
  {
    out := [];
    for i := 0 to |words|
      invariant out == ItemBytes(words[..i])
    {
      assert words[..i + 1] == words[..i] + [words[i]];
      ItemBytesSnoc(words[..i], words[i]);
      out := out + PutLittle(words[i], 4);
    }
    assert words[..|words|] == words;
  }

  /** `None` is the misaligned-length error; otherwise the words whose bytes these are. */
  method ItemsFromBytes(bytes: seq<byte>) returns (r: Option<seq<u32>>)
    ensures r.None? <==> |bytes| % 4 != 0
    ensures r.Some? ==> ItemBytes(r.value) == bytes
  {
    if |bytes| % 4 != 0 {
      return None;
    }
    var words: seq<u32> := [];
    var i := 0;
    while i < |bytes|
      invariant 0 <= i <= |bytes| && i % 4 == 0
      invariant ItemBytes(words) == bytes[..i]
    {
      var chunk := bytes[i..i + 4];
      UintBound(chunk, true);
      assert Pow256(4) == U32_LIMIT;
      var w: u32 := UintLittle(chunk);
      ReadThenPut(chunk, true);
      ItemBytesSnoc(words, w);
      assert bytes[..i + 4] == bytes[..i] + chunk;
      words := words + [w];
      i := i + 4;
    }
    return Some(words);
  }

  /** The byte string determines the words, so the two conversions are mutually inverse. */
  lemma {:induction false} ItemBytesInjective(a: seq<u32>, b: seq<u32>)
    requires ItemBytes(a) == ItemBytes(b)
    ensures a == b
  {
    assert |a| == |b|;
    if a != [] {
      assert PutLittle(a[0], 4) == ItemBytes(a)[..4] == PutLittle(b[0], 4);
      assert Pow256(4) == U32_LIMIT;
      PutThenRead(a[0], 4, true);
      PutThenRead(b[0], 4, true);
      assert ItemBytes(a[1..]) == ItemBytes(a)[4..] == ItemBytes(b[1..]);
      ItemBytesInjective(a[1..], b[1..]);
      assert a == [a[0]] + a[1..] && b == [b[0]] + b[1..];
    }
  }

  // ---------------------------------------------------------------------
  // Length-prefixed streams
  // ---------------------------------------------------------------------

  /** The length field; a length that does not fit is clamped to the largest u32. */
  function LengthField(n: nat): u32 {
    if n < U32_LIMIT then n else U32_LIMIT - 1
  }

  function LengthPrefixed(frames: seq<seq<byte>>): seq<byte> {
    if frames == [] then []
    else PutLittle(LengthField(|frames[0]|), 4) + frames[0] + LengthPrefixed(frames[1..])
  }

  datatype Split = Frames(frames: seq<seq<byte>>) | TruncatedAt(pos: nat)

  method SplitLengthPrefixed(bytes: seq<byte>) returns (r: Split)
    ensures r == SplitFrom(bytes, 0)
  {
    var frames := [];
    var pos := 0;
    while pos < |bytes|
      invariant 0 <= pos <= |bytes|
      invariant SplitFrom(bytes, 0) == PutInFront(frames, SplitFrom(bytes, pos))
    {
      if |bytes| - pos < 4 {
        return TruncatedAt(pos);
      }
      var len := UintLittle(bytes[pos..pos + 4]);
      pos := pos + 4;
      if |bytes| - pos < len {
        return TruncatedAt(pos);
      }
      var frame := bytes[pos..pos + len];
      PutTwoInFront(frames, [frame], SplitFrom(bytes, pos + len));
      frames := frames + [frame];
      pos := pos + len;
    }
    assert frames + [] == frames;
    return Frames(frames);
  }

  function PutInFront(frames: seq<seq<byte>>, s: Split): Split {
    if s.Frames? then Frames(frames + s.frames) else s
  }

  lemma {:induction false} PutTwoInFront(a: seq<seq<byte>>, b: seq<seq<byte>>, s: Split)
    ensures PutInFront(a, PutInFront(b, s)) == PutInFront(a + b, s)
  {
    if s.Frames? {
      Associate(a, b, s.frames);
    }
  }

  ghost function SplitFrom(bytes: seq<byte>, pos: nat): Split
    requires pos <= |bytes|
    decreases |bytes| - pos
  {
    if pos == |bytes| then Frames([])
    else if |bytes| - pos < 4 then TruncatedAt(pos)
    else
      var len := UintLittle(bytes[pos..pos + 4]);
      if |bytes| - (pos + 4) < len then TruncatedAt(pos + 4)
      else PutInFront([bytes[pos + 4..pos + 4 + len]], SplitFrom(bytes, pos + 4 + len))
  }

  /** What a successful split returns: short frames whose length-prefixed form is the input. */
  lemma {:induction false} SplitIsInvertedByWriting(bytes: seq<byte>, pos: nat)
    requires pos <= |bytes| && SplitFrom(bytes, pos).Frames?
    ensures LengthPrefixed(SplitFrom(bytes, pos).frames) == bytes[pos..]
    ensures forall i :: 0 <= i < |SplitFrom(bytes, pos).frames| ==>
                          |SplitFrom(bytes, pos).frames[i]| < U32_LIMIT
    decreases |bytes| - pos
  {
    if pos < |bytes| {
      var field := bytes[pos..pos + 4];
      var len := UintLittle(field);
      UintBound(field, true);
      assert Pow256(4) == U32_LIMIT;
      var next := pos + 4 + len;
      SplitIsInvertedByWriting(bytes, next);
      var frame := bytes[pos + 4..next];
      var later := SplitFrom(bytes, next).frames;
      assert ([frame] + later)[1..] == later;
      ReadThenPut(field, true);
      assert bytes[pos..] == field + frame + bytes[next..];
    }
  }

  /** Where a stream stops in the middle: inside a length field, or behind one that promises more. */
  predicate StopsAt(rest: seq<byte>, start: nat, pos: nat) {
    if |rest| < 4 then rest != [] && pos == start
    else pos == start + 4 && UintLittle(rest[..4]) > |rest| - 4
  }

  /** A truncated stream is whole frames and then the start of one more, and says where that is. */
  lemma {:induction false} TruncationPoint(bytes: seq<byte>, pos: nat)
    returns (frames: seq<seq<byte>>, rest: seq<byte>)
    requires pos <= |bytes| && SplitFrom(bytes, pos).TruncatedAt?
    ensures bytes[pos..] == LengthPrefixed(frames) + rest
    ensures forall i :: 0 <= i < |frames| ==> |frames[i]| < U32_LIMIT
    ensures StopsAt(rest, |bytes| - |rest|, SplitFrom(bytes, pos).pos)
    decreases |bytes| - pos
  {
    frames, rest := [], bytes[pos..];
    if |rest| >= 4 {
      var field := bytes[pos..pos + 4];
      var len := UintLittle(field);
      assert rest[..4] == field;
      if |bytes| - (pos + 4) >= len {
        UintBound(field, true);
        assert Pow256(4) == U32_LIMIT;
        var next := pos + 4 + len;
        var frame := bytes[pos + 4..next];
        frames, rest := TruncationPoint(bytes, next);
        ReadThenPut(field, true);
        assert bytes[pos..] == field + frame + bytes[next..];
        Associate(field + frame, LengthPrefixed(frames), rest);
        frames := [frame] + frames;
      }
    }
  }

  /** A frame too long for the field goes behind the largest length there is. */
  lemma {:induction false} LongFramesAreClamped(frame: seq<byte>)
    requires |frame| >= U32_LIMIT
    ensures LengthPrefixed([frame]) == [255, 255, 255, 255] + frame
  {
    var ones: seq<byte> := [255, 255, 255, 255];
    FourByteUint(255, 255, 255, 255);
    ReadThenPut(ones, true);
    assert [frame][1..] == [];
  }

  lemma {:induction false} ThreeParts(
      bytes: seq<byte>, pos: nat, a: seq<byte>, b: seq<byte>, c: seq<byte>)
    requires pos <= |bytes| && bytes[pos..] == a + b + c
    ensures pos + |a| + |b| <= |bytes|
    ensures bytes[pos..pos + |a|] == a && bytes[pos + |a|..pos + |a| + |b|] == b
    ensures bytes[pos + |a| + |b|..] == c
  {
    var rest := bytes[pos..];
    assert a == rest[..|a|] && b == rest[|a|..|a| + |b|] && c == rest[|a| + |b|..];
  }

  lemma {:induction false} SplitOneFrame(bytes: seq<byte>, pos: nat, next: nat)
    requires pos + 4 <= next <= |bytes| && next - (pos + 4) < U32_LIMIT
    requires bytes[pos..pos + 4] == PutLittle(next - (pos + 4), 4)
    ensures SplitFrom(bytes, pos) == PutInFront([bytes[pos + 4..next]], SplitFrom(bytes, next))
  {
    assert Pow256(4) == U32_LIMIT;
    PutThenRead(next - (pos + 4), 4, true);
  }

  lemma {:induction false} WritingIsInvertedBySplit(bytes: seq<byte>, pos: nat, frames: seq<seq<byte>>)
    requires pos <= |bytes| && bytes[pos..] == LengthPrefixed(frames)
    requires forall i :: 0 <= i < |frames| ==> |frames[i]| < U32_LIMIT
    ensures SplitFrom(bytes, pos) == Frames(frames)
    decreases |frames|
  {
    if frames != [] {
      var frame := frames[0];
      var field := PutLittle(|frame|, 4);
      var next := pos + 4 + |frame|;
      ThreeParts(bytes, pos, field, frame, LengthPrefixed(frames[1..]));
      SplitOneFrame(bytes, pos, next);
      WritingIsInvertedBySplit(bytes, next, frames[1..]);
      assert frames == [frame] + frames[1..];
    }
  }

  /** The round trip holds exactly when every length fits the u32 field. */
  lemma {:induction false} LengthPrefixRoundTrip(frames: seq<seq<byte>>)
    ensures SplitFrom(LengthPrefixed(frames), 0) == Frames(frames)
            <==> forall i :: 0 <= i < |frames| ==> |frames[i]| < U32_LIMIT
  {
    var bytes := LengthPrefixed(frames);
    assert bytes[0..] == bytes;
    if forall i :: 0 <= i < |frames| ==> |frames[i]| < U32_LIMIT {
      WritingIsInvertedBySplit(bytes, 0, frames);
    }
    if SplitFrom(bytes, 0) == Frames(frames) {
      SplitIsInvertedByWriting(bytes, 0);
    }
  }
}

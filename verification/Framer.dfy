/**
 The MFM framer (src/framer.rs): cuts frames out of a byte stream that arrives in
 arbitrary chunks. `Cut` is the reference: it looks at the whole stream at once.
 */
module Framer {
  import opened Bytes

  const PRIMARY_HEADER_SIZE: nat := 8
  const DEFAULT_MAX_FRAME_BYTES: nat := 64 * 1024 * 1024

  function Pow2(k: nat): (r: nat)
    ensures r > 0
  {
    if k == 0 then 1 else 2 * Pow2(k - 1)
  }

  /** bit 7 of metaType selects the byte order of a frame. */
  predicate IsLittle(metaType: byte) {
    metaType >= 0x80
  }

  /** Total frame length announced by a primary header; `None` for a broken one. */
  function ParseFrameSize(header: seq<byte>): (r: Option<nat>)
    requires |header| >= PRIMARY_HEADER_SIZE
    ensures r.Some? ==> r.value >= PRIMARY_HEADER_SIZE
  {
    var blocks := Uint(header[1..4], IsLittle(header[0]));
    var size := blocks * Pow2(header[0] % 16);
    if size < PRIMARY_HEADER_SIZE then None else Some(size)
  }

  // ---------------------------------------------------------------------
  // Reference: cutting a whole stream
  // ---------------------------------------------------------------------

  datatype Head = Incomplete | Corrupt | Complete(frame: seq<byte>)

  /** What the front of `s` holds. */
  function HeadOf(s: seq<byte>, max: nat): (h: Head)
    ensures h.Complete? ==> PRIMARY_HEADER_SIZE <= |h.frame| && h.frame <= s
  {
    if |s| < PRIMARY_HEADER_SIZE then Incomplete
    else
      match ParseFrameSize(s[..PRIMARY_HEADER_SIZE])
      case None => Corrupt
      case Some(n) =>
        if n > max then Corrupt
        else if |s| < n then Incomplete
        else Complete(s[..n])
  }

  datatype Cutting = Cutting(frames: seq<seq<byte>>, rest: seq<byte>, corrupt: bool)

  /** Cuts frames off the front of `s` until the rest is incomplete or corrupt. */
  function Cut(s: seq<byte>, max: nat): Cutting
    decreases |s|
  {
    match HeadOf(s, max)
    case Incomplete => Cutting([], s, false)
    case Corrupt => Cutting([], s, true)
    case Complete(f) =>
      var c := Cut(s[|f|..], max);
      Cutting([f] + c.frames, c.rest, c.corrupt)
  }

  /** A frame whose own header announces exactly its length. */
  predicate WellFormed(f: seq<byte>, max: nat) {
    && |f| >= PRIMARY_HEADER_SIZE
    && |f| <= max
    && ParseFrameSize(f[..PRIMARY_HEADER_SIZE]) == Some(|f|)
  }

  lemma {:induction false} FrontFrame(s: seq<byte>, f: seq<byte>, c: Cutting)
    requires f <= s && Flat(c.frames) + c.rest == s[|f|..]
    ensures Flat([f] + c.frames) + c.rest == s
  {
    assert ([f] + c.frames)[1..] == c.frames;
    Associate(f, Flat(c.frames), c.rest);
    assert s == f + s[|f|..];
  }

  /** Cutting loses and invents no byte, and stops only at an incomplete or corrupt front. */
  lemma {:induction false} CutIsByteExact(s: seq<byte>, max: nat)
    ensures var c := Cut(s, max);
            && Flat(c.frames) + c.rest == s
            && HeadOf(c.rest, max) == (if c.corrupt then Corrupt else Incomplete)
    decreases |s|
  {
    var h := HeadOf(s, max);
    if h.Complete? {
      CutIsByteExact(s[|h.frame|..], max);
      FrontFrame(s, h.frame, Cut(s[|h.frame|..], max));
    }
  }

  lemma {:induction false} HeadIsWellFormed(s: seq<byte>, max: nat)
    requires HeadOf(s, max).Complete?
    ensures WellFormed(HeadOf(s, max).frame, max)
  {
    var f := HeadOf(s, max).frame;
    assert f[..PRIMARY_HEADER_SIZE] == s[..PRIMARY_HEADER_SIZE];
  }

  /** Every frame that is cut out is well formed. */
  lemma {:induction false} CutYieldsWellFormed(s: seq<byte>, max: nat)
    ensures forall i :: 0 <= i < |Cut(s, max).frames| ==> WellFormed(Cut(s, max).frames[i], max)
    decreases |s|
  {
    var h := HeadOf(s, max);
    if h.Complete? {
      HeadIsWellFormed(s, max);
      CutYieldsWellFormed(s[|h.frame|..], max);
    }
  }

  /** The inverse: a stream put together from well-formed frames is cut back into them. */
  lemma {:induction false} CutOfFrames(frames: seq<seq<byte>>, max: nat)
    requires forall f :: f in frames ==> WellFormed(f, max)
    ensures Cut(Flat(frames), max) == Cutting(frames, [], false)
  {
    if frames != [] {
      var f := frames[0];
      var s := Flat(frames);
      assert f in frames;
      assert s[..PRIMARY_HEADER_SIZE] == f[..PRIMARY_HEADER_SIZE];
      assert s[..|f|] == f;
      assert s[|f|..] == Flat(frames[1..]);
      CutOfFrames(frames[1..], max);
      assert frames == [f] + frames[1..];
    }
  }

  /** More bytes never change a decision that was already made. */
  lemma {:induction false} HeadIsStable(s: seq<byte>, t: seq<byte>, max: nat)
    requires !HeadOf(s, max).Incomplete?
    ensures HeadOf(s + t, max) == HeadOf(s, max)
  {
    assert (s + t)[..PRIMARY_HEADER_SIZE] == s[..PRIMARY_HEADER_SIZE];
    if HeadOf(s, max).Complete? {
      var n := |HeadOf(s, max).frame|;
      assert (s + t)[..n] == s[..n];
    }
  }

  /** The cutting of a longer stream, computed from the cutting of the shorter one. */
  function Extend(c: Cutting, t: seq<byte>, max: nat): Cutting {
    if c.corrupt then Cutting(c.frames, c.rest + t, true)
    else Prepend(c.frames, Cut(c.rest + t, max))
  }

  function Prepend(frames: seq<seq<byte>>, c: Cutting): Cutting {
    c.(frames := frames + c.frames)
  }

  lemma {:induction false} PrependTwice(a: seq<seq<byte>>, b: seq<seq<byte>>, c: Cutting)
    ensures Prepend(a, Prepend(b, c)) == Prepend(a + b, c)
  {
    assert a + (b + c.frames) == (a + b) + c.frames;
  }

  lemma {:induction false} ExtendPrepend(frames: seq<seq<byte>>, c: Cutting, t: seq<byte>, max: nat)
    ensures Extend(Prepend(frames, c), t, max) == Prepend(frames, Extend(c, t, max))
  {
    if !c.corrupt {
      PrependTwice(frames, c.frames, Cut(c.rest + t, max));
    }
  }

  /** Cutting a longer stream continues from the rest of the shorter one. */
  lemma {:induction false} CutExtends(s: seq<byte>, t: seq<byte>, max: nat)
    ensures Cut(s + t, max) == Extend(Cut(s, max), t, max)
    decreases |s|
  {
    match HeadOf(s, max)
    case Incomplete =>
      assert [] + Cut(s + t, max).frames == Cut(s + t, max).frames;
    case Corrupt =>
      HeadIsStable(s, t, max);
    case Complete(f) =>
      HeadIsStable(s, t, max);
      assert (s + t)[|f|..] == s[|f|..] + t;
      CutExtends(s[|f|..], t, max);
      ExtendPrepend([f], Cut(s[|f|..], max), t, max);
  }

  // ---------------------------------------------------------------------
  // The header, bit by bit
  // ---------------------------------------------------------------------

  /** Bits 7, 6..4 and 3..0 of metaType, and the number of blocks. */
  datatype HeaderBits = HeaderBits(little: bool, flags: nat, blkLog: nat, blocks: nat)

  /** The first four bytes carry these bits; the flags in bits 6..4 may be anything. */
  predicate StartsWith(s: seq<byte>, h: HeaderBits) {
    && |s| >= PRIMARY_HEADER_SIZE && h.flags < 8 && h.blkLog < 16 && h.blocks < 0x100_0000
    && s[0] == (if h.little then 128 else 0) + 16 * h.flags + h.blkLog
    && var high, mid, low := h.blocks / 0x1_0000, h.blocks / 0x100 % 0x100, h.blocks % 0x100;
       s[1..4] == if h.little then [low, mid, high] else [high, mid, low]
  }

  lemma MetaBits(m: byte, little: bool, flags: nat, blkLog: nat)
    requires flags < 8 && blkLog < 16 && m == (if little then 128 else 0) + 16 * flags + blkLog
    ensures IsLittle(m) == little && m % 16 == blkLog
  {
  }

  lemma ThreeDigits(v: nat)
    ensures v == 0x1_0000 * (v / 0x1_0000) + 0x100 * (v / 0x100 % 0x100) + v % 0x100
  {
  }

  lemma {:induction false} BitsRead(s: seq<byte>, h: HeaderBits)
    requires StartsWith(s, h)
    ensures IsLittle(s[0]) == h.little && s[0] % 16 == h.blkLog
    ensures Uint(s[1..4], h.little) == h.blocks
  {
    var high, mid, low := h.blocks / 0x1_0000, h.blocks / 0x100 % 0x100, h.blocks % 0x100;
    MetaBits(s[0], h.little, h.flags, h.blkLog);
    ThreeDigits(h.blocks);
    ThreeByteUint(low, mid, high);
    ThreeByteUint(high, mid, low);
  }

  lemma {:induction false} SizeFromBits(s: seq<byte>, h: HeaderBits)
    requires StartsWith(s, h)
    ensures ParseFrameSize(s[..PRIMARY_HEADER_SIZE])
            == var n := h.blocks * Pow2(h.blkLog); if n < 8 then None else Some(n)
  {
    assert s[..PRIMARY_HEADER_SIZE][1..4] == s[1..4];
    BitsRead(s, h);
  }

  /** What the front of a stream is, from the bits of its header alone. */
  lemma {:induction false} HeadFromBits(s: seq<byte>, h: HeaderBits, max: nat)
    requires StartsWith(s, h)
    ensures var n := h.blocks * Pow2(h.blkLog);
            HeadOf(s, max) == if n < 8 || n > max then Corrupt
                              else if |s| < n then Incomplete else Complete(s[..n])
  {
    SizeFromBits(s, h);
  }

  /** A framer as the program makes it takes frames of 8 bytes to 64 MiB, both included. */
  lemma {:induction false} DefaultLimit(s: seq<byte>, h: HeaderBits)
    requires StartsWith(s, h)
    ensures HeadOf(s, DEFAULT_MAX_FRAME_BYTES) == Corrupt
            <==> !(8 <= h.blocks * Pow2(h.blkLog) <= 67_108_864)
  {
    HeadFromBits(s, h, DEFAULT_MAX_FRAME_BYTES);
  }

  /** A frame of any kind whose header announces its length is cut off as exactly one frame. */
  lemma {:induction false} AnnouncedFrameIsCut(f: seq<byte>, rest: seq<byte>, h: HeaderBits, max: nat)
    requires StartsWith(f, h) && h.blocks * Pow2(h.blkLog) == |f| <= max
    ensures WellFormed(f, max) && Cut(f + rest, max) == Prepend([f], Cut(rest, max))
  {
    assert (f + rest)[1..4] == f[1..4];
    SizeFromBits(f, h);
    HeadFromBits(f + rest, h, max);
    assert (f + rest)[..|f|] == f && (f + rest)[|f|..] == rest;
  }

  /** The frame a CoBo sends when its data link opens: bit 6 set, big-endian, twelve bytes. */
  const TOPOLOGY_FRAME: seq<byte> := [0x40, 0, 0, 0x0c, 0, 0, 7, 0, 0, 0x0f, 0, 0]

  /** It is cut at twelve bytes, and nothing of what follows goes with it. */
  lemma {:induction false} TopologyFrameIsCut(rest: seq<byte>)
    ensures Cut(TOPOLOGY_FRAME + rest, DEFAULT_MAX_FRAME_BYTES)
            == Prepend([TOPOLOGY_FRAME], Cut(rest, DEFAULT_MAX_FRAME_BYTES))
  {
    var f, h := TOPOLOGY_FRAME, HeaderBits(false, 4, 0, 12);
    assert |f| == 12 && f[0] == 64 && f[1] == f[2] == 0 && f[3] == 12;
    assert f[1..4] == [f[1], f[2], f[3]];
    assert Pow2(0) == 1;
    AnnouncedFrameIsCut(f, rest, h, DEFAULT_MAX_FRAME_BYTES);
  }

  // ---------------------------------------------------------------------
  // The framer
  // ---------------------------------------------------------------------

  lemma SliceSplits(b: seq<byte>, lo: nat, hi: nat)
    requires lo <= hi <= |b|
    ensures b[lo..][..hi - lo] == b[lo..hi]
    ensures b[lo..] == b[lo..hi] + b[hi..]
  {
  }

  class Framer {
    var buf: seq<byte>
    var head: nat
    const maxFrameBytes: nat
    var resetCount: nat

    ghost predicate Valid()
      reads this
    {
      head <= |buf|
    }

    /** The unconsumed bytes: what the framer means, whatever `compact` did. */
    ghost function Pending(): seq<byte>
      requires Valid()
      reads this
    {
      buf[head..]
    }

    constructor (maxFrameBytes: nat)
      ensures Valid() && Pending() == [] && resetCount == 0
      ensures this.maxFrameBytes == maxFrameBytes
    {
      this.buf := [];
      this.head := 0;
      this.maxFrameBytes := maxFrameBytes;
      this.resetCount := 0;
    }

    method Push(data: seq<byte>)
      requires Valid()
      modifies this
      ensures Valid() && resetCount == old(resetCount)
      ensures Pending() == old(Pending()) + data
    {
      if data == [] {
        return;
      }
      Compact();
      buf := buf + data;
    }

    method Next() returns (r: Option<seq<byte>>)
      requires Valid()
      modifies this
      ensures Valid()
      ensures match HeadOf(old(Pending()), maxFrameBytes)
              case Incomplete =>
                r == None && Pending() == old(Pending()) && resetCount == old(resetCount)
              case Corrupt =>
                r == None && Pending() == [] && resetCount == old(resetCount) + 1
              case Complete(f) =>
                && r == Some(f) && old(Pending()) == f + Pending()
                && resetCount == old(resetCount)
    {
      var avail := |buf| - head;
      if avail < PRIMARY_HEADER_SIZE {
        return None;
      }
      var header := buf[head..head + PRIMARY_HEADER_SIZE];
      assert header == buf[head..][..PRIMARY_HEADER_SIZE];
      var size := ParseFrameSize(header);
      if size.None? || size.value > maxFrameBytes {
        resetCount := resetCount + 1;
        Reset();
        return None;
      }
      if avail < size.value {
        return None;
      }
      var start := head;
      head := head + size.value;
      SliceSplits(buf, start, head);
      return Some(buf[start..head]);
    }

    method Reset()
      requires Valid()
      modifies this`buf, this`head
      ensures Valid() && Pending() == []
    {
      buf := [];
      head := 0;
    }

    method Buffered() returns (n: nat)
      requires Valid()
      ensures n == |Pending()|
    {
      n := |buf| - head;
    }

    /** Drops the consumed front; the logical contents do not change. */
    method Compact()
      requires Valid()
      modifies this`buf, this`head
      ensures Valid() && head == 0
      ensures buf == old(Pending())
    {
      if head == 0 {
        return;
      }
      if head == |buf| {
        buf := [];
      } else {
        buf := buf[head..];
      }
      head := 0;
    }
  }

  // ---------------------------------------------------------------------
  // Every schedule of pushes and nexts
  // ---------------------------------------------------------------------

  datatype Op = Push(chunk: seq<byte>) | Next

  datatype Trace = Trace(pending: seq<byte>, emitted: seq<seq<byte>>, resets: nat)

  /** One call, as the contracts of `Framer.Push` and `Framer.Next` describe it. */
  function Step(t: Trace, op: Op, max: nat): Trace {
    match op
    case Push(chunk) => t.(pending := t.pending + chunk)
    case Next =>
      match HeadOf(t.pending, max)
      case Incomplete => t
      case Corrupt => t.(pending := [], resets := t.resets + 1)
      case Complete(f) => t.(pending := t.pending[|f|..], emitted := t.emitted + [f])
  }

  function Exec(ops: seq<Op>, max: nat): Trace {
    if ops == [] then Trace([], [], 0)
    else Step(Exec(ops[..|ops| - 1], max), ops[|ops| - 1], max)
  }

  function Pushed(ops: seq<Op>): seq<byte> {
    if ops == [] then []
    else
      var before := Pushed(ops[..|ops| - 1]);
      match ops[|ops| - 1]
      case Push(chunk) => before + chunk
      case Next => before
  }

  /** Drives a real framer through a schedule: it behaves as `Exec`. */
  method Replay(ops: seq<Op>, max: nat) returns (emitted: seq<seq<byte>>, resets: nat)
    ensures emitted == Exec(ops, max).emitted && resets == Exec(ops, max).resets
  {
    var f := new Framer(max);
    emitted := [];
    for i := 0 to |ops|
      invariant f.Valid() && f.maxFrameBytes == max && fresh(f)
      invariant Exec(ops[..i], max) == Trace(f.Pending(), emitted, f.resetCount)
    {
      assert ops[..i + 1][..i] == ops[..i];
      match ops[i] {
        case Push(chunk) => f.Push(chunk);
        case Next =>
          ghost var before := f.Pending();
          var r := f.Next();
          if r.Some? {
            emitted := emitted + [r.value];
            assert before[|r.value|..] == f.Pending();
          }
      }
    }
    assert ops[..|ops|] == ops;
    resets := f.resetCount;
  }

  /** What holds after every schedule, before and after a corrupt header shows up. */
  ghost predicate TraceInv(t: Trace, stream: seq<byte>, max: nat) {
    var c := Cut(stream, max);
    if t.resets == 0 then
      && Flat(t.emitted) + t.pending == stream
      && c == Prepend(t.emitted, Cut(t.pending, max))
    else
      c.corrupt && c.frames <= t.emitted
  }

  lemma {:induction false} ScheduleInvariant(ops: seq<Op>, max: nat)
    ensures TraceInv(Exec(ops, max), Pushed(ops), max)
  {
    if ops == [] {
    } else {
      var n := |ops| - 1;
      var before := ops[..n];
      ScheduleInvariant(before, max);
      StepKeepsInvariant(Exec(before, max), ops[n], Pushed(before), max);
    }
  }

  lemma {:induction false} StepKeepsInvariant(t: Trace, op: Op, stream: seq<byte>, max: nat)
    requires TraceInv(t, stream, max)
    ensures TraceInv(Step(t, op, max), if op.Push? then stream + op.chunk else stream, max)
  {
    match op
    case Push(chunk) => PushKeepsInvariant(t, chunk, stream, max);
    case Next => NextKeepsInvariant(t, stream, max);
  }

  lemma {:induction false} PushKeepsInvariant(t: Trace, chunk: seq<byte>, stream: seq<byte>, max: nat)
    requires TraceInv(t, stream, max)
    ensures TraceInv(Step(t, Push(chunk), max), stream + chunk, max)
  {
    if t.resets == 0 {
      var emitted, pending := t.emitted, t.pending;
      assert Flat(emitted) + (pending + chunk) == (Flat(emitted) + pending) + chunk;
      CutExtends(stream, chunk, max);
      CutExtends(pending, chunk, max);
      ExtendPrepend(emitted, Cut(pending, max), chunk, max);
    } else {
      CutExtends(stream, chunk, max);
    }
  }

  lemma {:induction false} NextKeepsInvariant(t: Trace, stream: seq<byte>, max: nat)
    requires TraceInv(t, stream, max)
    ensures TraceInv(Step(t, Next, max), stream, max)
  {
    var h := HeadOf(t.pending, max);
    if t.resets == 0 && h.Complete? {
      var f, rest := h.frame, t.pending[|h.frame|..];
      FlatSnoc(t.emitted, f);
      assert t.pending == f + rest;
      assert (Flat(t.emitted) + f) + rest == Flat(t.emitted) + t.pending;
      PrependTwice(t.emitted, [f], Cut(rest, max));
    } else if t.resets == 0 && h.Corrupt? {
      assert t.emitted + [] == t.emitted;
    }
  }

  /** Nothing more can be taken out without another push. */
  predicate Drained(t: Trace, max: nat) {
    HeadOf(t.pending, max).Incomplete?
  }

  /**
   Chunk independence. However the stream was chunked and whenever `next` was called:
   a drained framer has reset iff the stream contains a corrupt header (at a frame boundary);
   without one, it has emitted exactly the frames of the stream and holds exactly its rest;
   with one, the frames in front of it were all emitted, in order, before anything else.
   */
  lemma {:induction false} ChunkIndependence(ops: seq<Op>, max: nat)
    requires Drained(Exec(ops, max), max)
    ensures var t := Exec(ops, max);
            var c := Cut(Pushed(ops), max);
            && (t.resets > 0 <==> c.corrupt)
            && (!c.corrupt ==> t.emitted == c.frames && t.pending == c.rest)
            && (c.corrupt ==> c.frames <= t.emitted)
  {
    ScheduleInvariant(ops, max);
    var t := Exec(ops, max);
    assert Cut(t.pending, max) == Cutting([], t.pending, false);
  }

  /** For a stream of well-formed frames every drained schedule returns those frames. */
  lemma {:induction false} WellFormedStreamSurvivesChunking(
      ops: seq<Op>, frames: seq<seq<byte>>, max: nat)
    requires forall f :: f in frames ==> WellFormed(f, max)
    requires Pushed(ops) == Flat(frames)
    requires Drained(Exec(ops, max), max)
    ensures Exec(ops, max) == Trace([], frames, 0)
  {
    CutOfFrames(frames, max);
    ChunkIndependence(ops, max);
  }

  // ---------------------------------------------------------------------
  // Behind a corrupt header
  // ---------------------------------------------------------------------

  /** Behind the header of `rest` there is a place where a whole frame seems to start. */
  ghost predicate FrameBehind(rest: seq<byte>, max: nat) {
    exists j :: PRIMARY_HEADER_SIZE <= j <= |rest| && HeadOf(rest[j..], max).Complete?
  }

  /** After a reset the framer stands behind the corrupt header. */
  ghost predicate Behind(t: Trace, c: Cutting, max: nat) {
    && (exists k :: PRIMARY_HEADER_SIZE <= k <= |c.rest| && t.pending == c.rest[k..])
    && (!FrameBehind(c.rest, max) ==> t.emitted == c.frames)
  }

  ghost predicate ResetInv(t: Trace, stream: seq<byte>, max: nat) {
    t.resets > 0 ==> Cut(stream, max).corrupt && Behind(t, Cut(stream, max), max)
  }

  lemma {:induction false} FrameBehindGrows(rest: seq<byte>, chunk: seq<byte>, max: nat)
    requires FrameBehind(rest, max)
    ensures FrameBehind(rest + chunk, max)
  {
    var j :| PRIMARY_HEADER_SIZE <= j <= |rest| && HeadOf(rest[j..], max).Complete?;
    HeadIsStable(rest[j..], chunk, max);
    assert (rest + chunk)[j..] == rest[j..] + chunk;
  }

  lemma {:induction false} PushStaysBehind(t: Trace, c: Cutting, chunk: seq<byte>, max: nat)
    requires Behind(t, c, max)
    ensures Behind(t.(pending := t.pending + chunk), c.(rest := c.rest + chunk), max)
  {
    var k :| PRIMARY_HEADER_SIZE <= k <= |c.rest| && t.pending == c.rest[k..];
    assert (c.rest + chunk)[k..] == c.rest[k..] + chunk;
    if FrameBehind(c.rest, max) {
      FrameBehindGrows(c.rest, chunk, max);
    }
  }

  lemma {:induction false} NextStaysBehind(t: Trace, c: Cutting, max: nat)
    requires Behind(t, c, max)
    ensures Behind(Step(t, Next, max), c, max)
  {
    var k :| PRIMARY_HEADER_SIZE <= k <= |c.rest| && t.pending == c.rest[k..];
    match HeadOf(t.pending, max)
    case Incomplete =>
    case Corrupt =>
      assert c.rest[|c.rest|..] == [];
    case Complete(f) =>
      assert FrameBehind(c.rest, max);
      assert t.pending[|f|..] == c.rest[k + |f|..];
  }

  lemma {:induction false} FirstResetIsBehind(t: Trace, max: nat)
    requires HeadOf(t.pending, max).Corrupt?
    ensures Behind(Step(t, Next, max), Cutting(t.emitted, t.pending, true), max)
  {
    assert t.pending[|t.pending|..] == [];
  }

  lemma {:induction false} StepKeepsResetInv(t: Trace, op: Op, stream: seq<byte>, max: nat)
    requires TraceInv(t, stream, max) && ResetInv(t, stream, max)
    ensures ResetInv(Step(t, op, max), if op.Push? then stream + op.chunk else stream, max)
  {
    match op
    case Push(chunk) =>
      if t.resets > 0 {
        CutExtends(stream, chunk, max);
        PushStaysBehind(t, Cut(stream, max), chunk, max);
      }
    case Next =>
      if t.resets > 0 {
        NextStaysBehind(t, Cut(stream, max), max);
      } else if HeadOf(t.pending, max).Corrupt? {
        FirstResetIsBehind(t, max);
        assert t.emitted + [] == t.emitted;
      }
  }

  lemma {:induction false} ResetInvariant(ops: seq<Op>, max: nat)
    ensures ResetInv(Exec(ops, max), Pushed(ops), max)
  {
    if ops != [] {
      var n := |ops| - 1;
      ScheduleInvariant(ops[..n], max);
      ResetInvariant(ops[..n], max);
      StepKeepsResetInv(Exec(ops[..n], max), ops[n], Pushed(ops[..n]), max);
    }
  }

  // A schedule that goes on behind the corrupt header

  function Nexts(n: nat): seq<Op> {
    seq(n, i => Next)
  }

  function StepNexts(t: Trace, n: nat, max: nat): Trace
    decreases n
  {
    if n == 0 then t else StepNexts(Step(t, Next, max), n - 1, max)
  }

  lemma NextsCons(ops: seq<Op>, n: nat)
    requires n > 0
    ensures ops + Nexts(n) == (ops + [Next]) + Nexts(n - 1)
  {
  }

  lemma {:induction false} ExecNexts(ops: seq<Op>, n: nat, max: nat)
    ensures Exec(ops + Nexts(n), max) == StepNexts(Exec(ops, max), n, max)
    ensures Pushed(ops + Nexts(n)) == Pushed(ops)
    decreases n
  {
    if n == 0 {
      assert ops + Nexts(0) == ops;
    } else {
      NextsCons(ops, n);
      ExecSnoc(ops, Next, max);
      ExecNexts(ops + [Next], n - 1, max);
    }
  }

  /** Everything of the cutting is out, and nothing is left to take. */
  ghost predicate DrainedTo(u: Trace, emitted: seq<seq<byte>>, c: Cutting, max: nat) {
    && Drained(u, max) && u.emitted == emitted + c.frames
    && (c.corrupt ==> u.pending == [])
  }

  lemma {:induction false} DrainOne(t: Trace, u: Trace, max: nat)
    requires HeadOf(t.pending, max).Complete?
    requires DrainedTo(u, Step(t, Next, max).emitted, Cut(Step(t, Next, max).pending, max), max)
    ensures DrainedTo(u, t.emitted, Cut(t.pending, max), max)
  {
    var f := HeadOf(t.pending, max).frame;
    Associate(t.emitted, [f], Cut(t.pending[|f|..], max).frames);
  }

  /** Enough calls of `next`, and nothing is left to take. */
  lemma {:induction false} NextsDrain(t: Trace, max: nat) returns (n: nat)
    ensures DrainedTo(StepNexts(t, n, max), t.emitted, Cut(t.pending, max), max)
    decreases |t.pending|
  {
    assert t.emitted + [] == t.emitted;
    match HeadOf(t.pending, max)
    case Incomplete => n := 0;
    case Corrupt =>
      n := 1;
      assert StepNexts(t, 1, max) == StepNexts(Step(t, Next, max), 0, max);
    case Complete(f) =>
      var m := NextsDrain(Step(t, Next, max), max);
      n := m + 1;
      assert StepNexts(t, n, max) == StepNexts(Step(t, Next, max), m, max);
      DrainOne(t, StepNexts(t, n, max), max);
  }

  lemma {:induction false} CorruptPrefix(rest: seq<byte>, j: nat, max: nat)
    requires HeadOf(rest, max).Corrupt? && PRIMARY_HEADER_SIZE <= j <= |rest|
    ensures HeadOf(rest[..j], max).Corrupt?
  {
    assert rest[..j][..PRIMARY_HEADER_SIZE] == rest[..PRIMARY_HEADER_SIZE];
  }

  /** The cutting of the stream up to a place behind the corrupt header. */
  lemma {:induction false} CutUpTo(s: seq<byte>, j: nat, max: nat)
    requires Cut(s, max).corrupt && PRIMARY_HEADER_SIZE <= j <= |Cut(s, max).rest|
    ensures var c := Cut(s, max);
            Cut(Flat(c.frames) + c.rest[..j], max) == Cutting(c.frames, c.rest[..j], true)
  {
    var c := Cut(s, max);
    CutIsByteExact(s, max);
    CutYieldsWellFormed(s, max);
    CutOfFrames(c.frames, max);
    CorruptPrefix(c.rest, j, max);
    CutExtends(Flat(c.frames), c.rest[..j], max);
    assert [] + c.rest[..j] == c.rest[..j] && c.frames + [] == c.frames;
  }

  /** Pushing in two chunks that meet at `j`, with everything taken out in between and at the end. */
  function TwoChunks(head: seq<byte>, n: nat, tail: seq<byte>, m: nat): seq<Op> {
    [Push(head)] + Nexts(n) + [Push(tail)] + Nexts(m)
  }

  lemma {:induction false} TwoChunksExec(head: seq<byte>, n: nat, tail: seq<byte>, m: nat, max: nat)
    ensures var t := StepNexts(Trace(head, [], 0), n, max);
            Exec(TwoChunks(head, n, tail, m), max)
            == StepNexts(t.(pending := t.pending + tail), m, max)
    ensures Pushed(TwoChunks(head, n, tail, m)) == head + tail
  {
    ExecSnoc([], Push(head), max);
    assert [] + [Push(head)] == [Push(head)] && [] + head == head;
    ExecNexts([Push(head)], n, max);
    ExecSnoc([Push(head)] + Nexts(n), Push(tail), max);
    ExecNexts([Push(head)] + Nexts(n) + [Push(tail)], m, max);
  }

  /** A first chunk that ends corrupt is forgotten, and the second one is cut as if it came first. */
  lemma {:induction false} TwoChunksDrain(
      head: seq<byte>, tail: seq<byte>, max: nat) returns (ops: seq<Op>)
    requires Cut(head, max).corrupt
    ensures Pushed(ops) == head + tail && Drained(Exec(ops, max), max)
    ensures Exec(ops, max).emitted == Cut(head, max).frames + Cut(tail, max).frames
  {
    var start := Trace(head, [], 0);
    var n := NextsDrain(start, max);
    var t := StepNexts(start, n, max);
    assert t.emitted == Cut(head, max).frames;
    var u := t.(pending := t.pending + tail);
    assert u.pending == tail;
    var m := NextsDrain(u, max);
    ops := TwoChunks(head, n, tail, m);
    TwoChunksExec(head, n, tail, m, max);
  }

  lemma {:induction false} SplitBehind(s: seq<byte>, j: nat, max: nat)
    requires j <= |Cut(s, max).rest|
    ensures var c := Cut(s, max);
            (Flat(c.frames) + c.rest[..j]) + c.rest[j..] == s
  {
    var c := Cut(s, max);
    CutIsByteExact(s, max);
    Associate(Flat(c.frames), c.rest[..j], c.rest[j..]);
    assert c.rest[..j] + c.rest[j..] == c.rest;
  }

  /** A whole frame behind the corrupt header can be reached, by a read that ends in front of it. */
  lemma {:induction false} FrameBehindCanAppear(s: seq<byte>, max: nat) returns (ops: seq<Op>)
    requires Cut(s, max).corrupt && FrameBehind(Cut(s, max).rest, max)
    ensures Pushed(ops) == s && Drained(Exec(ops, max), max)
    ensures Exec(ops, max).emitted != Cut(s, max).frames
  {
    var c := Cut(s, max);
    var j :| PRIMARY_HEADER_SIZE <= j <= |c.rest| && HeadOf(c.rest[j..], max).Complete?;
    var head, tail := Flat(c.frames) + c.rest[..j], c.rest[j..];
    CutUpTo(s, j, max);
    SplitBehind(s, j, max);
    ops := TwoChunksDrain(head, tail, max);
    assert |Cut(tail, max).frames| > 0;
    assert |Exec(ops, max).emitted| > |c.frames|;
  }

  /** Every drained schedule of the stream emits the frames in front of the first corrupt header. */
  ghost predicate ChunkingNeverMatters(s: seq<byte>, max: nat) {
    forall ops :: Pushed(ops) == s && Drained(Exec(ops, max), max) ==>
                    Exec(ops, max).emitted == Cut(s, max).frames
  }

  lemma {:induction false} NeverMattersIff(s: seq<byte>, max: nat)
    ensures ChunkingNeverMatters(s, max)
            <==> !(Cut(s, max).corrupt && FrameBehind(Cut(s, max).rest, max))
  {
    if Cut(s, max).corrupt && FrameBehind(Cut(s, max).rest, max) {
      var ops := FrameBehindCanAppear(s, max);
    } else {
      forall ops | Pushed(ops) == s && Drained(Exec(ops, max), max)
        ensures Exec(ops, max).emitted == Cut(s, max).frames
      {
        ChunkIndependence(ops, max);
        ResetInvariant(ops, max);
      }
    }
  }

  /** In one chunk, the frames in front of the first corrupt header come out. */
  lemma {:induction false} OneChunk(s: seq<byte>, max: nat) returns (ops: seq<Op>)
    ensures Pushed(ops) == s && Drained(Exec(ops, max), max)
    ensures Exec(ops, max).emitted == Cut(s, max).frames
  {
    ExecSnoc([], Push(s), max);
    assert [] + [Push(s)] == [Push(s)] && [] + s == s;
    var start := Trace(s, [], 0);
    var n := NextsDrain(start, max);
    ExecNexts([Push(s)], n, max);
    ops := [Push(s)] + Nexts(n);
    assert [] + Cut(s, max).frames == Cut(s, max).frames;
  }

  /** Every two drained schedules of the stream emit the same frames. */
  ghost predicate SchedulesAgree(s: seq<byte>, max: nat) {
    forall a, b :: Pushed(a) == s && Drained(Exec(a, max), max)
                   && Pushed(b) == s && Drained(Exec(b, max), max) ==>
                     Exec(a, max).emitted == Exec(b, max).emitted
  }

  /**
   The exact condition: every two chunkings and drain schedules give the same frames iff there is
   no corrupt header with a place behind it, at least a header further on, where a whole frame
   seems to start.
   */
  lemma {:induction false} ChunkIndependentIff(s: seq<byte>, max: nat)
    ensures SchedulesAgree(s, max)
            <==> !(Cut(s, max).corrupt && FrameBehind(Cut(s, max).rest, max))
  {
    NeverMattersIff(s, max);
    var one := OneChunk(s, max);
    if SchedulesAgree(s, max) {
      forall ops | Pushed(ops) == s && Drained(Exec(ops, max), max)
        ensures Exec(ops, max).emitted == Cut(s, max).frames
      {
        assert Exec(ops, max).emitted == Exec(one, max).emitted;
      }
    }
  }

  const BROKEN: seq<byte> := [0, 0, 0, 0, 0, 0, 0, 0]
  const GOOD: seq<byte> := [0, 0, 0, 8, 0, 0, 0, 0]

  lemma {:induction false} HeadsOfTheWitness()
    ensures HeadOf(BROKEN + GOOD, DEFAULT_MAX_FRAME_BYTES) == Corrupt
    ensures HeadOf(BROKEN, DEFAULT_MAX_FRAME_BYTES) == Corrupt
    ensures HeadOf(GOOD, DEFAULT_MAX_FRAME_BYTES) == Complete(GOOD)
  {
    assert BROKEN[1..4] == [0, 0, 0] && GOOD[1..4] == [0, 0, 8];
    assert [0, 0, 0][..2] == [0, 0] && [0, 0, 8][..2] == [0, 0];
    assert [0, 0][..1] == [0] && [0][..0] == [];
    assert UintBig([0, 0]) == 0;
    assert BROKEN[..8] == BROKEN && GOOD[..8] == GOOD;
    HeadIsStable(BROKEN, GOOD, DEFAULT_MAX_FRAME_BYTES);
  }

  /**
   Behind a corrupt header the frames do depend on the chunking: the same sixteen bytes, a
   broken header followed by a good frame, lose the frame in one chunk and keep it in two.
   */
  lemma {:induction false} ChunkingMattersAfterCorruption()
    ensures var max := DEFAULT_MAX_FRAME_BYTES;
            var one := [Push(BROKEN + GOOD), Next];
            var two := [Push(BROKEN), Next, Push(GOOD), Next];
            && Pushed(one) == Pushed(two)
            && Exec(one, max) == Trace([], [], 1)
            && Exec(two, max) == Trace([], [GOOD], 1)
  {
    HeadsOfTheWitness();
    var max := DEFAULT_MAX_FRAME_BYTES;
    PushThenReset(BROKEN + GOOD, max);
    PushThenReset(BROKEN, max);
    PushThenFrame([Push(BROKEN), Next], GOOD, max);
    assert [Push(BROKEN), Next] + [Push(GOOD), Next] == [Push(BROKEN), Next, Push(GOOD), Next];
  }

  lemma {:induction false} PushThenReset(bad: seq<byte>, max: nat)
    requires HeadOf(bad, max) == Corrupt
    ensures Exec([Push(bad), Next], max) == Trace([], [], 1)
    ensures Pushed([Push(bad), Next]) == bad
  {
    ExecSnoc([], Push(bad), max);
    assert [] + [Push(bad)] == [Push(bad)] && [] + bad == bad;
    ExecSnoc([Push(bad)], Next, max);
    assert [Push(bad)] + [Next] == [Push(bad), Next];
  }

  lemma {:induction false} PushThenFrame(ops: seq<Op>, good: seq<byte>, max: nat)
    requires Exec(ops, max) == Trace([], [], 1) && HeadOf(good, max) == Complete(good)
    ensures Exec(ops + [Push(good), Next], max) == Trace([], [good], 1)
    ensures Pushed(ops + [Push(good), Next]) == Pushed(ops) + good
  {
    ExecSnoc(ops, Push(good), max);
    assert [] + good == good;
    assert Exec(ops + [Push(good)], max) == Trace(good, [], 1);
    ExecSnoc(ops + [Push(good)], Next, max);
    assert good[|good|..] == [] && [] + [good] == [good];
    assert (ops + [Push(good)]) + [Next] == ops + [Push(good), Next];
  }

  lemma {:induction false} ExecSnoc(ops: seq<Op>, op: Op, max: nat)
    ensures Exec(ops + [op], max) == Step(Exec(ops, max), op, max)
    ensures Pushed(ops + [op]) == if op.Push? then Pushed(ops) + op.chunk else Pushed(ops)
  {
    assert (ops + [op])[..|ops|] == ops;
  }
}

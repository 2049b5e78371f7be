/**
 Laws of the decoder thread over every list of turns: the counters account for what happened,
 output numbers expose exactly the abandoned batches, the restart counter follows the slowest
 source, and the thread's own end of stream is a barrier behind all its input.
 */
module DecoderLaws {
  import opened Bytes
  import opened Decode
  import opened Restart
  import opened RunDecoder
  import opened DecoderLoop

  // ---------------------------------------------------------------------
  // The core's own bookkeeping
  // ---------------------------------------------------------------------

  function SizeOf(fragments: seq<Fragment>): nat {
    if fragments == [] then 0
    else SizeOf(fragments[..|fragments| - 1]) + |fragments[|fragments| - 1].items|
  }

  lemma {:induction false} SizeSnoc(fragments: seq<Fragment>, f: Fragment)
    ensures SizeOf(fragments + [f]) == SizeOf(fragments) + |f.items|
  {
    assert (fragments + [f])[..|fragments|] == fragments;
  }

  lemma {:induction false} SizeConcat(a: seq<Fragment>, b: seq<Fragment>)
    ensures SizeOf(a + b) == SizeOf(a) + SizeOf(b)
  {
    if b == [] {
      assert a + b == a;
    } else {
      assert (a + b)[..|a + b| - 1] == a + b[..|b| - 1];
      SizeConcat(a, b[..|b| - 1]);
    }
  }

  /** The byte count is exact and in whole words; a deadline runs iff something is pending. */
  predicate BufferOk(b: Buffer) {
    && b.bytes == SizeOf(b.pending)
    && b.bytes % 4 == 0
    && (b.deadline.Some? <==> b.pending != [])
  }

  /** Every frame is in one class; the error latch is exactly a gap, a mismatch or a bad frame. */
  predicate AccountOk(c: Core) {
    && c.tally.framesIn == c.counts.frames + c.counts.malformed + c.counts.unsupported
    && c.tally.topologyFrames <= c.counts.topology <= c.counts.unsupported
    && (c.tally.errored <==>
        c.check.gaps > 0 || c.tally.runMismatches > 0 || c.counts.malformed > 0)
  }

  predicate CoreOk(c: Core) {
    BufferOk(c.buffer) && AccountOk(c)
  }

  /** What taking a message leaves alone. */
  predicate SameOutput(c: Core, d: Core) {
    && d.outSeq == c.outSeq
    && d.tally.batchesOut == c.tally.batchesOut && d.tally.fragmentsOut == c.tally.fragmentsOut
    && d.tally.itemsOut == c.tally.itemsOut && d.tally.batchesAbandoned == c.tally.batchesAbandoned
    && d.tally.eosOut == c.tally.eosOut && d.tally.eosAbandoned == c.tally.eosAbandoned
  }

  lemma {:induction false} PushKeepsBuffer(cfg: Config, b: Buffer, f: Fragment, now: int)
    requires BufferOk(b) && |f.items| % 4 == 0
    ensures BufferOk(Pushed(cfg, b, f, now))
  {
    SizeSnoc(b.pending, f);
  }

  lemma {:induction false} FrameKeepsAccount(
      cfg: Config, c: Core, source: nat, frame: seq<byte>, now: int)
    requires AccountOk(c)
    ensures AccountOk(TakeFrame(cfg, c, source, frame, now))
    ensures SameOutput(c, TakeFrame(cfg, c, source, frame, now))
    ensures TakeFrame(cfg, c, source, frame, now).eos == c.eos
  {
    match Judge(frame)
    case Data(f) =>
    case Malformed =>
    case Unsupported =>
  }

  lemma {:induction false} FramesKeepCore(
      cfg: Config, c: Core, source: nat, frames: seq<seq<byte>>, now: int)
    requires CoreOk(c)
    ensures var d := TakeFrames(cfg, c, source, frames, now);
            CoreOk(d) && SameOutput(c, d) && d.eos == c.eos
  {
    if frames != [] {
      var n := |frames| - 1;
      FramesKeepCore(cfg, c, source, frames[..n], now);
      var d := TakeFrames(cfg, c, source, frames[..n], now);
      FrameKeepsAccount(cfg, d, source, frames[n], now);
      if Decoded(frames[n]).Some? {
        FragmentWidths(frames[n]);
        PushKeepsBuffer(cfg, d.buffer, Decoded(frames[n]).value, now);
      }
    }
  }

  lemma ChecksKeepCore(c: Core, source: nat, run: nat, seqNo: nat)
    requires CoreOk(c)
    ensures var d := CheckSeq(CheckRun(c, run), source, seqNo);
            CoreOk(d) && SameOutput(c, d) && d.eos == c.eos
  {
  }

  lemma {:induction false} BatchKeepsCore(
      cfg: Config, c: Core, source: nat, run: nat, seqNo: nat, frames: seq<seq<byte>>, now: int)
    requires CoreOk(c)
    ensures var d := HandleBatch(cfg, c, source, run, seqNo, frames, now);
            CoreOk(d) && SameOutput(c, d) && d.eos == c.eos
  {
    ChecksKeepCore(c, source, run, seqNo);
    FramesKeepCore(cfg, CheckSeq(CheckRun(c, run), source, seqNo), source, frames, now);
  }

  lemma EosKeepsCore(c: Core, source: nat, run: nat)
    requires CoreOk(c)
    ensures var d := HandleEos(c, source, run);
            CoreOk(d) && SameOutput(c, d) && d.eos == c.eos + {source}
  {
  }

  lemma {:induction false} MessageKeepsCore(cfg: Config, c: Core, t: Turn)
    requires CoreOk(c)
    ensures var d := OnMessage(cfg, c, t).core;
            CoreOk(d) && SameOutput(c, d)
  {
    match t.message
    case Some(Data(source, run, seqNo, frames)) =>
      BatchKeepsCore(cfg, c, source, run, seqNo, frames, t.now);
    case Some(EndOfStream(source, run)) => EosKeepsCore(c, source, run);
    case _ =>
  }

  // ---------------------------------------------------------------------
  // The output side
  // ---------------------------------------------------------------------

  function SentFragments(out: seq<Out>): seq<Fragment> {
    if out == [] then []
    else
      var last := out[|out| - 1];
      SentFragments(out[..|out| - 1]) + if last.SentBatch? then last.fragments else []
  }

  datatype Totals = Totals(sent: nat, lost: nat, eosSent: nat, eosLost: nat, sinceEos: nat)

  /** Events by kind, and the number of batches since the last end of stream. */
  function Count(out: seq<Out>): Totals {
    if out == [] then Totals(0, 0, 0, 0, 0)
    else
      var t := Count(out[..|out| - 1]);
      match out[|out| - 1]
      case SentBatch(_, _, _) => t.(sent := t.sent + 1, sinceEos := t.sinceEos + 1)
      case LostBatch(_, _, _) => t.(lost := t.lost + 1, sinceEos := t.sinceEos + 1)
      case SentEos(_) => t.(eosSent := t.eosSent + 1, sinceEos := 0)
      case LostEos(_) => t.(eosLost := t.eosLost + 1, sinceEos := 0)
  }

  /** The counters equal the events, and `itemsOut` is the bytes sent, in words. */
  ghost predicate OutputOk(m: Moved) {
    var t := Count(m.out);
    && m.core.tally.batchesOut == t.sent && m.core.tally.batchesAbandoned == t.lost
    && m.core.tally.eosOut == t.eosSent && m.core.tally.eosAbandoned == t.eosLost
    && m.core.outSeq == t.sinceEos
    && m.core.tally.fragmentsOut == |SentFragments(m.out)|
    && 4 * m.core.tally.itemsOut == SizeOf(SentFragments(m.out))
  }

  /**
   Every batch event carries the count of batch events since the last end of stream: the
   numbers that went out between two ends of stream skip exactly the abandoned batches.
   */
  ghost predicate NumbersOk(out: seq<Out>) {
    forall i :: 0 <= i < |out| && (out[i].SentBatch? || out[i].LostBatch?) ==>
                  out[i].seqNo == Count(out[..i]).sinceEos
  }

  ghost predicate MovedOk(m: Moved) {
    CoreOk(m.core) && OutputOk(m) && NumbersOk(m.out)
  }

  lemma {:induction false} CountSnoc(out: seq<Out>, o: Out)
    ensures Count(out + [o]) == match o
                                case SentBatch(_, _, _) =>
                                  var t := Count(out);
                                  t.(sent := t.sent + 1, sinceEos := t.sinceEos + 1)
                                case LostBatch(_, _, _) =>
                                  var t := Count(out);
                                  t.(lost := t.lost + 1, sinceEos := t.sinceEos + 1)
                                case SentEos(_) =>
                                  var t := Count(out);
                                  t.(eosSent := t.eosSent + 1, sinceEos := 0)
                                case LostEos(_) =>
                                  var t := Count(out);
                                  t.(eosLost := t.eosLost + 1, sinceEos := 0)
    ensures SentFragments(out + [o])
            == SentFragments(out) + if o.SentBatch? then o.fragments else []
  {
    assert (out + [o])[..|out|] == out;
  }

  lemma {:induction false} NumbersSnoc(out: seq<Out>, o: Out)
    requires NumbersOk(out)
    requires o.SentBatch? || o.LostBatch? ==> o.seqNo == Count(out).sinceEos
    ensures NumbersOk(out + [o])
  {
    var grown := out + [o];
    forall i | 0 <= i < |grown| && (grown[i].SentBatch? || grown[i].LostBatch?)
      ensures grown[i].seqNo == Count(grown[..i]).sinceEos
    {
      assert grown[..i] == out[..i];
      assert out[..|out|] == out;
    }
  }

  lemma {:induction false} SentKeepsOk(c: Core, out: seq<Out>, o: Out)
    requires MovedOk(Moved(c, out)) && o == SentBatch(c.run, c.outSeq, c.buffer.pending)
    ensures MovedOk(Moved(BatchSent(c), out + [o]))
  {
    CountSnoc(out, o);
    NumbersSnoc(out, o);
    SizeConcat(SentFragments(out), c.buffer.pending);
  }

  lemma {:induction false} LostKeepsOk(c: Core, out: seq<Out>, o: Out)
    requires MovedOk(Moved(c, out)) && o == LostBatch(c.run, c.outSeq, c.buffer.pending)
    ensures MovedOk(Moved(BatchAbandoned(c), out + [o]))
  {
    CountSnoc(out, o);
    NumbersSnoc(out, o);
    assert SentFragments(out) + [] == SentFragments(out);
  }

  lemma {:induction false} SendKeepsOk(c: Core, goes: bool, out: seq<Out>)
    requires MovedOk(Moved(c, out))
    ensures var m := SendPending(c, goes);
            MovedOk(Moved(m.core, out + m.out))
  {
    if c.buffer.pending == [] {
      assert out + [] == out;
    } else if goes {
      SentKeepsOk(c, out, SentBatch(c.run, c.outSeq, c.buffer.pending));
    } else {
      LostKeepsOk(c, out, LostBatch(c.run, c.outSeq, c.buffer.pending));
    }
  }

  lemma {:induction false} EosEventKeepsOk(c: Core, d: Core, out: seq<Out>, eos: Out)
    requires MovedOk(Moved(c, out)) && IsEos(eos) && CoreOk(d)
    requires d.outSeq == 0 && d.tally == if eos.SentEos? then c.tally.(eosOut := c.tally.eosOut + 1)
                                         else c.tally.(eosAbandoned := c.tally.eosAbandoned + 1)
    ensures MovedOk(Moved(d, out + [eos]))
  {
    CountSnoc(out, eos);
    NumbersSnoc(out, eos);
    assert SentFragments(out) + [] == SentFragments(out);
  }

  lemma RearmKeepsCore(c: Core)
    requires CoreOk(c)
    ensures CoreOk(EosSent(c)) && CoreOk(EosAbandoned(c))
  {
  }

  lemma {:induction false} OwnEosKeepsOk(c: Core, goes: bool, out: seq<Out>)
    requires MovedOk(Moved(c, out))
    ensures var m := SendOwnEos(c, goes);
            MovedOk(Moved(m.core, out + m.out))
  {
    var m := SendOwnEos(c, goes);
    RearmKeepsCore(c);
    EosEventKeepsOk(c, m.core, out, if goes then SentEos(c.run) else LostEos(c.run));
  }

  lemma {:induction false} ActKeepsOk(c: Core, emit: Emit, t: Turn, out: seq<Out>)
    requires MovedOk(Moved(c, out))
    ensures var m := Act(c, emit, t);
            MovedOk(Moved(m.core, out + m.out))
  {
    assert out + [] == out;
    match emit {
      case Nothing =>
      case Batch => SendKeepsOk(c, t.batchGoes, out);
      case FlushAndEndOfStream =>
        SendKeepsOk(c, t.batchGoes, out);
        var flushed := SendPending(c, t.batchGoes);
        OwnEosKeepsOk(flushed.core, t.eosGoes, out + flushed.out);
        var ended := SendOwnEos(flushed.core, t.eosGoes);
        assert (out + flushed.out) + ended.out == out + (flushed.out + ended.out);
    }
  }

  /** After every list of turns the books are right. */
  lemma {:induction false} BooksAreRight(cfg: Config, run: nat, turns: seq<Turn>)
    ensures MovedOk(Run(cfg, run, turns))
  {
    if turns != [] {
      var n := |turns| - 1;
      BooksAreRight(cfg, run, turns[..n]);
      var m := Run(cfg, run, turns[..n]);
      MessageKeepsCore(cfg, m.core, turns[n]);
      var d := OnMessage(cfg, m.core, turns[n]);
      assert MovedOk(Moved(d.core, m.out));
      var emit := if d.emit.Nothing? then Ticked(d.core, turns[n].later) else d.emit;
      ActKeepsOk(d.core, emit, turns[n], m.out);
    }
  }

  lemma {:induction false} CoreStaysOk(cfg: Config, run: nat, turns: seq<Turn>)
    ensures CoreOk(Run(cfg, run, turns).core)
  {
    BooksAreRight(cfg, run, turns);
  }

  // ---------------------------------------------------------------------
  // The end-of-stream barrier
  // ---------------------------------------------------------------------

  /** The sources whose end of stream came in. */
  function Ended(turns: seq<Turn>): set<nat> {
    if turns == [] then {}
    else
      var t := turns[|turns| - 1];
      Ended(turns[..|turns| - 1])
      + if t.message.Some? && t.message.value.EndOfStream? then {t.message.value.source} else {}
  }

  /** A turn that brings neither data nor an end of stream. */
  predicate Quiet(t: Turn) {
    t.message.None? || t.message.value.Heartbeat?
  }

  predicate IsEos(o: Out) {
    o.SentEos? || o.LostEos?
  }

  ghost predicate NoEos(out: seq<Out>) {
    forall i :: 0 <= i < |out| ==> !IsEos(out[i])
  }

  /**
   Interleaved source streams that each end in one end of stream: every message comes from an
   expected source, and after its end of stream a source sends no more.
   */
  ghost predicate EachSourceEndsOnce(cfg: Config, turns: seq<Turn>) {
    && (forall i :: 0 <= i < |turns| && !Quiet(turns[i]) ==> turns[i].message.value.source in cfg.expected)
    && (forall i, j :: 0 <= i < j < |turns| && !Quiet(turns[i]) && !Quiet(turns[j])
                       && turns[i].message.value.EndOfStream? ==>
                         turns[i].message.value.source != turns[j].message.value.source)
  }

  lemma {:induction false} MessageKeepsEos(cfg: Config, c: Core, t: Turn)
    requires CoreOk(c)
    ensures OnMessage(cfg, c, t).core.eos == c.eos + Ended([t])
  {
    assert [t][..0] == [];
    match t.message
    case Some(Data(source, run, seqNo, frames)) =>
      BatchKeepsCore(cfg, c, source, run, seqNo, frames, t.now);
    case Some(EndOfStream(source, run)) => EosKeepsCore(c, source, run);
    case _ =>
  }

  lemma {:induction false} EndedSnoc(turns: seq<Turn>, t: Turn)
    ensures Ended(turns + [t]) == Ended(turns) + Ended([t])
  {
    assert (turns + [t])[..|turns|] == turns;
    assert [t][..0] == [];
  }

  /** Before the last expected source has ended, nothing but batches goes out. */
  lemma {:induction false} NoBarrierYet(cfg: Config, run: nat, turns: seq<Turn>)
    requires !(cfg.expected <= Ended(turns))
    ensures var m := Run(cfg, run, turns);
            NoEos(m.out) && m.core.eos == Ended(turns)
  {
    if turns != [] {
      var n := |turns| - 1;
      assert turns == turns[..n] + [turns[n]];
      EndedSnoc(turns[..n], turns[n]);
      NoBarrierYet(cfg, run, turns[..n]);
      CoreStaysOk(cfg, run, turns[..n]);
      var m := Run(cfg, run, turns[..n]);
      MessageKeepsEos(cfg, m.core, turns[n]);
    }
  }

  lemma QuietTurn(cfg: Config, c: Core, t: Turn)
    requires CoreOk(c) && c.buffer.pending == [] && Quiet(t)
    ensures var m := OneTurn(cfg, c, t);
            m.out == [] && m.core.buffer.pending == [] && FragmentsIn(t) == []
  {
  }

  /** With nothing pending, quiet turns send nothing and change no fragment. */
  lemma {:induction false} QuietTurnsSendNothing(cfg: Config, run: nat, turns: seq<Turn>, k: nat)
    requires k <= |turns|
    requires forall i :: k <= i < |turns| ==> Quiet(turns[i])
    requires Run(cfg, run, turns[..k]).core.buffer.pending == []
    ensures var m := Run(cfg, run, turns);
            && m.out == Run(cfg, run, turns[..k]).out
            && m.core.buffer.pending == []
            && Input(turns) == Input(turns[..k])
  {
    if k == |turns| {
      assert turns[..k] == turns;
    } else {
      var n := |turns| - 1;
      assert turns[..n][..k] == turns[..k];
      QuietTurnsSendNothing(cfg, run, turns[..n], k);
      QuietLast(cfg, run, turns);
    }
  }

  lemma {:induction false} QuietLast(cfg: Config, run: nat, turns: seq<Turn>)
    requires turns != [] && Quiet(turns[|turns| - 1])
    requires Run(cfg, run, turns[..|turns| - 1]).core.buffer.pending == []
    ensures var m, before := Run(cfg, run, turns), Run(cfg, run, turns[..|turns| - 1]);
            && m.out == before.out && m.core.buffer.pending == []
            && Input(turns) == Input(turns[..|turns| - 1])
  {
    var n := |turns| - 1;
    CoreStaysOk(cfg, run, turns[..n]);
    var m := Run(cfg, run, turns[..n]);
    QuietTurn(cfg, m.core, turns[n]);
    assert Input(turns[..n]) + [] == Input(turns[..n]) && m.out + [] == m.out;
  }

  /** The turn that completes the set of ended sources flushes and then ends the stream. */
  lemma {:induction false} BarrierTurn(cfg: Config, run: nat, turns: seq<Turn>)
    requires turns != []
    requires !(cfg.expected <= Ended(turns[..|turns| - 1])) && cfg.expected <= Ended(turns)
    ensures var m := Run(cfg, run, turns);
            && m.core.buffer.pending == []
            && EndsOnce(m.out) && Output(m.out[..|m.out| - 1]) == Input(turns)
  {
    var n := |turns| - 1;
    var t := turns[n];
    NoBarrierYet(cfg, run, turns[..n]);
    CoreStaysOk(cfg, run, turns[..n]);
    var m := Run(cfg, run, turns[..n]);
    CompletingMessage(cfg, m.core, t, turns);
    var d := OnMessage(cfg, m.core, t);
    FlushMoves(d.core, t, m.out);
    BarrierOutput(d.core, t, m.out);
    FragmentsAreConserved(cfg, run, turns);
  }

  lemma {:induction false} CompletingMessage(cfg: Config, c: Core, t: Turn, turns: seq<Turn>)
    requires turns != [] && t == turns[|turns| - 1] && CoreOk(c)
    requires c.eos == Ended(turns[..|turns| - 1])
    requires !(cfg.expected <= c.eos) && cfg.expected <= Ended(turns)
    ensures OnMessage(cfg, c, t).emit == FlushAndEndOfStream
  {
    var before := turns[..|turns| - 1];
    assert turns == before + [t];
    EndedSnoc(before, t);
    MessageKeepsEos(cfg, c, t);
    assert [t][..0] == [];
  }

  /** One end of stream, as the very last thing. */
  ghost predicate EndsOnce(out: seq<Out>) {
    out != [] && IsEos(out[|out| - 1]) && NoEos(out[..|out| - 1])
  }

  lemma {:induction false} LastIsEos(before: seq<Out>, eos: Out, whole: seq<Out>)
    requires NoEos(before) && IsEos(eos) && whole == before + [eos]
    ensures EndsOnce(whole) && Output(whole[..|whole| - 1]) == Output(whole)
  {
    assert whole[..|whole| - 1] == before;
    OutputSnoc(before, eos);
    assert Output(before) + [] == Output(before);
  }

  lemma {:induction false} EndBehind(out: seq<Out>, batches: seq<Out>, eos: Out)
    requires NoEos(out) && NoEos(batches) && IsEos(eos)
    ensures var whole := out + (batches + [eos]);
            EndsOnce(whole) && Output(whole[..|whole| - 1]) == Output(whole)
  {
    Associate(out, batches, [eos]);
    LastIsEos(out + batches, eos, out + (batches + [eos]));
  }

  /** What flushing and ending puts out: at most a batch, and then the end. */
  lemma {:induction false} FlushAndEnd(c: Core, t: Turn) returns (batches: seq<Out>, eos: Out)
    ensures Act(c, FlushAndEndOfStream, t).out == batches + [eos]
    ensures NoEos(batches) && IsEos(eos)
  {
    var flushed := SendPending(c, t.batchGoes);
    batches, eos := flushed.out, SendOwnEos(flushed.core, t.eosGoes).out[0];
  }

  lemma {:induction false} BarrierOutput(c: Core, t: Turn, out: seq<Out>)
    requires NoEos(out)
    ensures var whole := out + Act(c, FlushAndEndOfStream, t).out;
            EndsOnce(whole) && Output(whole[..|whole| - 1]) == Output(whole)
  {
    var batches, eos := FlushAndEnd(c, t);
    EndBehind(out, batches, eos);
  }

  /**
   The barrier. For every interleaving of source streams that each end in one end of stream,
   the thread ends its own stream exactly once, as its very last act, and by then every
   fragment of every source has been sent or lies in a counted abandoned batch.
   */
  lemma {:induction false} EndOfStreamIsABarrier(cfg: Config, run: nat, turns: seq<Turn>)
    requires cfg.expected != {} && cfg.expected <= Ended(turns)
    requires EachSourceEndsOnce(cfg, turns)
    ensures var m := Run(cfg, run, turns);
            && m.core.buffer.pending == []
            && EndsOnce(m.out) && Output(m.out[..|m.out| - 1]) == Input(turns)
  {
    var k := CompletingTurn(cfg, turns);
    assert turns[..k][..k - 1] == turns[..k - 1];
    BarrierTurn(cfg, run, turns[..k]);
    forall j | k <= j < |turns| ensures Quiet(turns[j]) {
      if !Quiet(turns[j]) {
        var s := turns[j].message.value.source;
        var i := WhoEnded(turns[..k], s);
      }
    }
    QuietTurnsSendNothing(cfg, run, turns, k);
  }

  /** The first turn after which all expected sources have ended. */
  lemma {:induction false} CompletingTurn(cfg: Config, turns: seq<Turn>) returns (k: nat)
    requires cfg.expected != {} && cfg.expected <= Ended(turns)
    ensures 0 < k <= |turns|
    ensures !(cfg.expected <= Ended(turns[..k - 1])) && cfg.expected <= Ended(turns[..k])
  {
    var n := |turns| - 1;
    assert turns[..|turns|] == turns;
    if cfg.expected <= Ended(turns[..n]) {
      k := CompletingTurn(cfg, turns[..n]);
      assert turns[..n][..k] == turns[..k] && turns[..n][..k - 1] == turns[..k - 1];
    } else {
      k := |turns|;
    }
  }

  lemma {:induction false} WhoEnded(turns: seq<Turn>, s: nat) returns (i: nat)
    requires s in Ended(turns)
    ensures i < |turns| && !Quiet(turns[i])
    ensures turns[i].message.value.EndOfStream? && turns[i].message.value.source == s
  {
    var n := |turns| - 1;
    if s in Ended(turns[..n]) {
      i := WhoEnded(turns[..n], s);
    } else {
      i := n;
    }
  }

  // ---------------------------------------------------------------------
  // The barrier in every round
  // ---------------------------------------------------------------------

  /** The sources that ended since the last round, and how much had come in when each round ended. */
  datatype Rounds = Rounds(eos: set<nat>, ends: seq<nat>)

  function RoundsOf(cfg: Config, turns: seq<Turn>): Rounds {
    if turns == [] then Rounds({}, [])
    else
      var r := RoundsOf(cfg, turns[..|turns| - 1]);
      var t := turns[|turns| - 1];
      if t.message.None? || !t.message.value.EndOfStream? then r
      else
        var eos := r.eos + {t.message.value.source};
        if cfg.expected <= eos then Rounds({}, r.ends + [|Input(turns)|]) else Rounds(eos, r.ends)
  }

  /** How many fragments are in front of each own end of stream. */
  function EndsIn(out: seq<Out>): seq<nat> {
    if out == [] then []
    else
      var n := |out| - 1;
      EndsIn(out[..n]) + if IsEos(out[n]) then [|Output(out[..n])|] else []
  }

  lemma {:induction false} EndsSnoc(out: seq<Out>, o: Out)
    ensures EndsIn(out + [o]) == EndsIn(out) + if IsEos(o) then [|Output(out)|] else []
  {
    assert (out + [o])[..|out|] == out;
  }

  lemma {:induction false} SendAddsNoEnd(c: Core, goes: bool, out: seq<Out>)
    ensures EndsIn(out + SendPending(c, goes).out) == EndsIn(out)
    ensures SendPending(c, goes).core.eos == c.eos
  {
    var sent := SendPending(c, goes).out;
    if sent == [] {
      assert out + [] == out;
    } else {
      EndsSnoc(out, sent[0]);
      assert EndsIn(out) + [] == EndsIn(out);
    }
  }

  /** Flushing and ending: one end behind everything that was pending, and a new round. */
  lemma {:induction false} FlushAddsOneEnd(c: Core, t: Turn, out: seq<Out>)
    ensures var m := Act(c, FlushAndEndOfStream, t);
            && EndsIn(out + m.out) == EndsIn(out) + [|Output(out) + c.buffer.pending|]
            && m.core.eos == {}
  {
    var flushed := SendPending(c, t.batchGoes);
    var eos := SendOwnEos(flushed.core, t.eosGoes).out[0];
    SendAddsNoEnd(c, t.batchGoes, out);
    PendingMoves(c, t.batchGoes, out);
    EndsSnoc(out + flushed.out, eos);
    Associate(out, flushed.out, [eos]);
  }

  lemma {:induction false} OtherActsAddNoEnd(c: Core, emit: Emit, t: Turn, out: seq<Out>)
    requires !emit.FlushAndEndOfStream?
    ensures var m := Act(c, emit, t);
            EndsIn(out + m.out) == EndsIn(out) && m.core.eos == c.eos
  {
    assert out + [] == out;
    SendAddsNoEnd(c, t.batchGoes, out);
  }

  lemma {:induction false} RoundTurn(cfg: Config, c: Core, t: Turn, out: seq<Out>)
    requires CoreOk(c)
    ensures var m := OneTurn(cfg, c, t);
            if t.message.Some? && t.message.value.EndOfStream?
               && cfg.expected <= c.eos + {t.message.value.source} then
              EndsIn(out + m.out) == EndsIn(out) + [|Output(out) + c.buffer.pending|] && m.core.eos == {}
            else
              EndsIn(out + m.out) == EndsIn(out) && m.core.eos == c.eos + Ended([t])
  {
    var d := OnMessage(cfg, c, t);
    MessageKeepsEos(cfg, c, t);
    assert [t][..0] == [];
    if d.emit.FlushAndEndOfStream? {
      FlushAddsOneEnd(d.core, t, out);
    } else {
      var emit := if d.emit.Nothing? then Ticked(d.core, t.later) else d.emit;
      OtherActsAddNoEnd(d.core, emit, t, out);
    }
  }

  /**
   The barrier, round after round. Over every list of turns the thread ends its own stream exactly
   when the last expected source of a round has ended, and in front of each own end are exactly
   the fragments that had come in by then; together with conservation, the fragments between two
   ends are those of the round.
   */
  lemma {:induction false} BarrierInEveryRound(cfg: Config, run: nat, turns: seq<Turn>)
    ensures var m := Run(cfg, run, turns);
            && EndsIn(m.out) == RoundsOf(cfg, turns).ends && m.core.eos == RoundsOf(cfg, turns).eos
            && Output(m.out) + m.core.buffer.pending == Input(turns)
  {
    FragmentsAreConserved(cfg, run, turns);
    if turns != [] {
      var n := |turns| - 1;
      var t := turns[n];
      BarrierInEveryRound(cfg, run, turns[..n]);
      CoreStaysOk(cfg, run, turns[..n]);
      var m := Run(cfg, run, turns[..n]);
      RoundTurn(cfg, m.core, t, m.out);
      assert [t][..0] == [];
      assert t.message.Some? && t.message.value.EndOfStream? ==> Input(turns) == Input(turns[..n]) + [];
    }
  }

  // ---------------------------------------------------------------------
  // Acquisition restarts over the whole life of the thread
  // ---------------------------------------------------------------------

  /** The restart counter when the thread last rearmed. */
  ghost function RestartsAtRearm(cfg: Config, run: nat, turns: seq<Turn>): nat {
    if turns == [] then 0
    else
      var n := |turns| - 1;
      var m := Run(cfg, run, turns[..n]);
      var step := OneTurn(cfg, m.core, turns[n]);
      if step.out != [] && IsEos(step.out[|step.out| - 1]) then step.core.tracker.restarts
      else RestartsAtRearm(cfg, run, turns[..n])
  }

  /** The tracker stands at `base` plus the least epoch of the expected sources. */
  ghost predicate TrackerOk(t: Tracker, expected: set<nat>, base: nat) {
    t.minEpoch == MinOf(t.epochs, expected) && t.restarts == base + t.minEpoch
  }

  lemma {:induction false} TrackKeepsMin(
      t: Tracker, expected: set<nat>, source: nat, idx: nat, time: nat, base: nat)
    requires TrackerOk(t, expected, base)
    ensures TrackerOk(Track(t, expected, source, idx, time), expected, base)
  {
    MinRisesByAtMostOne(t.epochs, Track(t, expected, source, idx, time).epochs, expected, source);
  }

  lemma {:induction false} FramesKeepTracker(
      cfg: Config, c: Core, source: nat, frames: seq<seq<byte>>, now: int, base: nat)
    requires TrackerOk(c.tracker, cfg.expected, base)
    ensures TrackerOk(TakeFrames(cfg, c, source, frames, now).tracker, cfg.expected, base)
  {
    if frames != [] {
      var n := |frames| - 1;
      FramesKeepTracker(cfg, c, source, frames[..n], now, base);
      var d := TakeFrames(cfg, c, source, frames[..n], now);
      if Judge(frames[n]).Data? {
        var f := Judge(frames[n]).fragment;
        TrackKeepsMin(d.tracker, cfg.expected, source, f.eventIdx, f.eventTime, base);
      }
    }
  }

  lemma {:induction false} RearmedIsOk(t: Tracker, expected: set<nat>)
    ensures TrackerOk(Rearmed(t), expected, t.restarts)
  {
    MinIsUnique(0, MinOf(map[], expected), map[], expected);
  }

  lemma {:induction false} MessageKeepsTracker(cfg: Config, c: Core, t: Turn, base: nat)
    requires TrackerOk(c.tracker, cfg.expected, base)
    ensures TrackerOk(OnMessage(cfg, c, t).core.tracker, cfg.expected, base)
  {
    if t.message.Some? && t.message.value.Data? {
      var m := t.message.value;
      FramesKeepTracker(cfg, CheckSeq(CheckRun(c, m.run), m.source, m.seqNo), m.source, m.payload,
                        t.now, base);
    }
  }

  /** Acting changes the tracker only when it ends the run, and then it rearms it. */
  lemma {:induction false} ActAndTracker(c: Core, emit: Emit, t: Turn)
    ensures var m := Act(c, emit, t);
            if emit.FlushAndEndOfStream? then
              m.core.tracker == Rearmed(c.tracker) && m.out != [] && IsEos(m.out[|m.out| - 1])
            else
              m.core.tracker == c.tracker && (m.out != [] ==> !IsEos(m.out[|m.out| - 1]))
  {
  }

  /** What one turn does to the tracker, and to its value at the last rearm. */
  lemma {:induction false} TurnKeepsTracker(cfg: Config, c: Core, t: Turn, base: nat)
    requires TrackerOk(c.tracker, cfg.expected, base)
    ensures var m := OneTurn(cfg, c, t);
            TrackerOk(m.core.tracker, cfg.expected,
                      if m.out != [] && IsEos(m.out[|m.out| - 1]) then m.core.tracker.restarts else base)
  {
    MessageKeepsTracker(cfg, c, t, base);
    var d := OnMessage(cfg, c, t);
    var emit := if d.emit.Nothing? then Ticked(d.core, t.later) else d.emit;
    ActAndTracker(d.core, emit, t);
    RearmedIsOk(d.core.tracker, cfg.expected);
  }

  /**
   Over every list of turns, since the last rearm the restart counter has grown by exactly the
   minimum epoch over all expected sources.
   */
  lemma {:induction false} RestartCounterFollowsSlowestSource(cfg: Config, run: nat, turns: seq<Turn>)
    ensures TrackerOk(Run(cfg, run, turns).core.tracker, cfg.expected, RestartsAtRearm(cfg, run, turns))
  {
    if turns == [] {
      RearmedIsOk(NewCore(run).tracker, cfg.expected);
    } else {
      var n := |turns| - 1;
      RestartCounterFollowsSlowestSource(cfg, run, turns[..n]);
      TurnKeepsTracker(cfg, Run(cfg, run, turns[..n]).core, turns[n], RestartsAtRearm(cfg, run, turns[..n]));
    }
  }

  // ---------------------------------------------------------------------
  // Epochs stay small
  // ---------------------------------------------------------------------

  ghost predicate EpochsFit(t: Tracker) {
    forall s :: s in t.epochs ==> EpochFits(t.epochs[s])
  }

  lemma {:induction false} TrackFits(t: Tracker, expected: set<nat>, source: nat, idx: nat, time: nat)
    requires EpochsFit(t) && time < TIME_LIMIT
    ensures EpochsFit(Track(t, expected, source, idx, time))
  {
    AdvanceFits(StateOf(t.epochs, source), idx, time);
  }

  lemma {:induction false} FramesFit(
      cfg: Config, c: Core, source: nat, frames: seq<seq<byte>>, now: int)
    requires EpochsFit(c.tracker)
    ensures EpochsFit(TakeFrames(cfg, c, source, frames, now).tracker)
  {
    if frames != [] {
      var n := |frames| - 1;
      FramesFit(cfg, c, source, frames[..n], now);
      var d := TakeFrames(cfg, c, source, frames[..n], now);
      if Decoded(frames[n]).Some? {
        FragmentWidths(frames[n]);
        var f := Decoded(frames[n]).value;
        TrackFits(d.tracker, cfg.expected, source, f.eventIdx, f.eventTime);
      }
    }
  }

  lemma {:induction false} MessageFits(cfg: Config, c: Core, t: Turn)
    requires EpochsFit(c.tracker)
    ensures EpochsFit(OnMessage(cfg, c, t).core.tracker)
  {
    if t.message.Some? && t.message.value.Data? {
      var m := t.message.value;
      FramesFit(cfg, CheckSeq(CheckRun(c, m.run), m.source, m.seqNo), m.source, m.payload, t.now);
    }
  }

  lemma ActFits(c: Core, emit: Emit, t: Turn)
    requires EpochsFit(c.tracker)
    ensures EpochsFit(Act(c, emit, t).core.tracker)
  {
  }

  /**
   Over every list of turns, whatever the frames say, no source's epoch exceeds
   2^48 / (10^7 + 1), so its 32-bit counter cannot overflow.
   */
  lemma {:induction false} EpochsNeverOverflow(cfg: Config, run: nat, turns: seq<Turn>)
    ensures EpochsFit(Run(cfg, run, turns).core.tracker)
    ensures forall s :: s in Run(cfg, run, turns).core.tracker.epochs ==>
                          Run(cfg, run, turns).core.tracker.epochs[s].epoch
                          <= TIME_LIMIT / (RESTART_MIN_TIME_GAP + 1) < U32_MAX
  {
    if turns != [] {
      var n := |turns| - 1;
      EpochsNeverOverflow(cfg, run, turns[..n]);
      var d := OnMessage(cfg, Run(cfg, run, turns[..n]).core, turns[n]);
      MessageFits(cfg, Run(cfg, run, turns[..n]).core, turns[n]);
      ActFits(d.core, if d.emit.Nothing? then Ticked(d.core, turns[n].later) else d.emit, turns[n]);
    }
    EpochsAreSmall(Run(cfg, run, turns).core.tracker);
  }

  lemma EpochsAreSmall(t: Tracker)
    requires EpochsFit(t)
    ensures forall s :: s in t.epochs ==>
                          t.epochs[s].epoch <= TIME_LIMIT / (RESTART_MIN_TIME_GAP + 1) < U32_MAX
  {
  }
}

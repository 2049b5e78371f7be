/**
 The books of the decoder thread, read off the turns alone: what every counter counts, which run
 number everything carries, and when what is waiting leaves.
 */
module DecoderBooks {
  import opened Bytes
  import opened Messages
  import opened Decode
  import opened RunDecoder
  import opened DecoderLoop
  import opened DecoderRounds

  // ---------------------------------------------------------------------
  // What the counters count
  // ---------------------------------------------------------------------

  function PayloadOf(t: Turn): seq<seq<byte>> {
    if t.message.Some? && t.message.value.Data? then t.message.value.payload else []
  }

  /** All frames that came in. */
  function FramesIn(turns: seq<Turn>): seq<seq<byte>> {
    if turns == [] then [] else FramesIn(turns[..|turns| - 1]) + PayloadOf(turns[|turns| - 1])
  }

  predicate BringsEnd(t: Turn) {
    t.message.Some? && t.message.value.EndOfStream?
  }

  predicate BringsBeat(t: Turn) {
    t.message.Some? && t.message.value.Heartbeat?
  }

  function BringsBatchOf(source: nat): Turn -> bool {
    (t: Turn) => t.message.Some? && t.message.value.Data? && t.message.value.source == source
  }

  predicate CarriesTopology(frame: seq<byte>) {
    |frame| >= 12 && WireType(frame) == 7
  }

  /** A frame that decodes, but not to the CoBo it came from. */
  function AstrayFrom(source: nat): seq<byte> -> bool {
    (frame: seq<byte>) => Decodes(frame) && Decoded(frame).value.cobo != source
  }

  function AstrayIn(turns: seq<Turn>): nat {
    if turns == [] then 0
    else
      var t := turns[|turns| - 1];
      AstrayIn(turns[..|turns| - 1])
      + if t.message.Some? && t.message.value.Data?
        then CountIf(t.message.value.payload, AstrayFrom(t.message.value.source)) else 0
  }

  /** The frame counters, for these frames. */
  predicate FramesCounted(c: Core, frames: seq<seq<byte>>) {
    && c.counts == Decode.Tally(frames) && c.tally.framesIn == |frames|
    && c.tally.topologyFrames == CountIf(frames, CarriesTopology)
  }

  lemma {:induction false} FrameIsCounted(
      cfg: Config, c: Core, source: nat, frame: seq<byte>, now: int, past: seq<seq<byte>>)
    requires FramesCounted(c, past)
    ensures FramesCounted(TakeFrame(cfg, c, source, frame, now), past + [frame])
  {
    assert (past + [frame])[..|past|] == past;
    PeeksFromBytes(frame);
  }

  lemma {:induction false} FramesAreCounted(
      cfg: Config, c: Core, source: nat, frames: seq<seq<byte>>, now: int, past: seq<seq<byte>>)
    requires FramesCounted(c, past)
    ensures FramesCounted(TakeFrames(cfg, c, source, frames, now), past + frames)
  {
    if frames == [] {
      assert past + frames == past;
    } else {
      var n := |frames| - 1;
      var before := past + frames[..n];
      FramesAreCounted(cfg, c, source, frames[..n], now, past);
      LastFrameIsCounted(cfg, TakeFrames(cfg, c, source, frames[..n], now), source, frames[n], now,
                         before, past + frames);
    }
  }

  lemma {:induction false} LastFrameIsCounted(
      cfg: Config, c: Core, source: nat, frame: seq<byte>, now: int, past: seq<seq<byte>>,
      all: seq<seq<byte>>)
    requires FramesCounted(c, past) && all == past + [frame]
    ensures FramesCounted(TakeFrame(cfg, c, source, frame, now), all)
  {
    FrameIsCounted(cfg, c, source, frame, now, past);
  }

  lemma FrameMayBeAstray(cfg: Config, c: Core, source: nat, frame: seq<byte>, now: int)
    ensures var d := TakeFrame(cfg, c, source, frame, now);
            && d.tally.eosIn == c.tally.eosIn && d.tally.heartbeatsIn == c.tally.heartbeatsIn
            && d.tally.coboMismatch
               == c.tally.coboMismatch + if AstrayFrom(source)(frame) then 1 else 0
  {
  }

  lemma {:induction false} FramesMayBeAstray(
      cfg: Config, c: Core, source: nat, frames: seq<seq<byte>>, now: int)
    ensures var d := TakeFrames(cfg, c, source, frames, now);
            && d.tally.eosIn == c.tally.eosIn && d.tally.heartbeatsIn == c.tally.heartbeatsIn
            && d.tally.coboMismatch
               == c.tally.coboMismatch + CountIf(frames, AstrayFrom(source))
  {
    if frames != [] {
      var n := |frames| - 1;
      FramesMayBeAstray(cfg, c, source, frames[..n], now);
      FrameMayBeAstray(cfg, TakeFrames(cfg, c, source, frames[..n], now), source, frames[n], now);
    }
  }

  lemma {:induction false} ActKeepsIntake(c: Core, emit: Emit, t: Turn)
    ensures var d := Act(c, emit, t).core;
            && d.counts == c.counts && d.check.batches == c.check.batches
            && d.tally.framesIn == c.tally.framesIn && d.tally.eosIn == c.tally.eosIn
            && d.tally.heartbeatsIn == c.tally.heartbeatsIn
            && d.tally.topologyFrames == c.tally.topologyFrames
            && d.tally.coboMismatch == c.tally.coboMismatch
  {
  }

  /** Every counter of the intake, for these turns. */
  ghost predicate TurnsCounted(c: Core, turns: seq<Turn>) {
    && FramesCounted(c, FramesIn(turns)) && c.tally.coboMismatch == AstrayIn(turns)
    && c.tally.eosIn == CountIf(turns, BringsEnd)
    && c.tally.heartbeatsIn == CountIf(turns, BringsBeat) && BatchesCounted(c.check, turns)
  }

  ghost predicate BatchesCounted(check: SeqCheck, turns: seq<Turn>) {
    forall s: nat :: EntryOf(check.batches, s) == CountIf(turns, BringsBatchOf(s))
  }

  lemma {:induction false} TurnCountsBatch(check: SeqCheck, turns: seq<Turn>)
    requires turns != [] && BatchesCounted(check, turns[..|turns| - 1])
    ensures BatchesCounted(Checked(check, turns[|turns| - 1]), turns)
  {
    var n := |turns| - 1;
    var after := Checked(check, turns[n]);
    forall s: nat ensures EntryOf(after.batches, s) == CountIf(turns, BringsBatchOf(s)) {
      assert EntryOf(check.batches, s) == CountIf(turns[..n], BringsBatchOf(s));
    }
  }

  lemma {:induction false} BatchIsCounted(
      cfg: Config, c: Core, source: nat, run: nat, seqNo: nat, frames: seq<seq<byte>>, now: int,
      past: seq<seq<byte>>)
    requires FramesCounted(c, past)
    ensures var d := HandleBatch(cfg, c, source, run, seqNo, frames, now);
            && FramesCounted(d, past + frames)
            && d.tally.eosIn == c.tally.eosIn && d.tally.heartbeatsIn == c.tally.heartbeatsIn
            && d.tally.coboMismatch
               == c.tally.coboMismatch + CountIf(frames, AstrayFrom(source))
  {
    FramesAreCounted(cfg, CheckSeq(CheckRun(c, run), source, seqNo), source, frames, now, past);
    FramesMayBeAstray(cfg, CheckSeq(CheckRun(c, run), source, seqNo), source, frames, now);
  }

  lemma {:induction false} MessageIsCounted(cfg: Config, c: Core, turns: seq<Turn>)
    requires turns != [] && TurnsCounted(c, turns[..|turns| - 1])
    ensures TurnsCounted(OnMessage(cfg, c, turns[|turns| - 1]).core, turns)
  {
    var n := |turns| - 1;
    var before := turns[..n];
    var t := turns[n];
    assert FramesIn(before) + [] == FramesIn(before);
    MessageIsChecked(cfg, c, t);
    TurnCountsBatch(c.check, turns);
    if t.message.Some? && t.message.value.Data? {
      var m := t.message.value;
      BatchIsCounted(cfg, c, m.source, m.run, m.seqNo, m.payload, t.now, FramesIn(before));
    }
  }

  /**
   Over every list of turns: each counter of the intake is the number of messages or frames of
   its kind, and no rearm takes any of them back.
   */
  lemma {:induction false} CountersOverTurns(cfg: Config, run: nat, turns: seq<Turn>)
    ensures TurnsCounted(Run(cfg, run, turns).core, turns)
  {
    if turns != [] {
      var n := |turns| - 1;
      CountersOverTurns(cfg, run, turns[..n]);
      var c := Run(cfg, run, turns[..n]).core;
      MessageIsCounted(cfg, c, turns);
      var d := OnMessage(cfg, c, turns[n]);
      ActKeepsIntake(d.core, if d.emit.Nothing? then Ticked(d.core, turns[n].later) else d.emit,
                     turns[n]);
    }
  }
}

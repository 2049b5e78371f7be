/**
 The decoder core (`RunDecoder`, src/decoder.rs): checks run and sequence numbers of incoming
 batches, decodes their frames into a pending batch of fragments, decides when to send, and
 waits for the end of stream of every expected source.
 */
module RunDecoder {
  import opened Bytes
  import opened Messages
  import opened Decode
  import opened Restart

  datatype Config = Config(expected: set<nat>, batchMaxBytes: nat, batchMax: nat)

  datatype Emit = Nothing | Batch | FlushAndEndOfStream

  datatype Buffer = Buffer(pending: seq<Fragment>, bytes: nat, deadline: Option<int>)

  const EMPTY_BUFFER := Buffer([], 0, None)

  datatype Tally = Tally(
    framesIn: nat, fragmentsOut: nat, batchesOut: nat, itemsOut: nat, runMismatches: nat,
    eosIn: nat, heartbeatsIn: nat, eosOut: nat, eosAbandoned: nat, batchesAbandoned: nat,
    coboMismatch: nat, topologyFrames: nat, errored: bool)

  const ZERO_TALLY := Tally(0, 0, 0, 0, 0, 0, 0, 0, 0, 0, 0, 0, false)

  datatype Core = Core(
    run: nat, awaitingRun: bool, eos: set<nat>, buffer: Buffer, outSeq: nat, check: SeqCheck,
    counts: Counts, tally: Tally, tracker: Tracker)

  function NewCore(run: nat): Core {
    Core(run, false, {}, EMPTY_BUFFER, 0, FRESH_CHECK, ZERO_COUNTS, ZERO_TALLY,
         Tracker(map[], 0, 0, map[]))
  }

  // ---------------------------------------------------------------------
  // The operations
  // ---------------------------------------------------------------------

  /** After a rearm the next number is adopted; otherwise a change is a protocol violation. */
  function CheckRun(c: Core, run: nat): Core {
    if c.awaitingRun then c.(awaitingRun := false, run := run)
    else if run != c.run then
      c.(tally := c.tally.(runMismatches := c.tally.runMismatches + 1, errored := true))
    else c
  }

  function CheckSeq(c: Core, source: nat, seqNo: nat): Core {
    var gap := seqNo != EntryOf(c.check.next, source);
    c.(check := Observe(c.check, source, seqNo),
       tally := c.tally.(errored := c.tally.errored || gap))
  }

  function Pushed(cfg: Config, b: Buffer, f: Fragment, now: int): Buffer {
    Buffer(b.pending + [f], b.bytes + |f.items|,
           if b.deadline.None? then Some(now + cfg.batchMax) else b.deadline)
  }

  /** A decoded frame goes to the buffer. */
  ghost function Kept(cfg: Config, c: Core, source: nat, f: Fragment, now: int): Core {
    var t := c.tally;
    c.(tally := t.(coboMismatch := t.coboMismatch + if f.cobo != source then 1 else 0),
       tracker := Track(c.tracker, cfg.expected, source, f.eventIdx, f.eventTime),
       buffer := Pushed(cfg, c.buffer, f, now))
  }

  /** A frame that does not decode; only a malformed one is an error. */
  function Dropped(c: Core, malformed: bool, topology: bool): Core {
    var t := c.tally;
    if malformed then c.(tally := t.(errored := true))
    else c.(tally := t.(topologyFrames := t.topologyFrames + if topology then 1 else 0))
  }

  /** The frame is counted here and by the decoder. */
  function Noted(c: Core, frame: seq<byte>): Core {
    c.(counts := Account(c.counts, frame), tally := c.tally.(framesIn := c.tally.framesIn + 1))
  }

  /** One frame: a fragment to the buffer, or a count. */
  ghost function TakeFrame(cfg: Config, c: Core, source: nat, frame: seq<byte>, now: int): Core {
    match Judge(frame)
    case Data(f) => Kept(cfg, Noted(c, frame), source, f, now)
    case Malformed => Dropped(Noted(c, frame), true, false)
    case Unsupported => Dropped(Noted(c, frame), false, ParseTopology(frame).Some?)
  }

  ghost function TakeFrames(cfg: Config, c: Core, source: nat, frames: seq<seq<byte>>, now: int): Core {
    if frames == [] then c
    else
      var n := |frames| - 1;
      TakeFrame(cfg, TakeFrames(cfg, c, source, frames[..n], now), source, frames[n], now)
  }

  /** A batch of any run number is kept. */
  ghost function HandleBatch(cfg: Config, c: Core, source: nat, run: nat, seqNo: nat,
                             frames: seq<seq<byte>>, now: int): Core
  {
    TakeFrames(cfg, CheckSeq(CheckRun(c, run), source, seqNo), source, frames, now)
  }

  predicate BatchFull(cfg: Config, c: Core) {
    c.buffer.bytes >= cfg.batchMaxBytes
  }

  /** An end of stream is recorded whatever its run number. */
  function HandleEos(c: Core, source: nat, run: nat): Core {
    var d := CheckRun(c.(tally := c.tally.(eosIn := c.tally.eosIn + 1)), run);
    d.(eos := d.eos + {source})
  }

  function Ticked(c: Core, now: int): Emit {
    if c.buffer.deadline.Some? && now >= c.buffer.deadline.value then Batch else Nothing
  }

  function BatchSent(c: Core): Core {
    var t := c.tally;
    c.(tally := t.(batchesOut := t.batchesOut + 1, fragmentsOut := t.fragmentsOut + |c.buffer.pending|,
                   itemsOut := t.itemsOut + c.buffer.bytes / 4),
       outSeq := c.outSeq + 1, buffer := EMPTY_BUFFER)
  }

  /** An abandoned batch uses up its number, so the loss shows as a gap downstream. */
  function BatchAbandoned(c: Core): Core {
    c.(tally := c.tally.(batchesAbandoned := c.tally.batchesAbandoned + 1),
       outSeq := c.outSeq + 1, buffer := EMPTY_BUFFER)
  }

  function Rearm(c: Core): Core {
    c.(eos := {}, check := c.check.(next := map[]), outSeq := 0, awaitingRun := true,
       tracker := Rearmed(c.tracker), buffer := EMPTY_BUFFER)
  }

  function EosSent(c: Core): Core {
    Rearm(c.(tally := c.tally.(eosOut := c.tally.eosOut + 1)))
  }

  function EosAbandoned(c: Core): Core {
    Rearm(c.(tally := c.tally.(eosAbandoned := c.tally.eosAbandoned + 1)))
  }

  // ---------------------------------------------------------------------
  // The object
  // ---------------------------------------------------------------------

  /** The core with its counters and buffers; related fields are grouped as records. */
  class RunDecoder {
    const cfg: Config
    var runNumber: nat
    var awaitingRun: bool
    var eosReceived: set<nat>
    const decoder: Decoder
    var buffer: Buffer
    var outSeq: nat
    var check: SeqCheck
    var tally: Tally
    var tracker: Tracker

    function State(): Core
      reads this, decoder
    {
      Core(runNumber, awaitingRun, eosReceived, buffer, outSeq, check, decoder.State(), tally, tracker)
    }

    constructor (run: nat, cfg: Config)
      ensures State() == NewCore(run) && this.cfg == cfg && fresh(decoder)
    {
      this.cfg := cfg;
      runNumber, awaitingRun, eosReceived := run, false, {};
      decoder := new Decoder();
      buffer, outSeq, check, tally := EMPTY_BUFFER, 0, FRESH_CHECK, ZERO_TALLY;
      tracker := Tracker(map[], 0, 0, map[]);
    }

    method TakeBatch(source: nat, run: nat, seqNo: nat, frames: seq<seq<byte>>, now: int)
      returns (emit: Emit)
      modifies this, decoder
      ensures State() == HandleBatch(cfg, old(State()), source, run, seqNo, frames, now)
      ensures emit == if BatchFull(cfg, State()) then Emit.Batch else Nothing
    {
      CheckRunNumber(run);
      CheckSequence(source, seqNo);
      ghost var start := State();
      for i := 0 to |frames|
        invariant State() == TakeFrames(cfg, start, source, frames[..i], now)
      {
        TakeOneFrame(source, frames[i], now);
        assert frames[..i + 1][..i] == frames[..i];
      }
      assert frames[..|frames|] == frames;
      emit := if buffer.bytes >= cfg.batchMaxBytes then Emit.Batch else Nothing;
    }

    method CheckRunNumber(run: nat)
      modifies this
      ensures State() == CheckRun(old(State()), run)
    {
      if awaitingRun {
        awaitingRun := false;
        if run != runNumber {
          runNumber := run;
        }
        return;
      }
      if run != runNumber {
        tally := tally.(runMismatches := tally.runMismatches + 1, errored := true);
      }
    }

    method CheckSequence(source: nat, seqNo: nat)
      modifies this`check, this`tally
      ensures State() == CheckSeq(old(State()), source, seqNo)
    {
      if seqNo != EntryOf(check.next, source) {
        check := check.(gaps := check.gaps + 1);
        tally := tally.(errored := true);
      }
      check := check.(next := check.next[source := seqNo + 1],
                      batches := check.batches[source := EntryOf(check.batches, source) + 1]);
    }

    /** One frame; the branch taken follows which decoder counter moved. */
    method TakeOneFrame(source: nat, frame: seq<byte>, now: int)
      modifies this`buffer, this`tally, this`tracker, decoder
      ensures State() == TakeFrame(cfg, old(State()), source, frame, now)
    {
      var malformedBefore, unsupportedBefore := decoder.malformed, decoder.unsupported;
      var r := DecodeFrame(frame);
      if r.Some? {
        KeepFragment(source, r.value, now);
      } else {
        // a frame dropped without a counter moving cannot happen
        assert decoder.malformed > malformedBefore || decoder.unsupported > unsupportedBefore;
        DropFrame(decoder.malformed > malformedBefore, ParseTopology(frame).Some?);
      }
    }

    method DecodeFrame(frame: seq<byte>) returns (r: Option<Fragment>)
      modifies this`tally, decoder
      ensures r == Decoded(frame) && State() == Noted(old(State()), frame)
    {
      tally := tally.(framesIn := tally.framesIn + 1);
      r := decoder.Decode(frame);
    }

    method DropFrame(malformed: bool, topology: bool)
      modifies this`tally
      ensures State() == Dropped(old(State()), malformed, topology)
    {
      if malformed {
        tally := tally.(errored := true);
      } else {
        tally := tally.(topologyFrames := tally.topologyFrames + if topology then 1 else 0);
      }
    }

    method KeepFragment(source: nat, f: Fragment, now: int)
      modifies this`buffer, this`tally, this`tracker
      ensures State() == Kept(cfg, old(State()), source, f, now)
    {
      tally := tally.(coboMismatch := tally.coboMismatch + if f.cobo != source then 1 else 0);
      TrackRestart(source, f.eventIdx, f.eventTime);
      buffer := buffer.(bytes := buffer.bytes + |f.items|, pending := buffer.pending + [f]);
      if buffer.deadline.None? {
        buffer := buffer.(deadline := Some(now + cfg.batchMax));
      }
    }

    method TrackRestart(source: nat, idx: nat, time: nat)
      modifies this`tracker
      ensures tracker == Track(old(tracker), cfg.expected, source, idx, time)
    {
      var e := StateOf(tracker.epochs, source);
      tracker := tracker.(epochs := tracker.epochs[source := Advance(e, idx, time)]);
      if !Restarts(e, idx, time) {
        return;
      }
      if source !in tracker.framesBefore {
        tracker := tracker.(framesBefore := tracker.framesBefore[source := e.dataFrames]);
      }
      var m := MinEpoch(tracker.epochs, cfg.expected);
      MinIsUnique(m, MinOf(tracker.epochs, cfg.expected), tracker.epochs, cfg.expected);
      if m > tracker.minEpoch {
        tracker := tracker.(minEpoch := m, restarts := tracker.restarts + 1);
      }
    }

    method TakeEndOfStream(source: nat, run: nat) returns (emit: Emit)
      modifies this
      ensures State() == HandleEos(old(State()), source, run)
      ensures emit == if cfg.expected <= eosReceived then FlushAndEndOfStream else Nothing
    {
      tally := tally.(eosIn := tally.eosIn + 1);
      CheckRunNumber(run);
      eosReceived := eosReceived + {source};
      emit := if cfg.expected <= eosReceived then FlushAndEndOfStream else Nothing;
    }

    method Tick(now: int) returns (emit: Emit)
      ensures emit == Ticked(State(), now)
    {
      emit := if buffer.deadline.Some? && now >= buffer.deadline.value then Emit.Batch else Nothing;
    }

    method TakeHeartbeat()
      modifies this`tally
      ensures State() == old(State()).(tally := old(tally).(heartbeatsIn := old(tally).heartbeatsIn + 1))
    {
      tally := tally.(heartbeatsIn := tally.heartbeatsIn + 1);
    }

    method CountSent()
      modifies this`tally, this`outSeq, this`buffer
      ensures State() == BatchSent(old(State()))
    {
      tally := tally.(batchesOut := tally.batchesOut + 1,
                      fragmentsOut := tally.fragmentsOut + |buffer.pending|,
                      itemsOut := tally.itemsOut + buffer.bytes / 4);
      outSeq := outSeq + 1;
      buffer := EMPTY_BUFFER;
    }

    method CountAbandoned()
      modifies this`tally, this`outSeq, this`buffer
      ensures State() == BatchAbandoned(old(State()))
    {
      tally := tally.(batchesAbandoned := tally.batchesAbandoned + 1);
      outSeq := outSeq + 1;
      buffer := EMPTY_BUFFER;
    }

    method EndRun(sent: bool)
      modifies this
      ensures State() == if sent then EosSent(old(State())) else EosAbandoned(old(State()))
    {
      if sent {
        tally := tally.(eosOut := tally.eosOut + 1);
      } else {
        tally := tally.(eosAbandoned := tally.eosAbandoned + 1);
      }
      RearmRun();
    }

    method RearmRun()
      modifies this
      ensures State() == Rearm(old(State()))
    {
      eosReceived, outSeq, awaitingRun := {}, 0, true;
      check := check.(next := map[]);
      tracker := Rearmed(tracker);
      buffer := EMPTY_BUFFER;
    }
  }
}

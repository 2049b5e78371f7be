/**
 The decoder thread (`run_decoder_thread`, src/decoder.rs): one turn receives at most one
 message, lets the core decide, and sends. A send either goes out or is abandoned. Nothing is
 assumed about the messages: the laws hold over every list of turns.
 */
module DecoderLoop {
  import opened Bytes
  import opened Messages
  import opened Decode
  import opened RunDecoder

  /** What the thread put on, or failed to put on, its own link. */
  datatype Out =
    | SentBatch(run: nat, seqNo: nat, fragments: seq<Fragment>)
    | LostBatch(run: nat, seqNo: nat, fragments: seq<Fragment>)
    | SentEos(run: nat)
    | LostEos(run: nat)

  /** One turn: the message if any, the clock at both looks, and how the sends would end. */
  datatype Turn = Turn(message: Option<RawMessage>, now: int, later: int, batchGoes: bool, eosGoes: bool)

  datatype Moved = Moved(core: Core, out: seq<Out>)

  function SendPending(c: Core, goes: bool): Moved {
    var b := c.buffer.pending;
    if b == [] then Moved(c, [])
    else if goes then Moved(BatchSent(c), [SentBatch(c.run, c.outSeq, b)])
    else Moved(BatchAbandoned(c), [LostBatch(c.run, c.outSeq, b)])
  }

  function SendOwnEos(c: Core, goes: bool): Moved {
    if goes then Moved(EosSent(c), [SentEos(c.run)]) else Moved(EosAbandoned(c), [LostEos(c.run)])
  }

  datatype Decision = Decision(core: Core, emit: Emit)

  ghost function OnMessage(cfg: Config, c: Core, t: Turn): Decision {
    match t.message
    case None => Decision(c, Nothing)
    case Some(Data(source, run, seqNo, frames)) =>
      var d := HandleBatch(cfg, c, source, run, seqNo, frames, t.now);
      Decision(d, if BatchFull(cfg, d) then Batch else Nothing)
    case Some(EndOfStream(source, run)) =>
      var d := HandleEos(c, source, run);
      Decision(d, if cfg.expected <= d.eos then FlushAndEndOfStream else Nothing)
    case Some(Heartbeat(_, _, _)) =>
      Decision(c.(tally := c.tally.(heartbeatsIn := c.tally.heartbeatsIn + 1)), Nothing)
  }

  /** Flushing comes before the thread's own end of stream. */
  function Act(c: Core, emit: Emit, t: Turn): Moved {
    match emit
    case Nothing => Moved(c, [])
    case Batch => SendPending(c, t.batchGoes)
    case FlushAndEndOfStream =>
      var flushed := SendPending(c, t.batchGoes);
      var ended := SendOwnEos(flushed.core, t.eosGoes);
      Moved(ended.core, flushed.out + ended.out)
  }

  ghost function OneTurn(cfg: Config, c: Core, t: Turn): Moved {
    var d := OnMessage(cfg, c, t);
    Act(d.core, if d.emit.Nothing? then Ticked(d.core, t.later) else d.emit, t)
  }

  ghost function Run(cfg: Config, run: nat, turns: seq<Turn>): Moved {
    if turns == [] then Moved(NewCore(run), [])
    else
      var m := Run(cfg, run, turns[..|turns| - 1]);
      var n := OneTurn(cfg, m.core, turns[|turns| - 1]);
      Moved(n.core, m.out + n.out)
  }

  /** The whole life of the thread: on a stop it sends what is left. */
  ghost function RunToStop(cfg: Config, run: nat, turns: seq<Turn>, lastGoes: bool): Moved {
    var m := Run(cfg, run, turns);
    var last := SendPending(m.core, lastGoes);
    Moved(last.core, m.out + last.out)
  }

  /** The thread around a real core. */
  method Drive(core: RunDecoder, run: nat, turns: seq<Turn>, lastGoes: bool) returns (out: seq<Out>)
    requires core.State() == NewCore(run)
    modifies core, core.decoder
    ensures Moved(core.State(), out) == RunToStop(core.cfg, run, turns, lastGoes)
  {
    out := [];
    for i := 0 to |turns|
      invariant Moved(core.State(), out) == Run(core.cfg, run, turns[..i])
    {
      var more := DriveOnce(core, turns[i]);
      out := out + more;
      assert turns[..i + 1][..i] == turns[..i];
    }
    assert turns[..|turns|] == turns;
    var last := SendOne(core, lastGoes);
    out := out + last;
  }

  method DriveOnce(core: RunDecoder, t: Turn) returns (out: seq<Out>)
    modifies core, core.decoder
    ensures Moved(core.State(), out) == OneTurn(core.cfg, old(core.State()), t)
  {
    var emit := ReceiveOne(core, t);
    if emit.Nothing? {
      emit := core.Tick(t.later);
    }
    out := [];
    match emit {
      case Nothing =>
      case Batch => out := SendOne(core, t.batchGoes);
      case FlushAndEndOfStream =>
        out := SendOne(core, t.batchGoes);
        var eos := if t.eosGoes then SentEos(core.runNumber) else LostEos(core.runNumber);
        core.EndRun(t.eosGoes);
        out := out + [eos];
    }
  }

  method ReceiveOne(core: RunDecoder, t: Turn) returns (emit: Emit)
    modifies core, core.decoder
    ensures Decision(core.State(), emit) == OnMessage(core.cfg, old(core.State()), t)
  {
    emit := Nothing;
    match t.message {
      case None =>
      case Some(Data(source, run, seqNo, frames)) => emit := core.TakeBatch(source, run, seqNo, frames, t.now);
      case Some(EndOfStream(source, run)) => emit := core.TakeEndOfStream(source, run);
      case Some(Heartbeat(_, _, _)) => core.TakeHeartbeat();
    }
  }

  method SendOne(core: RunDecoder, goes: bool) returns (out: seq<Out>)
    modifies core
    ensures Moved(core.State(), out) == SendPending(old(core.State()), goes)
  {
    if core.buffer.pending == [] {
      return [];
    }
    if goes {
      out := [SentBatch(core.runNumber, core.outSeq, core.buffer.pending)];
      core.CountSent();
    } else {
      out := [LostBatch(core.runNumber, core.outSeq, core.buffer.pending)];
      core.CountAbandoned();
    }
  }

  // ---------------------------------------------------------------------
  // Conservation of fragments
  // ---------------------------------------------------------------------

  /** The fragments of a batch, in order: the frames that decode. */
  function FragmentsOf(frames: seq<seq<byte>>): seq<Fragment> {
    if frames == [] then []
    else
      var n := |frames| - 1;
      FragmentsOf(frames[..n]) + if Decoded(frames[n]).Some? then [Decoded(frames[n]).value] else []
  }

  function FragmentsIn(t: Turn): seq<Fragment> {
    if t.message.Some? && t.message.value.Data? then FragmentsOf(t.message.value.payload) else []
  }

  /** Everything that came in, decoded. */
  function Input(turns: seq<Turn>): seq<Fragment> {
    if turns == [] then [] else Input(turns[..|turns| - 1]) + FragmentsIn(turns[|turns| - 1])
  }

  /** Everything that left the buffer, sent or abandoned. */
  function Output(out: seq<Out>): seq<Fragment> {
    if out == [] then []
    else
      var last := out[|out| - 1];
      Output(out[..|out| - 1])
      + if last.SentBatch? || last.LostBatch? then last.fragments else []
  }

  lemma {:induction false} OutputSnoc(out: seq<Out>, o: Out)
    ensures Output(out + [o])
            == Output(out) + if o.SentBatch? || o.LostBatch? then o.fragments else []
  {
    assert (out + [o])[..|out|] == out;
  }

  lemma {:induction false} BatchAddsItsFragments(
      cfg: Config, c: Core, source: nat, frames: seq<seq<byte>>, now: int)
    ensures TakeFrames(cfg, c, source, frames, now).buffer.pending
            == c.buffer.pending + FragmentsOf(frames)
  {
    if frames != [] {
      var n := |frames| - 1;
      BatchAddsItsFragments(cfg, c, source, frames[..n], now);
      FrameAddsItsFragment(cfg, TakeFrames(cfg, c, source, frames[..n], now), source, frames[n], now);
    }
  }

  lemma FrameAddsItsFragment(cfg: Config, c: Core, source: nat, frame: seq<byte>, now: int)
    ensures TakeFrame(cfg, c, source, frame, now).buffer.pending
            == c.buffer.pending
               + if Decoded(frame).Some? then [Decoded(frame).value] else []
  {
  }

  lemma {:induction false} MessageAddsItsFragments(cfg: Config, c: Core, t: Turn)
    ensures OnMessage(cfg, c, t).core.buffer.pending == c.buffer.pending + FragmentsIn(t)
  {
    if t.message.Some? && t.message.value.Data? {
      var m := t.message.value;
      var d := CheckSeq(CheckRun(c, m.run), m.source, m.seqNo);
      BatchAddsItsFragments(cfg, d, m.source, m.payload, t.now);
    }
  }

  lemma {:induction false} ActMovesFragments(c: Core, emit: Emit, t: Turn, out: seq<Out>)
    ensures var m := Act(c, emit, t);
            Output(out + m.out) + m.core.buffer.pending == Output(out) + c.buffer.pending
  {
    assert out + [] == out;
    match emit {
      case Nothing =>
      case Batch => PendingMoves(c, t.batchGoes, out);
      case FlushAndEndOfStream => FlushMoves(c, t, out);
    }
  }

  lemma {:induction false} EosCarriesNothing(out: seq<Out>, eos: Out)
    requires eos.SentEos? || eos.LostEos?
    ensures Output(out + [eos]) == Output(out)
  {
    OutputSnoc(out, eos);
    assert Output(out) + [] == Output(out);
  }

  lemma {:induction false} FlushMoves(c: Core, t: Turn, out: seq<Out>)
    ensures var m := Act(c, FlushAndEndOfStream, t);
            m.core.buffer.pending == [] && Output(out + m.out) == Output(out) + c.buffer.pending
  {
    var flushed := SendPending(c, t.batchGoes);
    var ended := SendOwnEos(flushed.core, t.eosGoes);
    var eos := if t.eosGoes then SentEos(flushed.core.run) else LostEos(flushed.core.run);
    assert ended.out == [eos];
    PendingMoves(c, t.batchGoes, out);
    EosCarriesNothing(out + flushed.out, eos);
    Associate(out, flushed.out, [eos]);
  }

  lemma {:induction false} PendingMoves(c: Core, goes: bool, out: seq<Out>)
    ensures var m := SendPending(c, goes);
            && m.core.buffer.pending == []
            && Output(out + m.out) == Output(out) + c.buffer.pending
  {
    assert out + [] == out;
    if c.buffer.pending != [] {
      OutputSnoc(out, SendPending(c, goes).out[0]);
    }
  }

  lemma {:induction false} TurnMovesFragments(cfg: Config, c: Core, t: Turn, out: seq<Out>)
    ensures var m := OneTurn(cfg, c, t);
            Output(out + m.out) + m.core.buffer.pending
            == (Output(out) + c.buffer.pending) + FragmentsIn(t)
  {
    var d := OnMessage(cfg, c, t);
    MessageAddsItsFragments(cfg, c, t);
    ActMovesFragments(d.core, if d.emit.Nothing? then Ticked(d.core, t.later) else d.emit, t, out);
    Associate(Output(out), c.buffer.pending, FragmentsIn(t));
  }

  /**
   Fragment conservation over every run: the payloads sent, the batches abandoned and the
   pending fragments, in order, are exactly the decoded input frames.
   */
  lemma {:induction false} FragmentsAreConserved(cfg: Config, run: nat, turns: seq<Turn>)
    ensures var m := Run(cfg, run, turns);
            Output(m.out) + m.core.buffer.pending == Input(turns)
  {
    if turns != [] {
      var n := |turns| - 1;
      FragmentsAreConserved(cfg, run, turns[..n]);
      var m := Run(cfg, run, turns[..n]);
      TurnMovesFragments(cfg, m.core, turns[n], m.out);
    }
  }

  /** When the thread has stopped, every decoded frame was sent or abandoned, in order. */
  lemma {:induction false} NothingStaysBehind(cfg: Config, run: nat, turns: seq<Turn>, lastGoes: bool)
    ensures var m := RunToStop(cfg, run, turns, lastGoes);
            Output(m.out) == Input(turns) && m.core.buffer.pending == []
  {
    FragmentsAreConserved(cfg, run, turns);
    var m := Run(cfg, run, turns);
    PendingMoves(m.core, lastGoes, m.out);
  }
}

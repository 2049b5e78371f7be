/**
 The sender thread of the receiver (src/receiver.rs): takes messages off the queue, closes
 batches by size or time, and puts each batch on both downstream links under that link's own
 sequence number. A send that fails still uses up its number, so the loss shows as a gap.
 */
module Sender {
  import opened Bytes
  import opened Drain
  import opened Messages

  /** What the sender puts on its links, in order; the links differ only in what got through. */
  datatype Emission = Batch(frames: seq<seq<byte>>) | Mark | Beat(counter: nat)

  datatype Ident = Ident(source: nat, run: nat)

  datatype Outcome = Sent | Failed | Stopped

  function BatchCount(es: seq<Emission>): nat {
    if es == [] then 0 else BatchCount(es[..|es| - 1]) + if es[|es| - 1].Batch? then 1 else 0
  }

  function ToMessage(id: Ident, e: Emission, seqNo: nat): RawMessage {
    match e
    case Batch(frames) => Data(id.source, id.run, seqNo, frames)
    case Mark => EndOfStream(id.source, id.run)
    case Beat(counter) => Heartbeat(id.source, id.run, counter)
  }

  /** The messages that got through on a link; `ok[i]` tells whether emission `i` did. */
  function Wire(id: Ident, es: seq<Emission>, ok: seq<bool>): seq<RawMessage>
    requires |ok| == |es|
  {
    if es == [] then []
    else
      var n := |es| - 1;
      Wire(id, es[..n], ok[..n])
      + if ok[n] then [ToMessage(id, es[n], BatchCount(es[..n]))] else []
  }

  // ---------------------------------------------------------------------
  // The loop body, by what the queue delivered
  // ---------------------------------------------------------------------

  /** Everything emitted, and which emissions got through on the first and the second link. */
  datatype Log = Log(emitted: seq<Emission>, ok0: seq<bool>, ok1: seq<bool>)

  datatype Loop = Loop(batch: seq<seq<byte>>, log: Log, eosSent: bool, beats: nat, alive: bool)

  const IDLE := Loop([], Log([], [], []), false, 0, true)

  /** The outcomes of one emission on the two links. */
  datatype Outcomes = Outcomes(first: Outcome, second: Outcome)

  function Logged(l: Log, e: Emission, oc: Outcomes): Log {
    Log(l.emitted + [e], l.ok0 + [oc.first.Sent?], l.ok1 + [oc.second.Sent?])
  }

  function Emit(s: Loop, e: Emission, oc: Outcomes): Loop {
    s.(log := Logged(s.log, e, oc), alive := s.alive && !oc.first.Stopped? && !oc.second.Stopped?)
  }

  function Flush(s: Loop, oc: Outcomes): Loop {
    if s.batch == [] then s else Emit(s.(batch := []), Batch(s.batch), oc)
  }

  function OnFrame(s: Loop, frame: seq<byte>, maxBytes: nat, oc: Outcomes): Loop {
    var t := s.(batch := s.batch + [frame]);
    if |Flat(t.batch)| >= maxBytes then Flush(t, oc) else t
  }

  function OnMark(s: Loop, oc: Outcomes, markOc: Outcomes): Loop {
    Emit(Flush(s, oc), Mark, markOc).(eosSent := true)
  }

  /** A receive timeout: the batch deadline first, then an idle heartbeat. */
  function OnTimeout(s: Loop, deadlinePassed: bool, beatDue: bool, oc: Outcomes): Loop {
    if s.batch != [] && deadlinePassed then Flush(s, oc)
    else if !s.eosSent && s.batch == [] && beatDue then
      Emit(s, Beat(s.beats), oc).(beats := s.beats + 1)
    else s
  }

  function OnDisconnect(s: Loop, oc: Outcomes): Loop {
    Flush(s, oc).(alive := false)
  }

  /** What one turn of the loop meets. */
  datatype Arrival =
    | FrameCame(frame: seq<byte>, oc: Outcomes)
    | MarkCame(oc: Outcomes, markOc: Outcomes)
    | WaitOver(deadlinePassed: bool, beatDue: bool, oc: Outcomes)
    | QueueGone(oc: Outcomes)
    | Abandoned

  /** One turn; a loop that has ended takes no more. */
  function OnArrival(s: Loop, a: Arrival, maxBytes: nat): Loop {
    if !s.alive then s
    else
      match a
      case FrameCame(frame, oc) => OnFrame(s, frame, maxBytes, oc)
      case MarkCame(oc, markOc) => OnMark(s, oc, markOc)
      case WaitOver(passed, beatDue, oc) => OnTimeout(s, passed, beatDue, oc)
      case QueueGone(oc) => OnDisconnect(s, oc)
      case Abandoned => s.(alive := false)
  }

  function LoopRun(arrivals: seq<Arrival>, maxBytes: nat): Loop {
    if arrivals == [] then IDLE
    else OnArrival(LoopRun(arrivals[..|arrivals| - 1], maxBytes), arrivals[|arrivals| - 1], maxBytes)
  }

  datatype Link = Link(seqNo: nat, wire: seq<RawMessage>)

  /** One message on one link; a batch advances its number whatever the outcome. */
  function PutOn(id: Ident, link: Link, e: Emission, sent: bool): Link {
    Link(link.seqNo + if e.Batch? then 1 else 0,
         link.wire + if sent then [ToMessage(id, e, link.seqNo)] else [])
  }

  function LinkAfter(id: Ident, es: seq<Emission>, ok: seq<bool>): Link
    requires |ok| == |es|
  {
    Link(BatchCount(es), Wire(id, es, ok))
  }

  lemma {:induction false} LinkSnoc(
      id: Ident, es: seq<Emission>, ok: seq<bool>, e: Emission, sent: bool)
    requires |ok| == |es|
    ensures LinkAfter(id, es + [e], ok + [sent]) == PutOn(id, LinkAfter(id, es, ok), e, sent)
  {
    assert (es + [e])[..|es|] == es && (ok + [sent])[..|ok|] == ok;
  }

  /** The sender as an object: buffers, counters and two links. */
  class Sender {
    const id: Ident
    const batchMaxBytes: nat
    var batch: seq<seq<byte>>
    var batchBytes: nat
    var deadlineSet: bool
    var first: Link
    var second: Link
    var eosSent: bool
    var heartbeats: nat
    var alive: bool
    ghost var log: Log

    ghost function State(): Loop
      reads this
    {
      Loop(batch, log, eosSent, heartbeats, alive)
    }

    ghost predicate Valid()
      reads this
    {
      && batchBytes == |Flat(batch)|
      && (deadlineSet <==> batch != [])
      && |log.ok0| == |log.ok1| == |log.emitted|
      && first == LinkAfter(id, log.emitted, log.ok0)
      && second == LinkAfter(id, log.emitted, log.ok1)
    }

    constructor (id: Ident, batchMaxBytes: nat)
      ensures Valid() && State() == IDLE
      ensures this.id == id && this.batchMaxBytes == batchMaxBytes
    {
      this.id := id;
      this.batchMaxBytes := batchMaxBytes;
      batch, batchBytes, deadlineSet := [], 0, false;
      first, second := Link(0, []), Link(0, []);
      eosSent, heartbeats, alive := false, 0, true;
      log := Log([], [], []);
    }

    /** Both links get the message; a batch advances both numbers whatever the outcomes. */
    method SendOnBoth(e: Emission, oc: Outcomes)
      requires Valid()
      modifies this`first, this`second, this`alive, this`log
      ensures Valid() && State() == Emit(old(State()), e, oc)
    {
      LinkSnoc(id, log.emitted, log.ok0, e, oc.first.Sent?);
      LinkSnoc(id, log.emitted, log.ok1, e, oc.second.Sent?);
      PutOnBoth(e, oc);
      log := Logged(log, e, oc);
    }

    method PutOnBoth(e: Emission, oc: Outcomes)
      modifies this`first, this`second, this`alive
      ensures first == PutOn(id, old(first), e, oc.first.Sent?)
      ensures second == PutOn(id, old(second), e, oc.second.Sent?)
      ensures alive == (old(alive) && !oc.first.Stopped? && !oc.second.Stopped?)
    {
      first := PutOn(id, first, e, oc.first.Sent?);
      second := PutOn(id, second, e, oc.second.Sent?);
      alive := alive && !oc.first.Stopped? && !oc.second.Stopped?;
    }

    method FlushBatch(oc: Outcomes)
      requires Valid()
      modifies this
      ensures Valid() && State() == Flush(old(State()), oc)
    {
      if batch == [] {
        return;
      }
      var e := Batch(batch);
      batch, batchBytes, deadlineSet := [], 0, false;
      SendOnBoth(e, oc);
    }

    method ReceiveFrame(frame: seq<byte>, oc: Outcomes)
      requires Valid()
      modifies this
      ensures Valid() && State() == OnFrame(old(State()), frame, batchMaxBytes, oc)
    {
      FlatSnoc(batch, frame);
      batchBytes := batchBytes + |frame|;
      batch := batch + [frame];
      deadlineSet := true;
      if batchBytes >= batchMaxBytes {
        FlushBatch(oc);
      }
    }

    method ReceiveMark(oc: Outcomes, markOc: Outcomes)
      requires Valid()
      modifies this
      ensures Valid() && State() == OnMark(old(State()), oc, markOc)
    {
      FlushBatch(oc);
      SendOnBoth(Mark, markOc);
      eosSent := true;
    }

    method TimedOut(deadlinePassed: bool, beatDue: bool, oc: Outcomes)
      requires Valid()
      modifies this
      ensures Valid() && State() == OnTimeout(old(State()), deadlinePassed, beatDue, oc)
    {
      if deadlineSet && deadlinePassed {
        FlushBatch(oc);
      } else if !eosSent && batch == [] && beatDue {
        SendOnBoth(Beat(heartbeats), oc);
        heartbeats := heartbeats + 1;
      }
    }

    method Disconnected(oc: Outcomes)
      requires Valid()
      modifies this
      ensures Valid() && State() == OnDisconnect(old(State()), oc)
    {
      FlushBatch(oc);
      alive := false;
    }

    method Handle(a: Arrival)
      requires Valid() && alive
      modifies this
      ensures Valid() && State() == OnArrival(old(State()), a, batchMaxBytes)
    {
      match a {
        case FrameCame(frame, oc) => ReceiveFrame(frame, oc);
        case MarkCame(oc, markOc) => ReceiveMark(oc, markOc);
        case WaitOver(passed, beatDue, oc) => TimedOut(passed, beatDue, oc);
        case QueueGone(oc) => Disconnected(oc);
        case Abandoned => alive := false;
      }
    }
  }

  /** The loop, from start to end: both links carry what the log says. */
  method Drive(id: Ident, batchMaxBytes: nat, arrivals: seq<Arrival>) returns (first: Link, second: Link)
    ensures var l := LoopRun(arrivals, batchMaxBytes).log;
            && |l.ok0| == |l.ok1| == |l.emitted|
            && first == LinkAfter(id, l.emitted, l.ok0) && second == LinkAfter(id, l.emitted, l.ok1)
  {
    var s := new Sender(id, batchMaxBytes);
    var i := 0;
    while i < |arrivals| && s.alive
      invariant 0 <= i <= |arrivals| && s.Valid() && fresh(s)
      invariant s.id == id && s.batchMaxBytes == batchMaxBytes
      invariant s.State() == LoopRun(arrivals[..i], batchMaxBytes)
    {
      assert arrivals[..i + 1][..i] == arrivals[..i];
      s.Handle(arrivals[i]);
      i := i + 1;
    }
    EndedTakesNoMore(arrivals, i, batchMaxBytes);
    first, second := s.first, s.second;
  }

  lemma {:induction false} EndedTakesNoMore(arrivals: seq<Arrival>, i: nat, maxBytes: nat)
    requires i <= |arrivals| && (i < |arrivals| ==> !LoopRun(arrivals[..i], maxBytes).alive)
    ensures LoopRun(arrivals, maxBytes) == LoopRun(arrivals[..i], maxBytes)
    decreases |arrivals|
  {
    if i == |arrivals| {
      assert arrivals[..i] == arrivals;
    } else {
      var n := |arrivals| - 1;
      assert arrivals[..n][..i] == arrivals[..i];
      EndedTakesNoMore(arrivals[..n], i, maxBytes);
    }
  }

  // ---------------------------------------------------------------------
  // Nothing is lost, reordered or mixed on the way to the links
  // ---------------------------------------------------------------------

  /** The queue messages that an emission accounts for. */
  function UnbatchOne(e: Emission): seq<FrameMsg> {
    match e
    case Batch(frames) => FrameMsgs(frames)
    case Mark => [Eos]
    case Beat(_) => []
  }

  function Unbatch(es: seq<Emission>): seq<FrameMsg> {
    if es == [] then [] else Unbatch(es[..|es| - 1]) + UnbatchOne(es[|es| - 1])
  }

  lemma {:induction false} UnbatchSnoc(es: seq<Emission>, e: Emission)
    ensures Unbatch(es + [e]) == Unbatch(es) + UnbatchOne(e)
  {
    assert (es + [e])[..|es|] == es;
  }

  /** Everything taken from the queue is emitted or still in the open batch, in order. */
  function Held(s: Loop): seq<FrameMsg> {
    Unbatch(s.log.emitted) + FrameMsgs(s.batch)
  }

  lemma {:induction false} FlushHolds(s: Loop, oc: Outcomes)
    ensures Held(Flush(s, oc)) == Held(s)
  {
    if s.batch != [] {
      UnbatchSnoc(s.log.emitted, Batch(s.batch));
      assert FrameMsgs([]) == [];
    }
  }

  lemma {:induction false} FrameIsHeld(s: Loop, frame: seq<byte>, maxBytes: nat, oc: Outcomes)
    ensures Held(OnFrame(s, frame, maxBytes, oc)) == Held(s) + [Frame(frame)]
  {
    var t := s.(batch := s.batch + [frame]);
    FrameMsgsConcat(s.batch, [frame]);
    assert FrameMsgs([frame]) == [Frame(frame)];
    assert Held(t) == Held(s) + [Frame(frame)];
    FlushHolds(t, oc);
  }

  lemma {:induction false} MarkIsHeld(s: Loop, oc: Outcomes, markOc: Outcomes)
    ensures Held(OnMark(s, oc, markOc)) == Held(s) + [Eos]
  {
    FlushHolds(s, oc);
    var t := Flush(s, oc);
    UnbatchSnoc(t.log.emitted, Mark);
    assert t.batch == [] && FrameMsgs([]) == [];
    assert Held(t) == Unbatch(t.log.emitted);
  }

  lemma {:induction false} TimeoutHolds(s: Loop, deadlinePassed: bool, beatDue: bool, oc: Outcomes)
    ensures Held(OnTimeout(s, deadlinePassed, beatDue, oc)) == Held(s)
  {
    if s.batch != [] && deadlinePassed {
      FlushHolds(s, oc);
    } else {
      UnbatchSnoc(s.log.emitted, Beat(s.beats));
    }
  }

  /** Batch sizes: never empty, and below the limit without their last frame. */
  ghost predicate Sized(frames: seq<seq<byte>>, maxBytes: nat) {
    && frames != []
    && (|frames| == 1 || |Flat(frames[..|frames| - 1])| < maxBytes)
  }

  ghost predicate SizesOk(s: Loop, maxBytes: nat) {
    && (s.batch != [] ==> |Flat(s.batch)| < maxBytes)
    && forall i :: 0 <= i < |s.log.emitted| && s.log.emitted[i].Batch? ==>
                     Sized(s.log.emitted[i].frames, maxBytes)
  }

  lemma {:induction false} BelowLimitIsSized(frames: seq<seq<byte>>, maxBytes: nat)
    requires frames != [] && |Flat(frames)| < maxBytes
    ensures Sized(frames, maxBytes)
  {
    var n := |frames| - 1;
    assert frames == frames[..n] + [frames[n]];
    FlatSnoc(frames[..n], frames[n]);
  }

  lemma FlushKeepsSizes(s: Loop, maxBytes: nat, oc: Outcomes)
    requires s.batch != [] ==> Sized(s.batch, maxBytes)
    requires SizesOk(s.(batch := []), maxBytes)
    ensures SizesOk(Flush(s, oc), maxBytes)
  {
  }

  lemma {:induction false} FrameKeepsSizes(s: Loop, frame: seq<byte>, maxBytes: nat, oc: Outcomes)
    requires SizesOk(s, maxBytes)
    ensures SizesOk(OnFrame(s, frame, maxBytes, oc), maxBytes)
  {
    var t := s.(batch := s.batch + [frame]);
    assert t.batch[..|s.batch|] == s.batch;
    assert Sized(t.batch, maxBytes);
    FlushKeepsSizes(t, maxBytes, oc);
  }

  /** Every step of the loop keeps the size bounds. */
  lemma {:induction false} StepsKeepSizes(
      s: Loop, frame: seq<byte>, maxBytes: nat, passed: bool, beatDue: bool, oc: Outcomes,
      markOc: Outcomes)
    requires SizesOk(s, maxBytes)
    ensures SizesOk(OnFrame(s, frame, maxBytes, oc), maxBytes)
    ensures SizesOk(OnMark(s, oc, markOc), maxBytes)
    ensures SizesOk(OnTimeout(s, passed, beatDue, oc), maxBytes)
    ensures SizesOk(OnDisconnect(s, oc), maxBytes)
  {
    if s.batch != [] {
      BelowLimitIsSized(s.batch, maxBytes);
    }
    FlushKeepsSizes(s, maxBytes, oc);
    FrameKeepsSizes(s, frame, maxBytes, oc);
  }
}

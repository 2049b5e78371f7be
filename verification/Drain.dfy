/**
 The drain task of the receiver (src/receiver.rs): it accepts data links one after the other,
 cuts frames out of each, and hands frames and end-of-stream marks to the queue. `Declared`
 says what it must hand over, looking only at the connections that carried data.
 */
module Drain {
  import opened Bytes
  import F = Framer

  datatype FrameMsg = Frame(bytes: seq<byte>) | Eos

  /** What can happen to the drain; a stop ends the history. */
  datatype Event =
    | Accept
    | AcceptFailed
    | Read(chunk: seq<byte>)
    | Eof
    | ReadError
    | ExtraRejected
    | ExtraAcceptFailed

  // ---------------------------------------------------------------------
  // Feeding one connection to its framer
  // ---------------------------------------------------------------------

  datatype Feed = Feed(pending: seq<byte>, frames: seq<seq<byte>>, resets: nat)

  const EMPTY_FEED := Feed([], [], 0)

  /** Push a chunk and take frames until the framer returns none. */
  function FeedChunk(f: Feed, chunk: seq<byte>): Feed {
    var c := F.Cut(f.pending + chunk, F.DEFAULT_MAX_FRAME_BYTES);
    Feed(if c.corrupt then [] else c.rest, f.frames + c.frames,
         f.resets + if c.corrupt then 1 else 0)
  }

  function FeedAll(chunks: seq<seq<byte>>): Feed {
    if chunks == [] then EMPTY_FEED
    else FeedChunk(FeedAll(chunks[..|chunks| - 1]), chunks[|chunks| - 1])
  }

  /** A connection without a corrupt header yields exactly the frames of its byte stream. */
  lemma {:induction false} FeedIsCut(chunks: seq<seq<byte>>)
    ensures var f := FeedAll(chunks);
            var c := F.Cut(Flat(chunks), F.DEFAULT_MAX_FRAME_BYTES);
            && (f.resets == 0 <==> !c.corrupt)
            && (!c.corrupt ==> f == Feed(c.rest, c.frames, 0))
            && (c.corrupt ==> c.frames <= f.frames)
  {
    if chunks != [] {
      var before, chunk := chunks[..|chunks| - 1], chunks[|chunks| - 1];
      FeedIsCut(before);
      assert chunks == before + [chunk];
      FlatSnoc(before, chunk);
      F.CutExtends(Flat(before), chunk, F.DEFAULT_MAX_FRAME_BYTES);
    }
  }

  // ---------------------------------------------------------------------
  // The drain, one event at a time
  // ---------------------------------------------------------------------

  datatype Task = Task(conn: Option<Conn>, owesEos: bool)

  datatype Conn = Conn(bytes: nat, feed: Feed)

  const START := Task(None, true)

  datatype Result = Result(task: Task, out: seq<FrameMsg>)

  function FrameMsgs(frames: seq<seq<byte>>): seq<FrameMsg> {
    seq(|frames|, i requires 0 <= i < |frames| => Frame(frames[i]))
  }

  /** One event. Only data raises the debt of an end of stream; only a data link pays it. */
  function OnEvent(t: Task, e: Event): Result {
    match e
    case Accept =>
      Result(if t.conn.None? then t.(conn := Some(Conn(0, EMPTY_FEED))) else t, [])
    case Read(chunk) =>
      if t.conn.None? || chunk == [] then Result(t, [])
      else
        var link := t.conn.value;
        var feed := FeedChunk(link.feed, chunk);
        Result(Task(Some(Conn(link.bytes + |chunk|, feed)),
                    if link.bytes == 0 then true else t.owesEos),
               FrameMsgs(feed.frames[|link.feed.frames|..]))
    case Eof => Close(t)
    case ReadError => Close(t)
    case AcceptFailed => Result(t, [])
    case ExtraRejected => Result(t, [])
    case ExtraAcceptFailed => Result(t, [])
  }

  function Close(t: Task): Result {
    if t.conn.None? then Result(t, [])
    else if t.conn.value.bytes == 0 then Result(t.(conn := None), [])
    else Result(Task(None, false), [Eos])
  }

  function OnStop(t: Task): seq<FrameMsg> {
    if t.owesEos then [Eos] else []
  }

  function Run(events: seq<Event>): Result {
    if events == [] then Result(START, [])
    else
      var before := Run(events[..|events| - 1]);
      var r := OnEvent(before.task, events[|events| - 1]);
      Result(r.task, before.out + r.out)
  }

  /** Everything handed over from start to stop. */
  function Handed(events: seq<Event>): seq<FrameMsg> {
    Run(events).out + OnStop(Run(events).task)
  }

  /** The drain as an object around a real framer. */
  class DrainTask {
    var connected: bool
    var connBytes: nat
    var owesEos: bool
    var framer: F.Framer
    ghost var frames: seq<seq<byte>>

    ghost predicate Valid()
      reads this, framer
    {
      framer.Valid() && framer.maxFrameBytes == F.DEFAULT_MAX_FRAME_BYTES
    }

    ghost function State(): Task
      requires Valid()
      reads this, framer
    {
      Task(if connected then Some(Conn(connBytes, Fed())) else None, owesEos)
    }

    constructor ()
      ensures Valid() && State() == START && fresh(framer)
    {
      connected, connBytes, owesEos, frames := false, 0, true, [];
      framer := new F.Framer(F.DEFAULT_MAX_FRAME_BYTES);
    }

    method Accepted()
      requires Valid()
      modifies this
      ensures Valid() && State() == OnEvent(old(State()), Accept).task
      ensures framer == old(framer) || fresh(framer)
    {
      if !connected {
        connected, connBytes, frames := true, 0, [];
        framer := new F.Framer(F.DEFAULT_MAX_FRAME_BYTES);
      }
    }

    /** The read arm: push the chunk, then take frames until the framer returns none. */
    method OnRead(chunk: seq<byte>) returns (out: seq<FrameMsg>)
      requires Valid() && connected && chunk != []
      modifies this`connBytes, this`owesEos, this`frames, framer
      ensures Valid() && framer == old(framer)
      ensures Result(State(), out) == OnEvent(old(State()), Read(chunk))
    {
      if connBytes == 0 {
        owesEos := true;
      }
      connBytes := connBytes + |chunk|;
      var taken := FeedFramer(chunk);
      out := FrameMsgs(taken);
    }

    /** The connection so far, as its framer stands. */
    ghost function Fed(): Feed
      requires Valid()
      reads this, framer
    {
      Feed(framer.Pending(), frames, framer.resetCount)
    }

    method FeedFramer(chunk: seq<byte>) returns (taken: seq<seq<byte>>)
      requires Valid()
      modifies this`frames, framer
      ensures Valid() && Fed() == FeedChunk(old(Fed()), chunk)
      ensures taken == frames[|old(frames)|..]
    {
      framer.Push(chunk);
      taken := TakeFrames();
      frames := frames + taken;
    }

    method TakeFrames() returns (taken: seq<seq<byte>>)
      requires Valid()
      modifies framer
      ensures Valid()
      ensures var c := F.Cut(old(framer.Pending()), F.DEFAULT_MAX_FRAME_BYTES);
              && taken == c.frames
              && framer.Pending() == (if c.corrupt then [] else c.rest)
              && framer.resetCount == old(framer.resetCount) + if c.corrupt then 1 else 0
    {
      ghost var c := F.Cut(framer.Pending(), F.DEFAULT_MAX_FRAME_BYTES);
      taken := [];
      assert [] + c.frames == c.frames;
      while true
        invariant Valid() && framer.resetCount == old(framer.resetCount)
        invariant c == F.Prepend(taken, F.Cut(framer.Pending(), F.DEFAULT_MAX_FRAME_BYTES))
        decreases |framer.Pending()|
      {
        ghost var before := framer.Pending();
        var next := framer.Next();
        if next.None? {
          assert taken + [] == taken;
          return;
        }
        assert before[|next.value|..] == framer.Pending();
        F.PrependTwice(taken, [next.value], F.Cut(framer.Pending(), F.DEFAULT_MAX_FRAME_BYTES));
        taken := taken + [next.value];
      }
    }

    /** The end-of-file and read-error arms. */
    method OnClose() returns (out: seq<FrameMsg>)
      requires Valid() && connected
      modifies this
      ensures Valid() && framer == old(framer)
      ensures Result(State(), out) == Close(old(State()))
    {
      out := [];
      if connBytes != 0 {
        out := [Eos];
        owesEos := false;
      }
      connected := false;
    }

    /** One event of the task's life. */
    method Handle(e: Event) returns (out: seq<FrameMsg>)
      requires Valid()
      modifies this, framer
      ensures Valid() && (framer == old(framer) || fresh(framer))
      ensures Result(State(), out) == OnEvent(old(State()), e)
    {
      out := [];
      match e {
        case Accept => Accepted();
        case Read(chunk) =>
          if connected && chunk != [] {
            out := OnRead(chunk);
          }
        case Eof =>
          if connected {
            out := OnClose();
          }
        case ReadError =>
          if connected {
            out := OnClose();
          }
        case AcceptFailed =>
        case ExtraRejected =>
        case ExtraAcceptFailed =>
      }
    }
  }

  /** The task from its start to its stop. */
  method Drive(events: seq<Event>) returns (out: seq<FrameMsg>)
    ensures out == Handed(events)
  {
    var task := new DrainTask();
    out := [];
    for i := 0 to |events|
      invariant task.Valid() && fresh(task) && fresh(task.framer)
      invariant Result(task.State(), out) == Run(events[..i])
    {
      assert events[..i + 1][..i] == events[..i];
      var more := task.Handle(events[i]);
      out := out + more;
    }
    assert events[..|events|] == events;
    if task.owesEos {
      out := out + [Eos];
    }
  }

  // ---------------------------------------------------------------------
  // Owed end of stream
  // ---------------------------------------------------------------------

  /** The data-carrying connections: the closed ones, and the one that is still up. */
  datatype Carried = Carried(closed: seq<seq<seq<byte>>>, open: Option<seq<seq<byte>>>)

  function CarriedBy(events: seq<Event>): Carried {
    if events == [] then Carried([], None)
    else Carry(CarriedBy(events[..|events| - 1]), events[|events| - 1])
  }

  function Carry(c: Carried, e: Event): Carried {
    match e
    case Accept => if c.open.None? then c.(open := Some([])) else c
    case Read(chunk) =>
      if c.open.None? || chunk == [] then c else c.(open := Some(c.open.value + [chunk]))
    case Eof => Closed(c)
    case ReadError => Closed(c)
    case AcceptFailed => c
    case ExtraRejected => c
    case ExtraAcceptFailed => c
  }

  function Closed(c: Carried): Carried {
    if c.open.None? then c
    else if c.open.value == [] then c.(open := None)
    else Carried(c.closed + [c.open.value], None)
  }

  /** Frames and one mark per closed data connection, in order. */
  function MarkedStreams(conns: seq<seq<seq<byte>>>): seq<FrameMsg> {
    if conns == [] then []
    else
      MarkedStreams(conns[..|conns| - 1]) + FrameMsgs(FeedAll(conns[|conns| - 1]).frames) + [Eos]
  }

  function OpenFrames(c: Carried): seq<FrameMsg> {
    if c.open.None? then [] else FrameMsgs(FeedAll(c.open.value).frames)
  }

  predicate Owed(c: Carried) {
    c.closed == [] || (c.open.Some? && c.open.value != [])
  }

  function Declared(c: Carried): seq<FrameMsg> {
    MarkedStreams(c.closed) + OpenFrames(c) + if Owed(c) then [Eos] else []
  }

  ghost predicate Tracks(r: Result, c: Carried) {
    && r.task.owesEos == Owed(c)
    && r.out == MarkedStreams(c.closed) + OpenFrames(c)
    && (r.task.conn.Some? <==> c.open.Some?)
    && (c.open.Some? ==>
          && r.task.conn.value.feed == FeedAll(c.open.value)
          && (r.task.conn.value.bytes == 0 <==> c.open.value == []))
  }

  lemma FrameMsgsConcat(a: seq<seq<byte>>, b: seq<seq<byte>>)
    ensures FrameMsgs(a + b) == FrameMsgs(a) + FrameMsgs(b)
  {
  }

  lemma {:induction false} FeedAllSnoc(chunks: seq<seq<byte>>, chunk: seq<byte>)
    ensures FeedAll(chunks + [chunk]) == FeedChunk(FeedAll(chunks), chunk)
  {
    assert (chunks + [chunk])[..|chunks|] == chunks;
  }

  /** A chunk only adds frames. */
  lemma {:induction false} FeedAddsFrames(f: Feed, chunk: seq<byte>)
    ensures var grown := FeedChunk(f, chunk).frames;
            FrameMsgs(grown) == FrameMsgs(f.frames) + FrameMsgs(grown[|f.frames|..])
  {
    var grown := FeedChunk(f, chunk).frames;
    assert grown == f.frames + grown[|f.frames|..];
    FrameMsgsConcat(f.frames, grown[|f.frames|..]);
  }

  /** The output after a chunk, given the output before it. */
  lemma {:induction false} ReadOutput(
      closed: seq<FrameMsg>, f: Feed, chunk: seq<byte>, out: seq<FrameMsg>)
    requires out == closed + FrameMsgs(f.frames)
    ensures var grown := FeedChunk(f, chunk).frames;
            out + FrameMsgs(grown[|f.frames|..]) == closed + FrameMsgs(grown)
  {
    FeedAddsFrames(f, chunk);
    Associate(closed, FrameMsgs(f.frames), FrameMsgs(FeedChunk(f, chunk).frames[|f.frames|..]));
  }

  lemma {:induction false} ReadTracks(r: Result, c: Carried, chunk: seq<byte>)
    requires Tracks(r, c) && c.open.Some? && chunk != []
    ensures var s := OnEvent(r.task, Read(chunk));
            Tracks(Result(s.task, r.out + s.out), c.(open := Some(c.open.value + [chunk])))
  {
    FeedAllSnoc(c.open.value, chunk);
    ReadOutput(MarkedStreams(c.closed), r.task.conn.value.feed, chunk, r.out);
  }

  lemma {:induction false} CloseTracks(r: Result, c: Carried)
    requires Tracks(r, c)
    ensures var s := Close(r.task);
            Tracks(Result(s.task, r.out + s.out), Closed(c))
  {
    var out := r.out;
    assert out + [] == out;
    if c.open.Some? && c.open.value != [] {
      MarkedStreamsSnoc(c.closed, c.open.value);
      var d := Closed(c);
      assert OpenFrames(d) == [];
      assert MarkedStreams(d.closed) + [] == out + [Eos];
    }
  }

  lemma {:induction false} MarkedStreamsSnoc(conns: seq<seq<seq<byte>>>, conn: seq<seq<byte>>)
    ensures MarkedStreams(conns + [conn])
            == MarkedStreams(conns) + FrameMsgs(FeedAll(conn).frames) + [Eos]
  {
    assert (conns + [conn])[..|conns|] == conns;
  }

  lemma {:induction false} StepTracks(r: Result, c: Carried, e: Event)
    requires Tracks(r, c)
    ensures var s := OnEvent(r.task, e);
            Tracks(Result(s.task, r.out + s.out), Carry(c, e))
  {
    assert r.out + [] == r.out;
    match e {
      case Accept =>
        assert FrameMsgs([]) == [];
      case Read(chunk) =>
        if c.open.Some? && chunk != [] {
          ReadTracks(r, c, chunk);
        }
      case Eof => CloseTracks(r, c);
      case ReadError => CloseTracks(r, c);
      case AcceptFailed =>
      case ExtraRejected =>
      case ExtraAcceptFailed =>
    }
  }

  lemma {:induction false} RunTracks(events: seq<Event>)
    ensures Tracks(Run(events), CarriedBy(events))
  {
    if events != [] {
      var n := |events| - 1;
      RunTracks(events[..n]);
      StepTracks(Run(events[..n]), CarriedBy(events[..n]), events[n]);
    }
  }

  /**
   The owed end of stream. What the drain hands over depends on the data-carrying connections
   alone, so connections without a byte and rejected ones leave no trace: the frames of each,
   a mark behind each closed one, and a forced mark at stop iff one is owed. The last message
   is always a mark.
   */
  lemma {:induction false} HandedIsDeclared(events: seq<Event>)
    ensures Handed(events) == Declared(CarriedBy(events))
    ensures Handed(events) != [] && Handed(events)[|Handed(events)| - 1] == Eos
  {
    RunTracks(events);
    var c := CarriedBy(events);
    if !Owed(c) {
      assert OpenFrames(c) == [];
      assert MarkedStreams(c.closed) + [] == MarkedStreams(c.closed);
    }
  }

  function Marks(ms: seq<FrameMsg>): nat {
    if ms == [] then 0 else Marks(ms[..|ms| - 1]) + if ms[|ms| - 1].Eos? then 1 else 0
  }

  lemma {:induction false} MarksConcat(a: seq<FrameMsg>, b: seq<FrameMsg>)
    ensures Marks(a + b) == Marks(a) + Marks(b)
  {
    if b == [] {
      assert a + b == a;
    } else {
      assert (a + b)[..|a + b| - 1] == a + b[..|b| - 1];
      MarksConcat(a, b[..|b| - 1]);
    }
  }

  lemma {:induction false} FramesHaveNoMarks(frames: seq<seq<byte>>)
    ensures Marks(FrameMsgs(frames)) == 0
  {
    if frames != [] {
      var n := |frames| - 1;
      FramesHaveNoMarks(frames[..n]);
      assert FrameMsgs(frames)[..n] == FrameMsgs(frames[..n]);
    }
  }

  lemma {:induction false} OneMarkPerStream(conns: seq<seq<seq<byte>>>)
    ensures Marks(MarkedStreams(conns)) == |conns|
  {
    if conns != [] {
      var n := |conns| - 1;
      OneMarkPerStream(conns[..n]);
      var frames := FeedAll(conns[n]).frames;
      FramesHaveNoMarks(frames);
      MarksConcat(MarkedStreams(conns[..n]), FrameMsgs(frames));
      MarksConcat(MarkedStreams(conns[..n]) + FrameMsgs(frames), [Eos]);
      assert Marks([Eos]) == 1 by {
        assert [Eos][..0] == [];
      }
    }
  }

  /** End-of-stream marks: one per closed data connection, plus one iff owed at stop. */
  lemma {:induction false} MarkCount(events: seq<Event>)
    ensures var c := CarriedBy(events);
            Marks(Handed(events)) == |c.closed| + if Owed(c) then 1 else 0
  {
    HandedIsDeclared(events);
    var c := CarriedBy(events);
    OneMarkPerStream(c.closed);
    if c.open.Some? {
      FramesHaveNoMarks(FeedAll(c.open.value).frames);
    }
    MarksConcat(MarkedStreams(c.closed), OpenFrames(c));
    var tail := if Owed(c) then [Eos] else [];
    MarksConcat(MarkedStreams(c.closed) + OpenFrames(c), tail);
    assert Marks([Eos]) == 1 by {
      assert [Eos][..0] == [];
    }
  }

  // ---------------------------------------------------------------------
  // Connections without data leave no trace
  // ---------------------------------------------------------------------

  function RunFrom(r: Result, events: seq<Event>): Result {
    if events == [] then r
    else
      var before := RunFrom(r, events[..|events| - 1]);
      var step := OnEvent(before.task, events[|events| - 1]);
      Result(step.task, before.out + step.out)
  }

  lemma {:induction false} RunInTwo(a: seq<Event>, b: seq<Event>)
    ensures Run(a + b) == RunFrom(Run(a), b)
  {
    if b == [] {
      assert a + b == a;
    } else {
      var n := |b| - 1;
      assert (a + b)[..|a + b| - 1] == a + b[..n];
      RunInTwo(a, b[..n]);
    }
  }

  /** Events that change nothing: failed accepts, and connections rejected beside the current one. */
  predicate Noise(e: Event) {
    e.AcceptFailed? || e.ExtraRejected? || e.ExtraAcceptFailed?
  }

  lemma {:induction false} NoiseChangesNothing(r: Result, events: seq<Event>)
    requires forall i :: 0 <= i < |events| ==> Noise(events[i])
    ensures RunFrom(r, events) == r
  {
    if events != [] {
      NoiseChangesNothing(r, events[..|events| - 1]);
      assert r.out + [] == r.out;
    }
  }

  /** Deleting failed accepts and rejected connections leaves what is handed over unchanged. */
  lemma {:induction false} NoiseLeavesNoTrace(a: seq<Event>, noise: seq<Event>, b: seq<Event>)
    requires forall i :: 0 <= i < |noise| ==> Noise(noise[i])
    ensures Handed((a + noise) + b) == Handed(a + b)
  {
    NoiseChangesNothing(Run(a), noise);
    RunInTwo(a, noise);
    RunInTwo(a + noise, b);
    RunInTwo(a, b);
  }

  /** A link that is accepted while none is up and closes without having carried a byte. */
  predicate EmptyConnection(events: seq<Event>) {
    && |events| >= 2 && events[0].Accept?
    && (events[|events| - 1].Eof? || events[|events| - 1].ReadError?)
    && forall i :: 1 <= i < |events| - 1 ==> Noise(events[i])
  }

  lemma {:induction false} EmptyConnectionChangesNothing(r: Result, events: seq<Event>)
    requires r.task.conn.None? && EmptyConnection(events)
    ensures RunFrom(r, events) == r
  {
    var n := |events| - 1;
    var up := Result(r.task.(conn := Some(Conn(0, EMPTY_FEED))), r.out);
    assert r.out + [] == r.out;
    RunFromSnoc(r, [], Accept);
    assert [] + [Accept] == [Accept];
    NoiseChangesNothing(up, events[1..n]);
    assert events[..n] == [Accept] + events[1..n];
    RunFromInTwo(r, [Accept], events[1..n]);
  }

  lemma {:induction false} RunFromSnoc(r: Result, events: seq<Event>, e: Event)
    ensures var before := RunFrom(r, events);
            var step := OnEvent(before.task, e);
            RunFrom(r, events + [e]) == Result(step.task, before.out + step.out)
  {
    assert (events + [e])[..|events|] == events;
  }

  lemma {:induction false} RunFromInTwo(r: Result, a: seq<Event>, b: seq<Event>)
    ensures RunFrom(r, a + b) == RunFrom(RunFrom(r, a), b)
  {
    if b == [] {
      assert a + b == a;
    } else {
      var n := |b| - 1;
      assert (a + b)[..|a + b| - 1] == a + b[..n];
      RunFromInTwo(r, a, b[..n]);
    }
  }

  /** Deleting a connection without data leaves what is handed over unchanged. */
  lemma {:induction false} EmptyConnectionLeavesNoTrace(a: seq<Event>, conn: seq<Event>, b: seq<Event>)
    requires Run(a).task.conn.None? && EmptyConnection(conn)
    ensures Handed((a + conn) + b) == Handed(a + b)
  {
    EmptyConnectionChangesNothing(Run(a), conn);
    RunInTwo(a, conn);
    RunInTwo(a + conn, b);
    RunInTwo(a, b);
  }
}

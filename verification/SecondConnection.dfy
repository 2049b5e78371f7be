/**
 Why the split on disk is stated for one data connection: a schedule in which nothing is dropped
 and every send succeeds, and yet a frame of the second connection of a source never reaches its
 files, because the writer was done at the first end of stream.
 */
module SecondConnection {
  import opened Bytes
  import opened Drain
  import opened Messages
  import opened Sender
  import opened Paths
  import opened GrawWriter
  import opened RunWriter
  import opened WriterLaws
  import opened Pipeline
  import opened Lossless

  const BOTH_SENT := Outcomes(Sent, Sent)

  // ---------------------------------------------------------------------
  // One connection with one frame goes through a source
  // ---------------------------------------------------------------------

  /** Nothing on its way, and no link up. */
  ghost predicate Idle(n: Node) {
    && Run(n.events).task.conn.None? && !n.stopped && n.outbox == [] && n.queue == []
    && n.sender.batch == [] && n.sender.alive
  }


  function FrameOnly(s: nat, frame: seq<byte>): seq<Step> {
    [DrainEvent(s, Accept), DrainEvent(s, Read(frame)), Offer(s), TakeFrame(s, BOTH_SENT)]
  }

  function MarkOnly(s: nat): seq<Step> {
    [DrainEvent(s, Eof), Offer(s), TakeMark(s, BOTH_SENT, BOTH_SENT)]
  }

  function ConnectionSteps(s: nat, frame: seq<byte>): seq<Step> {
    FrameOnly(s, frame) + MarkOnly(s)
  }

  function AfterFrame(n: Node, frame: seq<byte>): Node {
    n.(events := n.events + [Accept] + [Read(frame)], accepted := n.accepted + [Frame(frame)],
       sender := n.sender.(log := Logged(n.sender.log, Batch([frame]), BOTH_SENT)))
  }

  function AfterMark(n: Node): Node {
    n.(events := n.events + [Eof], accepted := n.accepted + [Eos],
       sender := n.sender.(log := Logged(n.sender.log, Mark, BOTH_SENT), eosSent := true))
  }

  function NodeRun(p: Params, n: Node, steps: seq<Step>): Node
    decreases |steps|
  {
    if steps == [] then n else NodeRun(p, NodeStep(p, n, steps[0]), steps[1..])
  }

  ghost predicate WholeFrame(p: Params, frame: seq<byte>) {
    F.HeadOf(frame, F.DEFAULT_MAX_FRAME_BYTES) == F.Complete(frame) && |frame| >= p.batchMaxBytes
  }

  lemma {:induction false} ReadOfAFrame(frame: seq<byte>, owes: bool)
    requires F.HeadOf(frame, F.DEFAULT_MAX_FRAME_BYTES) == F.Complete(frame)
    ensures var r := OnEvent(Task(Some(Conn(0, EMPTY_FEED)), owes), Read(frame));
            && r.out == [Frame(frame)] && r.task == Task(Some(Conn(|frame|, Feed([], [frame], 0))), true)
    ensures FeedChunk(EMPTY_FEED, frame) == Feed([], [frame], 0)
  {
    assert [] + frame == frame && frame[|frame|..] == [];
    assert F.Cut(frame, F.DEFAULT_MAX_FRAME_BYTES) == F.Cutting([frame], [], false);
    assert [] + [frame] == [frame] && [frame][0..] == [frame];
  }

  lemma {:induction false} FeedOfAFrame(frame: seq<byte>)
    requires F.HeadOf(frame, F.DEFAULT_MAX_FRAME_BYTES) == F.Complete(frame)
    ensures FeedAll([frame]).frames == [frame]
  {
    ReadOfAFrame(frame, true);
    FeedAllSnoc([], frame);
    assert [] + [frame] == [frame];
  }

  lemma {:induction false} AcceptStep(p: Params, s: nat, n: Node) returns (m: Node)
    requires Idle(n)
    ensures m == NodeStep(p, n, DrainEvent(s, Accept)) == n.(events := n.events + [Accept])
    ensures Run(m.events).task == Task(Some(Conn(0, EMPTY_FEED)), Run(n.events).task.owesEos)
  {
    m := n.(events := n.events + [Accept]);
    ProducedGrows(n.events, Accept);
  }

  lemma {:induction false} ReadStep(p: Params, s: nat, a: Node, frame: seq<byte>, owes: bool)
    requires !a.stopped && a.outbox == [] && Run(a.events).task == Task(Some(Conn(0, EMPTY_FEED)), owes)
    requires F.HeadOf(frame, F.DEFAULT_MAX_FRAME_BYTES) == F.Complete(frame)
    ensures NodeStep(p, a, DrainEvent(s, Read(frame)))
            == a.(events := a.events + [Read(frame)], outbox := [Frame(frame)])
    ensures Run(a.events + [Read(frame)]).task == Task(Some(Conn(|frame|, Feed([], [frame], 0))), true)
  {
    ReadOfAFrame(frame, owes);
    ProducedGrows(a.events, Read(frame));
  }

  lemma {:induction false} OfferStep(p: Params, s: nat, b: Node, m: FrameMsg)
    requires b.outbox == [m] && b.queue == [] && b.sender.alive && p.capacity > 0
    ensures NodeStep(p, b, Offer(s)) == b.(outbox := [], queue := [m], accepted := b.accepted + [m])
  {
    assert [m][1..] == [] && [] + [m] == [m];
  }

  lemma {:induction false} TakeStep(p: Params, s: nat, c: Node, frame: seq<byte>)
    requires c.queue == [Frame(frame)] && c.sender.batch == [] && c.sender.alive
    requires |frame| >= p.batchMaxBytes
    ensures NodeStep(p, c, TakeFrame(s, BOTH_SENT))
            == c.(queue := [], sender := c.sender.(log := Logged(c.sender.log, Batch([frame]), BOTH_SENT)))
  {
    FlatOne(frame);
    assert [] + [frame] == [frame] && [Frame(frame)][1..] == [];
  }

  lemma {:induction false} FrameSteps(p: Params, s: nat, n: Node, frame: seq<byte>)
    requires Idle(n) && p.capacity > 0 && WholeFrame(p, frame)
    ensures NodeRun(p, n, FrameOnly(s, frame)) == AfterFrame(n, frame)
    ensures Run(AfterFrame(n, frame).events).task == Task(Some(Conn(|frame|, Feed([], [frame], 0))), true)
  {
    var a := AcceptStep(p, s, n);
    ReadStep(p, s, a, frame, Run(n.events).task.owesEos);
    var b := a.(events := a.events + [Read(frame)], outbox := [Frame(frame)]);
    OfferStep(p, s, b, Frame(frame));
    var c := b.(outbox := [], queue := [Frame(frame)], accepted := n.accepted + [Frame(frame)]);
    TakeStep(p, s, c, frame);
    assert c.(queue := [], sender := AfterFrame(n, frame).sender) == AfterFrame(n, frame);
    FourSteps(p, n, FrameOnly(s, frame), a, b, c, AfterFrame(n, frame));
  }

  lemma {:induction false} FourSteps(
      p: Params, n: Node, steps: seq<Step>, a: Node, b: Node, c: Node, d: Node)
    requires |steps| == 4 && a == NodeStep(p, n, steps[0]) && b == NodeStep(p, a, steps[1])
    requires c == NodeStep(p, b, steps[2]) && d == NodeStep(p, c, steps[3])
    ensures NodeRun(p, n, steps) == d
  {
    NodeRunInTwo(p, n, [steps[0]], steps[1..]);
    assert steps == [steps[0]] + steps[1..] && [steps[0]][1..] == [];
    ThreeSteps(p, a, steps[1..], b, c, d);
  }

  lemma {:induction false} ThreeSteps(p: Params, n: Node, steps: seq<Step>, a: Node, b: Node, c: Node)
    requires |steps| == 3 && a == NodeStep(p, n, steps[0]) && b == NodeStep(p, a, steps[1])
    requires c == NodeStep(p, b, steps[2])
    ensures NodeRun(p, n, steps) == c
  {
    var more := steps[1..];
    assert more[1..] == [steps[2]] && [steps[2]][1..] == [];
    assert NodeRun(p, b, [steps[2]]) == NodeRun(p, c, []);
    assert NodeRun(p, a, more) == NodeRun(p, b, more[1..]);
  }

  lemma {:induction false} MarkSteps(p: Params, s: nat, n: Node)
    requires p.capacity > 0 && !n.stopped && n.outbox == [] && n.queue == []
    requires n.sender.batch == [] && n.sender.alive
    requires Run(n.events).task.conn.Some? && Run(n.events).task.conn.value.bytes > 0
    ensures NodeRun(p, n, MarkOnly(s)) == AfterMark(n) && Idle(AfterMark(n))
  {
    ProducedGrows(n.events, Eof);
    var a := NodeStep(p, n, DrainEvent(s, Eof));
    assert a == n.(events := n.events + [Eof], outbox := [Eos]);
    var b := NodeStep(p, a, Offer(s));
    assert b == a.(outbox := [], queue := [Eos], accepted := n.accepted + [Eos]);
    var c := NodeStep(p, b, TakeMark(s, BOTH_SENT, BOTH_SENT));
    assert [Eos][1..] == [];
    assert c == AfterMark(n);
    ThreeSteps(p, n, MarkOnly(s), a, b, c);
  }

  lemma {:induction false} NodeRunInTwo(p: Params, n: Node, a: seq<Step>, b: seq<Step>)
    ensures NodeRun(p, n, a + b) == NodeRun(p, NodeRun(p, n, a), b)
    decreases |a|
  {
    if a == [] {
      assert a + b == b;
    } else {
      assert (a + b)[1..] == a[1..] + b;
      NodeRunInTwo(p, NodeStep(p, n, a[0]), a[1..], b);
    }
  }

  /** The whole connection: its frame and its mark are on both links, and the source is idle again. */
  function AfterConnection(n: Node, frame: seq<byte>): Node {
    AfterMark(AfterFrame(n, frame))
  }

  lemma {:induction false} ConnectionGoesThrough(p: Params, s: nat, n: Node, frame: seq<byte>)
    requires Idle(n) && p.capacity > 0 && WholeFrame(p, frame)
    ensures NodeRun(p, n, ConnectionSteps(s, frame)) == AfterConnection(n, frame)
    ensures Idle(AfterConnection(n, frame))
  {
    FrameSteps(p, s, n, frame);
    MarkSteps(p, s, AfterFrame(n, frame));
    NodeRunInTwo(p, n, FrameOnly(s, frame), MarkOnly(s));
  }

  lemma {:induction false} ConnectionIsCarried(events: seq<Event>, frame: seq<byte>)
    requires frame != [] && CarriedBy(events).open.None?
    ensures var c := CarriedBy(events);
            CarriedBy(events + [Accept] + [Read(frame)] + [Eof]) == Carried(c.closed + [[frame]], None)
  {
    CarriedSnoc(events, Accept);
    CarriedSnoc(events + [Accept], Read(frame));
    CarriedSnoc(events + [Accept] + [Read(frame)], Eof);
    assert [] + [frame] == [frame];
  }

  lemma {:induction false} CarriedSnoc(events: seq<Event>, e: Event)
    ensures CarriedBy(events + [e]) == Carry(CarriedBy(events), e)
  {
    assert (events + [e])[..|events|] == events;
  }

  // ---------------------------------------------------------------------
  // The steps of one source in the system
  // ---------------------------------------------------------------------

  function ApplyAll(p: Params, y: System, steps: seq<Step>): System
    decreases |steps|
  {
    if steps == [] then y else ApplyAll(p, Apply(p, y, steps[0]), steps[1..])
  }

  lemma {:induction false} AfterInTwo(p: Params, sources: set<nat>, a: seq<Step>, b: seq<Step>)
    ensures After(p, sources, a + b) == ApplyAll(p, After(p, sources, a), b)
    decreases |b|
  {
    if b == [] {
      assert a + b == a;
    } else {
      assert a + b == (a + [b[0]]) + b[1..];
      AfterInTwo(p, sources, a + [b[0]], b[1..]);
      assert (a + [b[0]])[..|a|] == a;
    }
  }

  predicate NodeSteps(steps: seq<Step>, s: nat) {
    forall i :: 0 <= i < |steps| ==> steps[i].source == s && !steps[i].WriterTake? && !steps[i].DecoderTake?
  }

  lemma {:induction false} StepsOfOneSource(p: Params, y: System, steps: seq<Step>, s: nat)
    requires s in y.nodes && NodeSteps(steps, s)
    ensures ApplyAll(p, y, steps) == y.(nodes := y.nodes[s := NodeRun(p, y.nodes[s], steps)])
    decreases |steps|
  {
    if steps == [] {
      assert y.nodes[s := y.nodes[s]] == y.nodes;
    } else {
      var z := Apply(p, y, steps[0]);
      StepsOfOneSource(p, z, steps[1..], s);
      assert z.nodes[s := NodeRun(p, z.nodes[s], steps[1..])]
          == y.nodes[s := NodeRun(p, z.nodes[s], steps[1..])];
    }
  }

  // ---------------------------------------------------------------------
  // What is on the links then
  // ---------------------------------------------------------------------

  /** A connection of a source, as a step of the whole system. */
  function Connected(y: System, s: nat, frame: seq<byte>): System
    requires s in y.nodes
  {
    y.(nodes := y.nodes[s := AfterConnection(y.nodes[s], frame)])
  }

  lemma OnlyNodeSteps(s: nat, frame: seq<byte>)
    ensures NodeSteps(ConnectionSteps(s, frame), s)
  {
  }

  lemma {:induction false} ConnectionInSystem(p: Params, s: nat, y: System, frame: seq<byte>)
    requires s in y.nodes && Idle(y.nodes[s]) && p.capacity > 0 && WholeFrame(p, frame)
    ensures ApplyAll(p, y, ConnectionSteps(s, frame)) == Connected(y, s, frame)
    ensures Idle(Connected(y, s, frame).nodes[s])
  {
    ConnectionGoesThrough(p, s, y.nodes[s], frame);
    OnlyNodeSteps(s, frame);
    StepsOfOneSource(p, y, ConnectionSteps(s, frame), s);
  }

  /** A connection adds its batch, under the next number, and its mark. */
  lemma {:induction false} LinkOfConnection(id: Ident, es: seq<Emission>, ok: seq<bool>, frame: seq<byte>)
    requires |ok| == |es|
    ensures Wire(id, es + [Batch([frame])] + [Mark], ok + [true] + [true])
            == Wire(id, es, ok)
               + [Data(id.source, id.run, BatchCount(es), [frame]), EndOfStream(id.source, id.run)]
    ensures BatchCount(es + [Batch([frame])] + [Mark]) == BatchCount(es) + 1
  {
    LinkSnoc(id, es, ok, Batch([frame]), true);
    LinkSnoc(id, es + [Batch([frame])], ok + [true], Mark, true);
    Associate(Wire(id, es, ok), [Data(id.source, id.run, BatchCount(es), [frame])],
              [EndOfStream(id.source, id.run)]);
  }

  function TwoConnections(f: seq<byte>, g: seq<byte>): Node {
    AfterConnection(AfterConnection(FRESH_NODE, f), g)
  }

  /** Both links carry both connections, completely. */
  function BothOnTheLink(id: Ident, f: seq<byte>, g: seq<byte>): seq<RawMessage> {
    [Data(id.source, id.run, 0, [f]), EndOfStream(id.source, id.run)]
    + [Data(id.source, id.run, 1, [g]), EndOfStream(id.source, id.run)]
  }

  lemma {:induction false} LinksOfTwo(id: Ident, f: seq<byte>, g: seq<byte>)
    ensures var l := TwoConnections(f, g).sender.log;
            && |l.ok0| == |l.ok1| == |l.emitted|
            && Wire(id, l.emitted, l.ok0) == BothOnTheLink(id, f, g)
            && Wire(id, l.emitted, l.ok1) == BothOnTheLink(id, f, g)
  {
    var one, sent := [] + [Batch([f])] + [Mark], [] + [true] + [true];
    LinkOfConnection(id, [], [], f);
    LinkOfConnection(id, one, sent, g);
  }

  lemma {:induction false} NothingWasLost(f: seq<byte>, g: seq<byte>)
    ensures var n := TwoConnections(f, g);
            && NoLoss(n, n.sender.log.ok0) && NoLoss(n, n.sender.log.ok1)
            && n.outbox == [] && n.queue == [] && n.sender.batch == []
  {
  }

  lemma {:induction false} TwoFrames(f: seq<byte>, g: seq<byte>)
    requires F.HeadOf(f, F.DEFAULT_MAX_FRAME_BYTES) == F.Complete(f)
    requires F.HeadOf(g, F.DEFAULT_MAX_FRAME_BYTES) == F.Complete(g)
    ensures FramesIn([[f]] + [[g]]) == [f, g]
  {
    FeedOfAFrame(f);
    FeedOfAFrame(g);
    FramesInOne([f]);
    FramesInSnoc([[f]], [g]);
  }

  lemma {:induction false} TwoStreams(f: seq<byte>, g: seq<byte>)
    requires f != [] && g != []
    ensures Streams(TwoConnections(f, g)) == [[f]] + [[g]]
  {
    var one: seq<Event> := ([] + [Accept] + [Read(f)]) + [Eof];
    ConnectionIsCarried([], f);
    ConnectionIsCarried(one, g);
    assert [] + [[f]] == [[f]];
  }

  // ---------------------------------------------------------------------
  // The schedule
  // ---------------------------------------------------------------------

  function BothConnections(f: seq<byte>, g: seq<byte>): seq<Step> {
    ConnectionSteps(0, f) + ConnectionSteps(0, g)
  }

  lemma {:induction false} AfterBoth(p: Params, f: seq<byte>, g: seq<byte>)
    requires p.capacity > 0 && WholeFrame(p, f) && WholeFrame(p, g)
    ensures var y := After(p, {0}, BothConnections(f, g));
            && 0 in y.nodes && y.nodes[0] == TwoConnections(f, g)
            && y.received == [] && y.intake == FRESH_INTAKE && y.feed == []
  {
    assert Idle(FRESH_NODE);
    var start := Start({0});
    ConnectionInSystem(p, 0, start, f);
    AfterInTwo(p, {0}, [], ConnectionSteps(0, f));
    assert [] + ConnectionSteps(0, f) == ConnectionSteps(0, f);
    ConnectionInSystem(p, 0, Connected(start, 0, f), g);
    AfterInTwo(p, {0}, ConnectionSteps(0, f), ConnectionSteps(0, g));
  }

  const WRITER_TAKES_TWO: seq<Step> := [WriterTake(0), WriterTake(0)]

  /** Both connections, and then the writer takes the batch and the mark of the first one. */
  function Schedule(f: seq<byte>, g: seq<byte>): seq<Step> {
    BothConnections(f, g) + WRITER_TAKES_TWO
  }

  lemma {:induction false} FirstTake(p: Params, y: System, link: seq<RawMessage>, f: seq<byte>)
    requires 0 in y.nodes && y.nodes[0].written == 0 && y.received == [] && y.intake == FRESH_INTAKE
    requires |y.nodes[0].sender.log.ok0| == |y.nodes[0].sender.log.emitted|
    requires link == Wire(Ident(0, p.run), y.nodes[0].sender.log.emitted, y.nodes[0].sender.log.ok0)
    requires |link| >= 2 && link[0] == Data(0, p.run, 0, [f])
    ensures var z := WriterTakes(p, y, 0);
            && z.nodes == y.nodes[0 := y.nodes[0].(written := 1)]
            && !z.intake.done && z.intake.eos == {} && z.intake.ledger.writes == [Write(KeyOf(0, f), f)]
  {
    assert [] + BatchWrites(0, [f]) == [Write(KeyOf(0, f), f)];
  }

  lemma {:induction false} SecondTake(p: Params, z: System, link: seq<RawMessage>)
    requires p.expected == {0} && 0 in z.nodes && z.nodes[0].written == 1 && !z.intake.done
    requires |z.nodes[0].sender.log.ok0| == |z.nodes[0].sender.log.emitted|
    requires link == Wire(Ident(0, p.run), z.nodes[0].sender.log.emitted, z.nodes[0].sender.log.ok0)
    requires |link| >= 2 && link[1] == EndOfStream(0, p.run)
    ensures var w := WriterTakes(p, z, 0);
            && w.nodes == z.nodes[0 := z.nodes[0].(written := 2)]
            && w.intake.done && w.intake.ledger.writes == z.intake.ledger.writes
  {
  }

  /** The writer takes the batch and the mark of the first connection, and is done. */
  lemma {:induction false} WriterIsDone(p: Params, y: System, f: seq<byte>, g: seq<byte>)
    requires p.expected == {0} && 0 in y.nodes && y.received == [] && y.intake == FRESH_INTAKE
    requires y.nodes[0] == TwoConnections(f, g)
    ensures var z := ApplyAll(p, y, WRITER_TAKES_TWO);
            && 0 in z.nodes && z.nodes[0] == TwoConnections(f, g).(written := 2)
            && z.intake.done && z.intake.ledger.writes == [Write(KeyOf(0, f), f)]
  {
    var id := Ident(0, p.run);
    LinksOfTwo(id, f, g);
    var link := BothOnTheLink(id, f, g);
    FirstTake(p, y, link, f);
    SecondTake(p, WriterTakes(p, y, 0), link);
    TwoApplied(p, y, WriterTake(0), WriterTake(0));
  }

  lemma {:induction false} TwoApplied(p: Params, y: System, a: Step, b: Step)
    ensures ApplyAll(p, y, [a, b]) == Apply(p, Apply(p, y, a), b)
  {
    var z := Apply(p, y, a);
    assert [a, b][1..] == [b] && [b][1..] == [];
    assert ApplyAll(p, z, [b]) == ApplyAll(p, Apply(p, z, b), []);
  }

  /** The source has delivered everything to its links, and the writer has closed the run. */
  ghost predicate AllOnTheLinks(y: System) {
    && 0 in y.nodes && y.intake.done
    && NoLoss(y.nodes[0], y.nodes[0].sender.log.ok0)
    && y.nodes[0].outbox == [] && y.nodes[0].queue == [] && y.nodes[0].sender.batch == []
  }

  /**
   Two connections with one control frame each, both on the link before the writer takes anything.
   The writer is done, nothing was dropped, no send failed; both frames belong to the one chain of
   control frames; the second is not written, and never will be, whatever comes after.
   */
  lemma {:induction false} SecondFrameIsMissed(p: Params, f: seq<byte>, g: seq<byte>, more: seq<Step>)
    requires p.expected == {0} && p.capacity > 0 && WholeFrame(p, f) && WholeFrame(p, g)
    requires |f| < 28 && |g| < 28
    ensures var y := After(p, {0}, Schedule(f, g));
            && AllOnTheLinks(y)
            && RouteFrames(0, FramesIn(Streams(y.nodes[0])), Ctrl(0)) == [f, g]
    ensures Routed(After(p, {0}, Schedule(f, g) + more).intake.ledger.writes, Ctrl(0)) == [f]
  {
    AfterBoth(p, f, g);
    WriterIsDone(p, After(p, {0}, BothConnections(f, g)), f, g);
    AfterInTwo(p, {0}, BothConnections(f, g), WRITER_TAKES_TWO);
    NothingWasLost(f, g);
    TwoStreams(f, g);
    TwoFrames(f, g);
    RouteTwo(f, g);
    AfterInTwo(p, {0}, Schedule(f, g), more);
    DoneForGood(p, After(p, {0}, Schedule(f, g)), more);
    RouteOne(f);
  }

  lemma {:induction false} RouteOne(f: seq<byte>)
    requires |f| < 28
    ensures Routed([Write(KeyOf(0, f), f)], Ctrl(0)) == [f]
  {
    RoutedSnoc([], Write(Ctrl(0), f), Ctrl(0));
    assert [] + [Write(Ctrl(0), f)] == [Write(Ctrl(0), f)] && [] + [f] == [f];
  }

  lemma {:induction false} EightBytes(last: byte)
    ensures var frame: seq<byte> := [0, 0, 0, 8, 0, 0, 0, last];
            F.HeadOf(frame, F.DEFAULT_MAX_FRAME_BYTES) == F.Complete(frame)
  {
    var frame: seq<byte> := [0, 0, 0, 8, 0, 0, 0, last];
    assert frame[..8] == frame && frame[1..4] == [0, 0, 8];
    assert [0, 0, 8][..2] == [0, 0] && [0, 0][..1] == [0] && [0][..0] == [];
    assert UintBig([0, 0]) == 0;
  }

  /** A concrete instance: two frames of eight bytes, a queue of one, batches of one frame. */
  lemma {:induction false} SecondConnectionIsMissed(more: seq<Step>)
    ensures var p, f, g := Params(0, {0}, 1, 1), [0, 0, 0, 8, 0, 0, 0, 0], [0, 0, 0, 8, 0, 0, 0, 1];
            var y := After(p, {0}, Schedule(f, g));
            && AllOnTheLinks(y)
            && RouteFrames(0, FramesIn(Streams(y.nodes[0])), Ctrl(0)) == [f, g]
            && Routed(After(p, {0}, Schedule(f, g) + more).intake.ledger.writes, Ctrl(0)) == [f]
  {
    EightBytes(0);
    EightBytes(1);
    SecondFrameIsMissed(Params(0, {0}, 1, 1), [0, 0, 0, 8, 0, 0, 0, 0], [0, 0, 0, 8, 0, 0, 0, 1], more);
  }

  lemma {:induction false} RouteTwo(f: seq<byte>, g: seq<byte>)
    requires |f| < 28 && |g| < 28
    ensures RouteFrames(0, [f, g], Ctrl(0)) == [f, g]
  {
    assert [f, g][..1] == [f] && [f][..0] == [];
    assert RouteFrames(0, [f], Ctrl(0)) == [f];
  }

  lemma {:induction false} DoneForGood(p: Params, y: System, steps: seq<Step>)
    requires y.intake.done
    ensures ApplyAll(p, y, steps).intake == y.intake
    decreases |steps|
  {
    if steps != [] {
      DoneStaysDone(p, y, steps[0]);
      DoneForGood(p, Apply(p, y, steps[0]), steps[1..]);
    }
  }
}

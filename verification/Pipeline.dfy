/**
 The data path as one system: for every source a drain task, a bounded queue, a sender and two
 links; and one writer and one decoder that take messages off all first and all second links. A
 schedule is any list of steps of any of them; a step that is not possible where it stands does
 nothing. Of the decoder only its intake is here; what it makes of it is in `DecoderLoop`.
 */
module Pipeline {
  import opened Bytes
  import opened Drain
  import opened Messages
  import opened Sender
  import opened Links
  import opened RunWriter

  datatype Params = Params(run: nat, expected: set<nat>, capacity: nat, batchMaxBytes: nat)

  /**
   One source, with the history of its drain task, the log of its queue, and how many messages
   the writer and the decoder have taken off its links.
   */
  datatype Node = Node(
    events: seq<Event>, stopped: bool, outbox: seq<FrameMsg>, queue: seq<FrameMsg>,
    accepted: seq<FrameMsg>, overflow: nat, eosLost: nat, sender: Loop, written: nat, decoded: nat)

  const FRESH_NODE := Node([], false, [], [], [], 0, 0, IDLE, 0, 0)

  /** `received` and `feed` are the messages that the writer and the decoder have taken. */
  datatype System = System(
    nodes: map<nat, Node>, received: seq<RawMessage>, intake: Intake, feed: seq<RawMessage>)

  datatype Step =
    | DrainEvent(source: nat, event: Event)
    | DrainStop(source: nat)
    | Offer(source: nat)
    | TakeFrame(source: nat, oc: Outcomes)
    | TakeMark(source: nat, oc: Outcomes, markOc: Outcomes)
    | Timeout(source: nat, passed: bool, beatDue: bool, oc: Outcomes)
    | Disconnect(source: nat, oc: Outcomes)
    | Abandon(source: nat)
    | WriterTake(source: nat)
    | DecoderTake(source: nat)

  /** Everything the drain task has handed over so far. */
  function Produced(n: Node): seq<FrameMsg> {
    if n.stopped then Handed(n.events) else Run(n.events).out
  }

  /**
   The steps of one source. The drain task works off its outbox before it reads on. A frame
   that finds the queue full, or the sender gone, is dropped and counted; an end-of-stream
   mark waits for room and is lost only when the sender is gone.
   */
  function NodeStep(p: Params, n: Node, step: Step): Node {
    match step
    case DrainEvent(_, event) =>
      if n.stopped || n.outbox != [] then n
      else n.(events := n.events + [event], outbox := OnEvent(Run(n.events).task, event).out)
    case DrainStop(_) =>
      if n.stopped || n.outbox != [] then n
      else n.(stopped := true, outbox := OnStop(Run(n.events).task))
    case Offer(_) => if n.outbox == [] then n else OfferOne(p, n)
    case TakeFrame(_, oc) =>
      if !n.sender.alive || n.queue == [] || n.queue[0].Eos? then n
      else n.(queue := n.queue[1..],
              sender := OnFrame(n.sender, n.queue[0].bytes, p.batchMaxBytes, oc))
    case TakeMark(_, oc, markOc) =>
      if !n.sender.alive || n.queue == [] || n.queue[0].Frame? then n
      else n.(queue := n.queue[1..], sender := OnMark(n.sender, oc, markOc))
    case Timeout(_, passed, beatDue, oc) =>
      if !n.sender.alive then n else n.(sender := OnTimeout(n.sender, passed, beatDue, oc))
    case Disconnect(_, oc) =>
      if !n.sender.alive || !n.stopped || n.outbox != [] || n.queue != [] then n
      else n.(sender := OnDisconnect(n.sender, oc))
    case Abandon(_) => n.(sender := n.sender.(alive := false))
    case WriterTake(_) => n
    case DecoderTake(_) => n
  }

  function OfferOne(p: Params, n: Node): Node
    requires n.outbox != []
  {
    var m := n.outbox[0];
    if n.sender.alive && |n.queue| < p.capacity then
      n.(outbox := n.outbox[1..], queue := n.queue + [m], accepted := n.accepted + [m])
    else if m.Frame? then n.(outbox := n.outbox[1..], overflow := n.overflow + 1)
    else if !n.sender.alive then n.(outbox := n.outbox[1..], eosLost := n.eosLost + 1)
    else n
  }

  function WriterTakes(p: Params, y: System, source: nat): System
    requires source in y.nodes
  {
    var n := y.nodes[source];
    var l := n.sender.log;
    if |l.ok0| != |l.emitted| || y.intake.done then y
    else
      var link := Wire(Ident(source, p.run), l.emitted, l.ok0);
      if n.written >= |link| then y
      else
        y.(nodes := y.nodes[source := n.(written := n.written + 1)],
           received := y.received + [link[n.written]],
           intake := Receive(y.intake, p.expected, p.run, link[n.written]))
  }

  function DecoderTakes(p: Params, y: System, source: nat): System
    requires source in y.nodes
  {
    var n := y.nodes[source];
    var l := n.sender.log;
    if |l.ok1| != |l.emitted| then y
    else
      var link := Wire(Ident(source, p.run), l.emitted, l.ok1);
      if n.decoded >= |link| then y
      else
        y.(nodes := y.nodes[source := n.(decoded := n.decoded + 1)],
           feed := y.feed + [link[n.decoded]])
  }

  function Apply(p: Params, y: System, step: Step): System {
    if step.source !in y.nodes then y
    else if step.WriterTake? then WriterTakes(p, y, step.source)
    else if step.DecoderTake? then DecoderTakes(p, y, step.source)
    else y.(nodes := y.nodes[step.source := NodeStep(p, y.nodes[step.source], step)])
  }

  function Start(sources: set<nat>): System {
    System(map s | s in sources :: FRESH_NODE, [], FRESH_INTAKE, [])
  }

  /** The system after a schedule. */
  function After(p: Params, sources: set<nat>, steps: seq<Step>): System {
    if steps == [] then Start(sources)
    else Apply(p, After(p, sources, steps[..|steps| - 1]), steps[|steps| - 1])
  }

  // ---------------------------------------------------------------------
  // What every step of a source keeps
  // ---------------------------------------------------------------------

  /** The messages handed over that have left the outbox. */
  function Offered(n: Node): seq<FrameMsg>
    requires |n.outbox| <= |Produced(n)|
  {
    Produced(n)[..|Produced(n)| - |n.outbox|]
  }

  ghost predicate OutboxOk(n: Node) {
    |n.outbox| <= |Produced(n)| && Produced(n) == Offered(n) + n.outbox
  }

  /**
   The queue log is what was offered, minus exactly the counted losses. A mark is lost only when
   the sender is gone, so without an overflow the log is a prefix of what was offered.
   */
  ghost predicate Accounted(accepted: seq<FrameMsg>, offered: seq<FrameMsg>, overflow: nat,
                            eosLost: nat, alive: bool)
  {
    && Subsequence(accepted, offered)
    && |offered| == |accepted| + overflow + eosLost
    && Marks(offered) == Marks(accepted) + eosLost
    && (eosLost > 0 ==> !alive)
    && (overflow == 0 ==> accepted <= offered)
  }

  ghost predicate LogOk(n: Node)
    requires OutboxOk(n)
  {
    Accounted(n.accepted, Offered(n), n.overflow, n.eosLost, n.sender.alive)
  }

  ghost predicate NodeInv(p: Params, n: Node) {
    && OutboxOk(n) && LogOk(n)
    && Held(n.sender) + n.queue == n.accepted
    && SizesOk(n.sender, p.batchMaxBytes)
  }

  lemma {:induction false} ProducedGrows(events: seq<Event>, event: Event)
    ensures Run(events + [event]).out == Run(events).out + OnEvent(Run(events).task, event).out
    ensures Run(events + [event]).task == OnEvent(Run(events).task, event).task
  {
    assert (events + [event])[..|events|] == events;
  }

  lemma {:induction false} DrainKeepsInv(p: Params, n: Node, step: Step)
    requires NodeInv(p, n) && (step.DrainEvent? || step.DrainStop?)
    ensures NodeInv(p, NodeStep(p, n, step))
  {
    var m := NodeStep(p, n, step);
    if !n.stopped && n.outbox == [] {
      assert Offered(n) == Produced(n);
      if step.DrainEvent? {
        ProducedGrows(n.events, step.event);
      }
      assert Produced(m) == Produced(n) + m.outbox;
      assert Offered(m) == Produced(n);
    }
  }

  lemma {:induction false} OfferKeepsInv(p: Params, n: Node)
    requires NodeInv(p, n) && n.outbox != []
    ensures NodeInv(p, OfferOne(p, n))
  {
    var r := OfferOne(p, n);
    if r != n {
      var m := n.outbox[0];
      OfferMovesOne(n, r);
      OfferIsAccounted(n.accepted, Offered(n), n.overflow, n.eosLost, n.sender.alive, m);
      Associate(Held(n.sender), n.queue, [m]);
    }
  }

  /** While the sender lives no mark was lost, so the log so far is all that was offered. */
  lemma {:induction false} OfferIsAccounted(
      accepted: seq<FrameMsg>, offered: seq<FrameMsg>, overflow: nat, eosLost: nat, alive: bool,
      m: FrameMsg)
    requires Accounted(accepted, offered, overflow, eosLost, alive)
    ensures alive ==> Accounted(accepted + [m], offered + [m], overflow, eosLost, alive)
    ensures m.Frame? ==> Accounted(accepted, offered + [m], overflow + 1, eosLost, alive)
    ensures m.Eos? && !alive ==> Accounted(accepted, offered + [m], overflow, eosLost + 1, alive)
  {
    LogGrows(accepted, offered, m);
  }

  lemma {:induction false} LogGrows(accepted: seq<FrameMsg>, offered: seq<FrameMsg>, m: FrameMsg)
    requires Subsequence(accepted, offered)
    ensures Subsequence(accepted, offered + [m]) && Subsequence(accepted + [m], offered + [m])
    ensures Marks(offered + [m]) == Marks(offered) + if m.Eos? then 1 else 0
    ensures Marks(accepted + [m]) == Marks(accepted) + if m.Eos? then 1 else 0
  {
    SubsequenceSnoc(accepted, offered, m);
    MarksSnoc(offered, m);
    MarksSnoc(accepted, m);
  }

  lemma {:induction false} OfferMovesOne(n: Node, r: Node)
    requires OutboxOk(n) && n.outbox != [] && r.outbox == n.outbox[1..]
    requires r.events == n.events && r.stopped == n.stopped
    ensures OutboxOk(r) && Offered(r) == Offered(n) + [n.outbox[0]]
  {
    assert Produced(r) == Produced(n);
    assert n.outbox == [n.outbox[0]] + r.outbox;
    Associate(Offered(n), [n.outbox[0]], r.outbox);
  }

  lemma {:induction false} MarksSnoc(ms: seq<FrameMsg>, m: FrameMsg)
    ensures Marks(ms + [m]) == Marks(ms) + if m.Eos? then 1 else 0
  {
    assert (ms + [m])[..|ms|] == ms;
  }

  predicate IsSenderStep(step: Step) {
    step.TakeFrame? || step.TakeMark? || step.Timeout? || step.Disconnect? || step.Abandon?
  }

  lemma {:induction false} TakenFrameIsHeld(p: Params, n: Node, oc: Outcomes)
    requires n.queue != [] && n.queue[0].Frame?
    ensures Held(OnFrame(n.sender, n.queue[0].bytes, p.batchMaxBytes, oc)) + n.queue[1..]
            == Held(n.sender) + n.queue
  {
    FrameIsHeld(n.sender, n.queue[0].bytes, p.batchMaxBytes, oc);
    QueueHead(Held(n.sender), n.queue);
  }

  lemma {:induction false} TakenMarkIsHeld(n: Node, oc: Outcomes, markOc: Outcomes)
    requires n.queue != [] && n.queue[0].Eos?
    ensures Held(OnMark(n.sender, oc, markOc)) + n.queue[1..] == Held(n.sender) + n.queue
  {
    MarkIsHeld(n.sender, oc, markOc);
    QueueHead(Held(n.sender), n.queue);
  }

  lemma {:induction false} QueueHead(held: seq<FrameMsg>, queue: seq<FrameMsg>)
    requires queue != []
    ensures (held + [queue[0]]) + queue[1..] == held + queue
  {
    assert queue == [queue[0]] + queue[1..];
  }

  /** A sender step moves messages from the queue into the sender and loses none. */
  lemma {:induction false} SenderHolds(p: Params, n: Node, step: Step)
    requires IsSenderStep(step)
    ensures var r := NodeStep(p, n, step);
            Held(r.sender) + r.queue == Held(n.sender) + n.queue
  {
    match step {
      case TakeFrame(_, oc) =>
        if n.queue != [] && n.queue[0].Frame? {
          TakenFrameIsHeld(p, n, oc);
        }
      case TakeMark(_, oc, markOc) =>
        if n.queue != [] && n.queue[0].Eos? {
          TakenMarkIsHeld(n, oc, markOc);
        }
      case Timeout(_, passed, beatDue, oc) => TimeoutHolds(n.sender, passed, beatDue, oc);
      case Disconnect(_, oc) => FlushHolds(n.sender, oc);
      case Abandon(_) =>
    }
  }

  lemma {:induction false} SenderKeepsSizes(p: Params, n: Node, step: Step)
    requires IsSenderStep(step) && SizesOk(n.sender, p.batchMaxBytes)
    ensures SizesOk(NodeStep(p, n, step).sender, p.batchMaxBytes)
  {
    var s, max := n.sender, p.batchMaxBytes;
    match step {
      case TakeFrame(_, oc) =>
        if n.queue != [] && n.queue[0].Frame? {
          FrameKeepsSizes(s, n.queue[0].bytes, max, oc);
        }
      case TakeMark(_, oc, markOc) => StepsKeepSizes(s, [], max, false, false, oc, markOc);
      case Timeout(_, passed, beatDue, oc) => StepsKeepSizes(s, [], max, passed, beatDue, oc, oc);
      case Disconnect(_, oc) => StepsKeepSizes(s, [], max, false, false, oc, oc);
      case Abandon(_) =>
    }
  }

  lemma {:induction false} SenderKeepsInv(p: Params, n: Node, step: Step)
    requires NodeInv(p, n) && IsSenderStep(step)
    ensures NodeInv(p, NodeStep(p, n, step))
  {
    SenderHolds(p, n, step);
    SenderKeepsSizes(p, n, step);
    DrainSideUnchanged(n, NodeStep(p, n, step));
  }

  /** The drain side of a source does not depend on the queue, and only on whether the sender lives. */
  lemma {:induction false} DrainSideUnchanged(n: Node, r: Node)
    requires OutboxOk(n) && LogOk(n)
    requires r.events == n.events && r.stopped == n.stopped && r.outbox == n.outbox
    requires r.accepted == n.accepted && r.overflow == n.overflow && r.eosLost == n.eosLost
    requires r.sender.alive ==> n.sender.alive
    ensures OutboxOk(r) && LogOk(r)
  {
    assert Produced(r) == Produced(n);
  }

  lemma {:induction false} NodeStepKeepsInv(p: Params, n: Node, step: Step)
    requires NodeInv(p, n)
    ensures NodeInv(p, NodeStep(p, n, step))
  {
    match step {
      case DrainEvent(_, _) => DrainKeepsInv(p, n, step);
      case DrainStop(_) => DrainKeepsInv(p, n, step);
      case Offer(_) =>
        if n.outbox != [] {
          OfferKeepsInv(p, n);
        }
      case WriterTake(_) =>
      case DecoderTake(_) =>
      case TakeFrame(_, _) => SenderKeepsInv(p, n, step);
      case TakeMark(_, _, _) => SenderKeepsInv(p, n, step);
      case Timeout(_, _, _, _) => SenderKeepsInv(p, n, step);
      case Disconnect(_, _) => SenderKeepsInv(p, n, step);
      case Abandon(_) => SenderKeepsInv(p, n, step);
    }
  }

  // ---------------------------------------------------------------------
  // Links are FIFO: what was on a link stays there
  // ---------------------------------------------------------------------

  /** How far the two readers are, and what they have received from all sources. */
  datatype Readers = Readers(
    written: nat, decoded: nat, received: seq<RawMessage>, feed: seq<RawMessage>)

  ghost predicate BothFollow(id: Ident, l: Log, r: Readers) {
    && Follows(id, l.emitted, l.ok0, r.written, r.received)
    && Follows(id, l.emitted, l.ok1, r.decoded, r.feed)
  }

  lemma {:induction false} EmitFollows(id: Ident, s: Loop, e: Emission, oc: Outcomes, r: Readers)
    requires BothFollow(id, s.log, r)
    ensures BothFollow(id, Emit(s, e, oc).log, r)
  {
    EmissionFollows(id, s.log.emitted, s.log.ok0, r.written, r.received, e, oc.first.Sent?);
    EmissionFollows(id, s.log.emitted, s.log.ok1, r.decoded, r.feed, e, oc.second.Sent?);
  }

  lemma {:induction false} FlushFollows(id: Ident, s: Loop, oc: Outcomes, r: Readers)
    requires BothFollow(id, s.log, r)
    ensures BothFollow(id, Flush(s, oc).log, r)
  {
    if s.batch != [] {
      EmitFollows(id, s.(batch := []), Batch(s.batch), oc, r);
    }
  }

  lemma {:induction false} MarkFollows(id: Ident, s: Loop, oc: Outcomes, markOc: Outcomes, r: Readers)
    requires BothFollow(id, s.log, r)
    ensures BothFollow(id, OnMark(s, oc, markOc).log, r)
  {
    FlushFollows(id, s, oc, r);
    EmitFollows(id, Flush(s, oc), Mark, markOc, r);
  }

  lemma {:induction false} TimeoutFollows(
      id: Ident, s: Loop, passed: bool, beatDue: bool, oc: Outcomes, r: Readers)
    requires BothFollow(id, s.log, r)
    ensures BothFollow(id, OnTimeout(s, passed, beatDue, oc).log, r)
  {
    if s.batch != [] && passed {
      FlushFollows(id, s, oc, r);
    } else {
      EmitFollows(id, s, Beat(s.beats), oc, r);
    }
  }

  lemma {:induction false} FrameFollows(
      id: Ident, s: Loop, frame: seq<byte>, maxBytes: nat, oc: Outcomes, r: Readers)
    requires BothFollow(id, s.log, r)
    ensures BothFollow(id, OnFrame(s, frame, maxBytes, oc).log, r)
  {
    FlushFollows(id, s.(batch := s.batch + [frame]), oc, r);
  }

  lemma {:induction false} NodeStepFollows(p: Params, id: Ident, n: Node, step: Step, r: Readers)
    requires BothFollow(id, n.sender.log, r)
    ensures BothFollow(id, NodeStep(p, n, step).sender.log, r)
  {
    match step {
      case TakeFrame(_, oc) =>
        if n.queue != [] && n.queue[0].Frame? {
          FrameFollows(id, n.sender, n.queue[0].bytes, p.batchMaxBytes, oc, r);
        }
      case TakeMark(_, oc, markOc) => MarkFollows(id, n.sender, oc, markOc, r);
      case Timeout(_, passed, beatDue, oc) => TimeoutFollows(id, n.sender, passed, beatDue, oc, r);
      case Disconnect(_, oc) => FlushFollows(id, n.sender, oc, r);
      case _ =>
    }
  }

  /** Only the readers move their places. */
  lemma PlacesStay(p: Params, n: Node, step: Step)
    ensures NodeStep(p, n, step).written == n.written && NodeStep(p, n, step).decoded == n.decoded
  {
  }

  // ---------------------------------------------------------------------
  // The invariant of the whole system
  // ---------------------------------------------------------------------

  /** The node is sound, and both readers have received a prefix of its link. */
  ghost predicate SourceInv(p: Params, n: Node, source: nat, received: seq<RawMessage>,
                            feed: seq<RawMessage>)
  {
    && NodeInv(p, n)
    && BothFollow(Ident(source, p.run), n.sender.log, Readers(n.written, n.decoded, received, feed))
  }

  /** All messages belong to the run, and none was taken after the writer was done. */
  ghost predicate ReceivedOk(p: Params, received: seq<RawMessage>) {
    && (forall i :: 0 <= i < |received| ==> received[i].run == p.run)
    && (forall i :: 0 <= i < |received| ==> !ReceiveAll(p.expected, p.run, received[..i]).done)
  }

  ghost predicate AllSources(p: Params, y: System) {
    forall s :: s in y.nodes ==> SourceInv(p, y.nodes[s], s, y.received, y.feed)
  }

  ghost predicate SystemInv(p: Params, y: System) {
    && AllSources(p, y)
    && ReceivedOk(p, y.received)
    && y.intake == ReceiveAll(p.expected, p.run, y.received)
  }

  lemma {:induction false} ReceivedSnoc(p: Params, received: seq<RawMessage>, m: RawMessage)
    requires ReceivedOk(p, received) && m.run == p.run
    requires !ReceiveAll(p.expected, p.run, received).done
    ensures ReceivedOk(p, received + [m])
    ensures ReceiveAll(p.expected, p.run, received + [m])
            == Receive(ReceiveAll(p.expected, p.run, received), p.expected, p.run, m)
  {
    assert (received + [m])[..|received|] == received;
    forall i | 0 <= i < |received| + 1
      ensures !ReceiveAll(p.expected, p.run, (received + [m])[..i]).done
    {
      assert i < |received| ==> (received + [m])[..i] == received[..i];
    }
  }

  /** What the writer had received before its last message. */
  lemma {:induction false} ReceivedBefore(p: Params, received: seq<RawMessage>)
    requires ReceivedOk(p, received) && received != []
    ensures var before := received[..|received| - 1];
            ReceivedOk(p, before) && !ReceiveAll(p.expected, p.run, before).done
  {
    var before := received[..|received| - 1];
    forall i | 0 <= i < |before| ensures !ReceiveAll(p.expected, p.run, before[..i]).done {
      assert before[..i] == received[..i];
    }
  }

  /** One message more for the writer, seen from any source. */
  lemma {:induction false} WriterTakeKeepsSource(p: Params, y: System, source: nat, t: nat)
    requires AllSources(p, y) && source in y.nodes && t in y.nodes
    requires WriterTakes(p, y, source) != y
    ensures var z := WriterTakes(p, y, source);
            SourceInv(p, z.nodes[t], t, z.received, z.feed)
  {
    var l, n := y.nodes[source].sender.log, y.nodes[source];
    var id := Ident(source, p.run);
    assert SourceInv(p, n, source, y.received, y.feed);
    TakeFollows(id, l.emitted, l.ok0, n.written, y.received);
    var m := Wire(id, l.emitted, l.ok0)[n.written];
    var k := y.nodes[t];
    if t == source {
      DrainSideUnchanged(n, n.(written := n.written + 1));
    } else {
      var kl := k.sender.log;
      OtherFollows(Ident(t, p.run), kl.emitted, kl.ok0, k.written, y.received, m);
    }
  }

  lemma {:induction false} WriterTakeKeepsInv(p: Params, y: System, source: nat)
    requires SystemInv(p, y) && source in y.nodes
    ensures SystemInv(p, WriterTakes(p, y, source))
  {
    var z := WriterTakes(p, y, source);
    if z != y {
      forall t | t in z.nodes ensures SourceInv(p, z.nodes[t], t, z.received, z.feed) {
        WriterTakeKeepsSource(p, y, source, t);
      }
      var n := y.nodes[source];
      var l := n.sender.log;
      assert SourceInv(p, n, source, y.received, y.feed);
      WireIdent(Ident(source, p.run), l.emitted, l.ok0, n.written);
      ReceivedSnoc(p, y.received, Wire(Ident(source, p.run), l.emitted, l.ok0)[n.written]);
    }
  }

  /** One message more for the decoder, seen from any source. */
  lemma {:induction false} DecoderTakeKeepsSource(p: Params, y: System, source: nat, t: nat)
    requires AllSources(p, y) && source in y.nodes && t in y.nodes
    requires DecoderTakes(p, y, source) != y
    ensures var z := DecoderTakes(p, y, source);
            SourceInv(p, z.nodes[t], t, z.received, z.feed)
  {
    var l, n := y.nodes[source].sender.log, y.nodes[source];
    var id := Ident(source, p.run);
    assert SourceInv(p, n, source, y.received, y.feed);
    TakeFollows(id, l.emitted, l.ok1, n.decoded, y.feed);
    var m := Wire(id, l.emitted, l.ok1)[n.decoded];
    var k := y.nodes[t];
    if t == source {
      DrainSideUnchanged(n, n.(decoded := n.decoded + 1));
    } else {
      var kl := k.sender.log;
      OtherFollows(Ident(t, p.run), kl.emitted, kl.ok1, k.decoded, y.feed, m);
    }
  }

  lemma {:induction false} DecoderTakeKeepsInv(p: Params, y: System, source: nat)
    requires SystemInv(p, y) && source in y.nodes
    ensures SystemInv(p, DecoderTakes(p, y, source))
  {
    var z := DecoderTakes(p, y, source);
    if z != y {
      forall t | t in z.nodes ensures SourceInv(p, z.nodes[t], t, z.received, z.feed) {
        DecoderTakeKeepsSource(p, y, source, t);
      }
    }
  }

  lemma {:induction false} NodeStepKeepsSource(p: Params, n: Node, source: nat, y: System, step: Step)
    requires SourceInv(p, n, source, y.received, y.feed)
    ensures SourceInv(p, NodeStep(p, n, step), source, y.received, y.feed)
  {
    NodeStepKeepsInv(p, n, step);
    PlacesStay(p, n, step);
    NodeStepFollows(p, Ident(source, p.run), n, step,
                    Readers(n.written, n.decoded, y.received, y.feed));
  }

  lemma {:induction false} SourceStepKeepsInv(p: Params, y: System, step: Step)
    requires SystemInv(p, y) && step.source in y.nodes
    ensures SystemInv(p, y.(nodes := y.nodes[step.source := NodeStep(p, y.nodes[step.source], step)]))
  {
    var z := y.(nodes := y.nodes[step.source := NodeStep(p, y.nodes[step.source], step)]);
    NodeStepKeepsSource(p, y.nodes[step.source], step.source, y, step);
    forall t | t in z.nodes ensures SourceInv(p, z.nodes[t], t, z.received, z.feed) {
      if t != step.source {
        assert z.nodes[t] == y.nodes[t];
      }
    }
  }

  lemma {:induction false} StepKeepsInv(p: Params, y: System, step: Step)
    requires SystemInv(p, y)
    ensures SystemInv(p, Apply(p, y, step))
  {
    if step.source in y.nodes {
      if step.WriterTake? {
        WriterTakeKeepsInv(p, y, step.source);
      } else if step.DecoderTake? {
        DecoderTakeKeepsInv(p, y, step.source);
      } else {
        SourceStepKeepsInv(p, y, step);
      }
    }
  }

  /** Every schedule keeps the invariant. */
  lemma {:induction false} EverySchedule(p: Params, sources: set<nat>, steps: seq<Step>)
    ensures SystemInv(p, After(p, sources, steps))
    ensures After(p, sources, steps).nodes.Keys == sources
  {
    if steps == [] {
      StartOk(p, sources, Start(sources));
    } else {
      EverySchedule(p, sources, steps[..|steps| - 1]);
      StepKeepsInv(p, After(p, sources, steps[..|steps| - 1]), steps[|steps| - 1]);
    }
  }

  // ---------------------------------------------------------------------
  // The bounded queue
  // ---------------------------------------------------------------------

  /** The step makes the drain task offer a message that is not taken. */
  predicate Refuses(p: Params, n: Node, step: Step) {
    && step.Offer? && n.outbox != [] && (|n.queue| >= p.capacity || !n.sender.alive)
  }

  /** What a step that refuses a message, or does not, makes of the queue and its counters. */
  predicate DropsBy(p: Params, n: Node, m: Node, refused: bool) {
    && (refused ==> n.outbox != [])
    && |m.queue| <= p.capacity
    && m.overflow == n.overflow + (if refused && n.outbox[0].Frame? then 1 else 0)
    && m.eosLost
       == n.eosLost + (if refused && n.outbox[0].Eos? && !n.sender.alive then 1 else 0)
  }

  lemma OneStepDrops(p: Params, n: Node, step: Step)
    requires |n.queue| <= p.capacity
    ensures DropsBy(p, n, NodeStep(p, n, step), Refuses(p, n, step))
  {
  }

  lemma {:induction false} SystemStepDrops(p: Params, y: System, step: Step, s: nat)
    requires s in y.nodes && |y.nodes[s].queue| <= p.capacity
    ensures s in Apply(p, y, step).nodes
    ensures DropsBy(p, y.nodes[s], Apply(p, y, step).nodes[s],
                    step.source == s && Refuses(p, y.nodes[s], step))
  {
    if step.source == s {
      OneStepDrops(p, y.nodes[s], step);
    }
  }

  lemma {:induction false} QueueStaysBounded(p: Params, sources: set<nat>, steps: seq<Step>, s: nat)
    requires s in sources
    ensures var y := After(p, sources, steps);
            s in y.nodes && |y.nodes[s].queue| <= p.capacity
  {
    if steps != [] {
      var n := |steps| - 1;
      QueueStaysBounded(p, sources, steps[..n], s);
      SystemStepDrops(p, After(p, sources, steps[..n]), steps[n], s);
    }
  }

  /**
   The queue never holds more than its capacity, and nothing is dropped without need: in every
   schedule a frame is dropped exactly when it is offered to a full queue or a dead sender, and a
   mark exactly when it is offered to a dead sender.
   */
  lemma {:induction false} DropsOnlyWhenFull(p: Params, sources: set<nat>, steps: seq<Step>, s: nat)
    requires s in sources && steps != []
    ensures var y := After(p, sources, steps[..|steps| - 1]);
            var step := steps[|steps| - 1];
            && s in y.nodes && |y.nodes[s].queue| <= p.capacity
            && s in Apply(p, y, step).nodes && After(p, sources, steps) == Apply(p, y, step)
            && DropsBy(p, y.nodes[s], Apply(p, y, step).nodes[s],
                       step.source == s && Refuses(p, y.nodes[s], step))
  {
    QueueStaysBounded(p, sources, steps[..|steps| - 1], s);
    SystemStepDrops(p, After(p, sources, steps[..|steps| - 1]), steps[|steps| - 1], s);
  }

  predicate IsFresh(n: Node) {
    && n.events == [] && !n.stopped && n.outbox == [] && n.queue == [] && n.accepted == []
    && n.overflow == 0 && n.eosLost == 0 && n.written == 0 && n.decoded == 0
    && n.sender.batch == [] && n.sender.log == Log([], [], [])
  }

  lemma {:induction false} FreshNodeOk(p: Params, n: Node)
    requires IsFresh(n)
    ensures NodeInv(p, n)
  {
    assert Produced(n) == [];
    assert Held(n.sender) == [];
  }

  lemma {:induction false} FreshSystemOk(p: Params, y: System)
    requires forall s :: s in y.nodes ==> IsFresh(y.nodes[s])
    requires y.received == [] && y.intake == FRESH_INTAKE && y.feed == []
    ensures SystemInv(p, y)
  {
    forall s | s in y.nodes ensures SourceInv(p, y.nodes[s], s, y.received, y.feed) {
      FreshNodeOk(p, y.nodes[s]);
    }
    assert ReceiveAll(p.expected, p.run, y.received) == FRESH_INTAKE;
  }

  lemma {:induction false} StartOk(p: Params, sources: set<nat>, y: System)
    requires y == Start(sources)
    ensures SystemInv(p, y) && y.nodes.Keys == sources
  {
    assert IsFresh(FRESH_NODE);
    FreshSystemOk(p, y);
  }

  /** Once the writer is done, no step changes what it has received and written. */
  lemma DoneStaysDone(p: Params, y: System, step: Step)
    requires y.intake.done
    ensures Apply(p, y, step).intake == y.intake && Apply(p, y, step).received == y.received
  {
  }
}

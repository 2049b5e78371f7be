/**
 The lossless split, over every schedule of the pipeline: where every message of a source is at
 any moment, what the writer has written, and what is on disk once it has finished.
 */
module Lossless {
  import opened Bytes
  import opened Drain
  import opened Messages
  import opened Sender
  import opened Links
  import opened Paths
  import opened GrawWriter
  import opened RunWriter
  import opened WriterLaws
  import opened Pipeline

  // ---------------------------------------------------------------------
  // Where everything is, at every moment
  // ---------------------------------------------------------------------

  /**
   What the queue accepted is, in order, what the reader of a link received, what is in flight,
   what is in the open batch and what is queued, and apart from that exactly what failed on the
   link. If nothing failed, that is all.
   */
  ghost predicate Located(id: Ident, n: Node, ok: seq<bool>, taken: nat, ms: seq<RawMessage>)
    requires Follows(id, n.sender.log.emitted, ok, taken, ms)
  {
    var es := n.sender.log.emitted;
    var there := (Unwire(From(ms, id.source)) + Unwire(Wire(id, es, ok)[taken..]))
                 + (FrameMsgs(n.sender.batch) + n.queue);
    && Subsequence(there, n.accepted)
    && multiset(n.accepted) == multiset(there) + multiset(Share(es, ok, false))
    && (NothingLost(es, ok) ==> n.accepted == there)
  }

  lemma {:induction false} EverythingIsLocated(
      id: Ident, n: Node, ok: seq<bool>, taken: nat, ms: seq<RawMessage>)
    requires Follows(id, n.sender.log.emitted, ok, taken, ms)
    requires Held(n.sender) + n.queue == n.accepted
    ensures Located(id, n, ok, taken, ms)
  {
    var es := n.sender.log.emitted;
    var there := Unwire(From(ms, id.source)) + Unwire(Wire(id, es, ok)[taken..]);
    var rest := FrameMsgs(n.sender.batch) + n.queue;
    ReceivedAndInFlight(id, es, ok, taken, ms);
    Associate(Unbatch(es), FrameMsgs(n.sender.batch), n.queue);
    SubsequenceAppend(there, Unbatch(es), rest);
    assert multiset(Unbatch(es) + rest) == multiset(Unbatch(es)) + multiset(rest);
    assert multiset(there + rest) == multiset(there) + multiset(rest);
  }

  lemma {:induction false} SubsequenceOfEqualLength<T>(xs: seq<T>, ys: seq<T>)
    requires Subsequence(xs, ys) && |xs| == |ys|
    ensures xs == ys
  {
    if xs != [] {
      var n := |xs| - 1;
      if Subsequence(xs, ys[..n]) {
        SubsequenceIsShorter(xs, ys[..n]);
      } else {
        SubsequenceOfEqualLength(xs[..n], ys[..n]);
        assert xs == xs[..n] + [xs[n]] && ys == ys[..n] + [ys[n]];
      }
    }
  }

  /** The accounts of one source: what it handed over, what the queue dropped, where the rest is. */
  ghost predicate Conserved(p: Params, y: System, s: nat) {
    && s in y.nodes
    && var n := y.nodes[s];
    var l, id := n.sender.log, Ident(s, p.run);
    && OutboxOk(n) && Produced(n) == Offered(n) + n.outbox
    && Accounted(n.accepted, Offered(n), n.overflow, n.eosLost, n.sender.alive)
    && (n.overflow + n.eosLost == 0 ==> n.accepted == Offered(n))
    && Follows(id, l.emitted, l.ok0, n.written, y.received)
    && Located(id, n, l.ok0, n.written, y.received)
    && Follows(id, l.emitted, l.ok1, n.decoded, y.feed)
    && Located(id, n, l.ok1, n.decoded, y.feed)
  }

  /**
   Conservation. After every schedule, what a source handed over is, in order and up to exactly
   the counted queue losses, what the queue accepted; and that is, in order and up to exactly
   what failed on the link, what the writer (the decoder) received, what is in flight, what is
   in the open batch and what is queued.
   */
  lemma {:induction false} ConservationAtEveryMoment(
      p: Params, sources: set<nat>, steps: seq<Step>, s: nat)
    requires s in sources
    ensures Conserved(p, After(p, sources, steps), s)
  {
    EverySchedule(p, sources, steps);
    var y := After(p, sources, steps);
    var n := y.nodes[s];
    assert SourceInv(p, n, s, y.received, y.feed);
    if n.overflow + n.eosLost == 0 {
      SubsequenceOfEqualLength(n.accepted, Offered(n));
    }
    EverythingIsLocated(Ident(s, p.run), n, n.sender.log.ok0, n.written, y.received);
    EverythingIsLocated(Ident(s, p.run), n, n.sender.log.ok1, n.decoded, y.feed);
  }

  /** After every schedule all batches, sent and open, keep the size bounds. */
  lemma {:induction false} BatchSizesEverySchedule(
      p: Params, sources: set<nat>, steps: seq<Step>, s: nat)
    requires s in sources
    ensures var y := After(p, sources, steps);
            s in y.nodes && SizesOk(y.nodes[s].sender, p.batchMaxBytes)
  {
    EverySchedule(p, sources, steps);
    var y := After(p, sources, steps);
    assert SourceInv(p, y.nodes[s], s, y.received, y.feed);
  }

  // ---------------------------------------------------------------------
  // What the writer wrote
  // ---------------------------------------------------------------------

  function FramesOf(ms: seq<FrameMsg>): seq<seq<byte>> {
    if ms == [] then []
    else FramesOf(ms[..|ms| - 1]) + if ms[|ms| - 1].Frame? then [ms[|ms| - 1].bytes] else []
  }

  lemma {:induction false} FramesOfSnoc(ms: seq<FrameMsg>, m: FrameMsg)
    ensures FramesOf(ms + [m]) == FramesOf(ms) + if m.Frame? then [m.bytes] else []
  {
    assert (ms + [m])[..|ms|] == ms;
  }

  lemma {:induction false} FramesOfConcatFrames(ms: seq<FrameMsg>, frames: seq<seq<byte>>)
    ensures FramesOf(ms + FrameMsgs(frames)) == FramesOf(ms) + frames
  {
    if frames == [] {
      assert ms + FrameMsgs(frames) == ms;
    } else {
      var n := |frames| - 1;
      FramesOfConcatFrames(ms, frames[..n]);
      assert FrameMsgs(frames) == FrameMsgs(frames[..n]) + [Frame(frames[n])];
      assert ms + FrameMsgs(frames) == (ms + FrameMsgs(frames[..n])) + [Frame(frames[n])];
      FramesOfSnoc(ms + FrameMsgs(frames[..n]), Frame(frames[n]));
      assert frames == frames[..n] + [frames[n]];
    }
  }

  /** Under each key of a source the writer has written that source's frames, routed. */
  lemma {:induction false} WriterFollowsLinks(p: Params, received: seq<RawMessage>, key: FileKey)
    requires ReceivedOk(p, received)
    ensures Routed(ReceiveAll(p.expected, p.run, received).ledger.writes, key)
            == RouteFrames(key.cobo, FramesOf(Unwire(From(received, key.cobo))), key)
  {
    if received != [] {
      var n := |received| - 1;
      var before, m := received[..n], received[n];
      ReceivedBefore(p, received);
      WriterFollowsLinks(p, before, key);
      assert received == before + [m];
      FromSnoc(before, m, key.cobo);
      var v := ReceiveAll(p.expected, p.run, before);
      TakingOneMessage(p, v, m, From(before, key.cobo), key);
    }
  }

  lemma {:induction false} TakingOneMessage(
      p: Params, v: Intake, m: RawMessage, mine: seq<RawMessage>, key: FileKey)
    requires !v.done && m.run == p.run
    requires Routed(v.ledger.writes, key) == RouteFrames(key.cobo, FramesOf(Unwire(mine)), key)
    ensures Routed(Receive(v, p.expected, p.run, m).ledger.writes, key)
            == RouteFrames(key.cobo,
                           FramesOf(Unwire(mine + if m.source == key.cobo then [m] else [])), key)
  {
    var writes := Receive(v, p.expected, p.run, m).ledger.writes;
    assert mine + [] == mine;
    if m.Data? {
      assert writes == v.ledger.writes + BatchWrites(m.source, m.payload);
      RoutedBatch(v.ledger.writes, m.source, m.payload, key);
      OneMoreBatch(mine, m, key);
    } else {
      assert writes == v.ledger.writes;
      NoMoreFrames(mine, m);
    }
  }

  lemma {:induction false} NoMoreFrames(mine: seq<RawMessage>, m: RawMessage)
    requires !m.Data?
    ensures FramesOf(Unwire(mine + [m])) == FramesOf(Unwire(mine))
  {
    UnwireSnoc(mine, m);
    FramesOfSnoc(Unwire(mine), Eos);
    assert Unwire(mine) + [] == Unwire(mine);
  }

  lemma {:induction false} OneMoreBatch(mine: seq<RawMessage>, m: RawMessage, key: FileKey)
    requires m.Data?
    ensures RouteFrames(key.cobo, FramesOf(Unwire(mine + [m])), key)
            == RouteFrames(key.cobo, FramesOf(Unwire(mine)), key)
               + RouteFrames(key.cobo, m.payload, key)
  {
    UnwireSnoc(mine, m);
    FramesOfConcatFrames(Unwire(mine), m.payload);
    RouteConcat(key.cobo, FramesOf(Unwire(mine)), m.payload, key);
  }

  /** The writer counts a source as ended only after its mark arrived. */
  lemma {:induction false} EndedMeansMarked(p: Params, received: seq<RawMessage>, s: nat)
    requires s in ReceiveAll(p.expected, p.run, received).eos
    ensures Marks(Unwire(From(received, s))) > 0
  {
    var n := |received| - 1;
    var before, m := received[..n], received[n];
    FromSnoc(before, m, s);
    assert received == before + [m];
    MarksOfOneMore(From(before, s), m);
    if s in ReceiveAll(p.expected, p.run, before).eos {
      EndedMeansMarked(p, before, s);
    } else {
      NewlyEnded(ReceiveAll(p.expected, p.run, before), p, m, s);
    }
  }

  lemma NewlyEnded(v: Intake, p: Params, m: RawMessage, s: nat)
    requires s in Receive(v, p.expected, p.run, m).eos && s !in v.eos
    ensures m.EndOfStream? && m.source == s
  {
  }

  lemma {:induction false} MarksOfOneMore(mine: seq<RawMessage>, m: RawMessage)
    ensures Marks(Unwire(mine + [m])) >= Marks(Unwire(mine)) + if m.EndOfStream? then 1 else 0
  {
    UnwireSnoc(mine, m);
    if m.EndOfStream? {
      MarksSnoc(Unwire(mine), Eos);
    } else {
      MarksConcat(Unwire(mine), UnwireOne(m));
    }
  }

  lemma {:induction false} DoneMeansAllEnded(p: Params, received: seq<RawMessage>)
    requires ReceiveAll(p.expected, p.run, received).done
    ensures p.expected <= ReceiveAll(p.expected, p.run, received).eos
  {
    var n := |received| - 1;
    if ReceiveAll(p.expected, p.run, received[..n]).done {
      DoneMeansAllEnded(p, received[..n]);
    }
  }

  // ---------------------------------------------------------------------
  // What a reader has of a source's connections
  // ---------------------------------------------------------------------

  /** The connections of a source that carried data. */
  function Streams(n: Node): seq<seq<seq<byte>>> {
    var c := CarriedBy(n.events);
    c.closed + if c.open.Some? && c.open.value != [] then [c.open.value] else []
  }

  /** The frames of connections, one connection after the other. */
  function FramesIn(conns: seq<seq<seq<byte>>>): seq<seq<byte>> {
    if conns == [] then []
    else FramesIn(conns[..|conns| - 1]) + FeedAll(conns[|conns| - 1]).frames
  }

  /** The connections that were ended by a mark; a stop ends the last one if a mark is owed. */
  function Ended(n: Node): seq<seq<seq<byte>>> {
    var c := CarriedBy(n.events);
    c.closed + if n.stopped && Owed(c) then [if c.open.Some? then c.open.value else []] else []
  }

  /** The frames behind the last mark. */
  function Unended(n: Node): seq<FrameMsg> {
    var c := CarriedBy(n.events);
    if n.stopped && Owed(c) then [] else OpenFrames(c)
  }

  lemma {:induction false} ProducedIsMarked(n: Node)
    ensures Produced(n) == MarkedStreams(Ended(n)) + Unended(n)
    ensures Marks(Unended(n)) == 0
  {
    var c := CarriedBy(n.events);
    RunTracks(n.events);
    HandedIsDeclared(n.events);
    if c.open.Some? {
      FramesHaveNoMarks(FeedAll(c.open.value).frames);
    }
    if n.stopped && Owed(c) {
      var last := if c.open.Some? then c.open.value else [];
      MarkedStreamsSnoc(c.closed, last);
      assert FrameMsgs(FeedAll(last).frames) == OpenFrames(c);
      assert MarkedStreams(Ended(n)) + [] == MarkedStreams(Ended(n));
    } else {
      assert c.closed + [] == c.closed;
    }
  }

  lemma {:induction false} FramesOfConcat(a: seq<FrameMsg>, b: seq<FrameMsg>)
    ensures FramesOf(a + b) == FramesOf(a) + FramesOf(b)
  {
    if b == [] {
      assert a + b == a;
    } else {
      assert (a + b)[..|a + b| - 1] == a + b[..|b| - 1];
      FramesOfConcat(a, b[..|b| - 1]);
    }
  }

  lemma {:induction false} FramesOfFrames(frames: seq<seq<byte>>)
    ensures FramesOf(FrameMsgs(frames)) == frames
  {
    FramesOfConcatFrames([], frames);
    assert [] + FrameMsgs(frames) == FrameMsgs(frames) && [] + frames == frames;
  }

  lemma {:induction false} FramesOfMarked(conns: seq<seq<seq<byte>>>)
    ensures FramesOf(MarkedStreams(conns)) == FramesIn(conns)
  {
    if conns != [] {
      var n := |conns| - 1;
      FramesOfMarked(conns[..n]);
      var frames := FeedAll(conns[n]).frames;
      FramesOfConcatFrames(MarkedStreams(conns[..n]), frames);
      FramesOfSnoc(MarkedStreams(conns[..n]) + FrameMsgs(frames), Eos);
    }
  }

  lemma {:induction false} FramesInSnoc(conns: seq<seq<seq<byte>>>, conn: seq<seq<byte>>)
    ensures FramesIn(conns + [conn]) == FramesIn(conns) + FeedAll(conn).frames
  {
    assert (conns + [conn])[..|conns|] == conns;
  }

  /** Everything a source hands over are the frames of its data connections. */
  lemma {:induction false} FramesOfProduced(n: Node)
    ensures FramesOf(Produced(n)) == FramesIn(Streams(n))
  {
    var c := CarriedBy(n.events);
    ProducedIsMarked(n);
    FramesOfConcat(MarkedStreams(Ended(n)), Unended(n));
    FramesOfMarked(Ended(n));
    var last := if c.open.Some? then c.open.value else [];
    FramesInSnoc(c.closed, last);
    FramesOfFrames(FeedAll(last).frames);
    assert c.closed + [] == c.closed && FramesIn(c.closed) + [] == FramesIn(c.closed);
  }

  lemma {:induction false} MarkedPrefix(conns: seq<seq<seq<byte>>>, k: nat)
    requires k <= |conns|
    ensures MarkedStreams(conns[..k]) <= MarkedStreams(conns)
  {
    if k == |conns| {
      assert conns[..k] == conns;
    } else {
      var n := |conns| - 1;
      assert conns[..n][..k] == conns[..k];
      MarkedPrefix(conns[..n], k);
    }
  }

  lemma {:induction false} MarksOfPrefix(a: seq<FrameMsg>, b: seq<FrameMsg>)
    requires a <= b
    ensures Marks(a) <= Marks(b)
  {
    MarksConcat(a, b[|a|..]);
    assert a + b[|a|..] == b;
  }

  lemma {:induction false} CutBeforeTheMark(a: seq<FrameMsg>, marked: seq<FrameMsg>)
    requires |a| < |marked| && a <= marked && marked[|marked| - 1] == Eos
    ensures Marks(a) < Marks(marked)
  {
    var body := marked[..|marked| - 1];
    assert a <= body && marked == body + [Eos];
    MarksOfPrefix(a, body);
    MarksSnoc(body, Eos);
  }

  lemma {:induction false} MarksBound(a: seq<FrameMsg>, conns: seq<seq<seq<byte>>>, rest: seq<FrameMsg>)
    requires a <= MarkedStreams(conns) + rest && Marks(rest) == 0
    ensures Marks(a) <= |conns|
  {
    MarksOfPrefix(a, MarkedStreams(conns) + rest);
    MarksConcat(MarkedStreams(conns), rest);
    OneMarkPerStream(conns);
  }

  /** Of two prefixes, one that ends in a mark is the shorter one if it has no more marks. */
  lemma {:induction false} MarkedPrefixIsShorter(
      a: seq<FrameMsg>, marked: seq<FrameMsg>, whole: seq<FrameMsg>)
    requires a <= whole && marked <= whole && Marks(marked) <= Marks(a)
    requires marked != [] ==> marked[|marked| - 1] == Eos
    ensures marked <= a
  {
    if |a| < |marked| {
      CutBeforeTheMark(a, marked);
    }
  }

  lemma {:induction false} FirstConnections(conns: seq<seq<seq<byte>>>, k: nat, rest: seq<FrameMsg>)
    requires k <= |conns|
    ensures var marked := MarkedStreams(conns[..k]);
            && marked <= MarkedStreams(conns) + rest && Marks(marked) == k
            && (marked != [] ==> marked[|marked| - 1] == Eos)
  {
    MarkedPrefix(conns, k);
    OneMarkPerStream(conns[..k]);
    EndsInMark(conns[..k]);
  }

  /** A prefix with the mark of the k-th connection has that connection completely. */
  lemma {:induction false} MarksCompleteStreams(
      a: seq<FrameMsg>, conns: seq<seq<seq<byte>>>, rest: seq<FrameMsg>)
    requires a <= MarkedStreams(conns) + rest && Marks(rest) == 0
    ensures Marks(a) <= |conns| && MarkedStreams(conns[..Marks(a)]) <= a
  {
    MarksBound(a, conns, rest);
    FirstConnections(conns, Marks(a), rest);
    MarkedPrefixIsShorter(a, MarkedStreams(conns[..Marks(a)]), MarkedStreams(conns) + rest);
  }

  lemma EndsInMark(conns: seq<seq<seq<byte>>>)
    ensures var m := MarkedStreams(conns);
            m != [] ==> m[|m| - 1] == Eos
  {
  }

  /** Nothing of the source was lost on the way to the reader of a link. */
  ghost predicate NoLoss(n: Node, ok: seq<bool>) {
    n.overflow == 0 && NothingLost(n.sender.log.emitted, ok)
  }

  /** Without loss, a reader has a prefix of what the source handed over. */
  lemma {:induction false} ReceivedIsAPrefix(
      p: Params, id: Ident, n: Node, ok: seq<bool>, taken: nat, ms: seq<RawMessage>)
    requires NodeInv(p, n) && NoLoss(n, ok)
    requires Follows(id, n.sender.log.emitted, ok, taken, ms)
    ensures Unwire(From(ms, id.source)) <= Produced(n)
  {
    var a := Unwire(From(ms, id.source));
    EverythingIsLocated(id, n, ok, taken, ms);
    assert a <= n.accepted;
    assert n.accepted <= Offered(n) <= Produced(n);
  }

  /**
   What a reader has of a source without loss: a prefix of what the source handed over, in which
   every connection whose mark arrived is complete; and a key has all its frames iff none of them
   is in the part that was not received.
   */
  ghost predicate Prefixed(n: Node, s: nat, a: seq<FrameMsg>) {
    && a <= Produced(n)
    && Marks(a) <= |Ended(n)| && MarkedStreams(Ended(n)[..Marks(a)]) <= a
    && forall key: FileKey ::
         RouteFrames(s, FramesOf(a), key) == RouteFrames(s, FramesIn(Streams(n)), key)
         <==> RouteFrames(s, FramesOf(Produced(n)[|a|..]), key) == []
  }

  lemma {:induction false} RoutedPrefix(n: Node, s: nat, a: seq<FrameMsg>, key: FileKey)
    requires a <= Produced(n)
    ensures RouteFrames(s, FramesIn(Streams(n)), key)
            == RouteFrames(s, FramesOf(a), key) + RouteFrames(s, FramesOf(Produced(n)[|a|..]), key)
  {
    var rest := Produced(n)[|a|..];
    assert Produced(n) == a + rest;
    FramesOfProduced(n);
    FramesOfConcat(a, rest);
    RouteConcat(s, FramesOf(a), FramesOf(rest), key);
  }

  lemma {:induction false} ReceivedIsPrefixed(
      p: Params, id: Ident, n: Node, ok: seq<bool>, taken: nat, ms: seq<RawMessage>)
    requires NodeInv(p, n) && NoLoss(n, ok)
    requires Follows(id, n.sender.log.emitted, ok, taken, ms)
    ensures Prefixed(n, id.source, Unwire(From(ms, id.source)))
  {
    var a := Unwire(From(ms, id.source));
    ReceivedIsAPrefix(p, id, n, ok, taken, ms);
    ProducedIsMarked(n);
    MarksCompleteStreams(a, Ended(n), Unended(n));
    forall key: FileKey
      ensures RouteFrames(id.source, FramesOf(a), key) == RouteFrames(id.source, FramesIn(Streams(n)), key)
              <==> RouteFrames(id.source, FramesOf(Produced(n)[|a|..]), key) == []
    {
      RoutedPrefix(n, id.source, a, key);
    }
  }

  /**
   The split, for any number of connections. In every schedule, a source without overflow and
   failed sends has under each of its keys exactly the frames of the received prefix with that
   key, and the part that was not received holds exactly the missing ones. When the writer is done
   at least the first connection is complete.
   */
  lemma {:induction false} SplitOfEveryConnection(
      p: Params, sources: set<nat>, steps: seq<Step>, key: FileKey)
    requires key.cobo in sources
    requires var n := After(p, sources, steps).nodes;
             key.cobo in n && NoLoss(n[key.cobo], n[key.cobo].sender.log.ok0)
    ensures var y := After(p, sources, steps);
            var n := y.nodes[key.cobo];
            var a := Unwire(From(y.received, key.cobo));
            && Routed(y.intake.ledger.writes, key) == RouteFrames(key.cobo, FramesOf(a), key)
            && Prefixed(n, key.cobo, a)
            && (y.intake.done && key.cobo in p.expected ==> Marks(a) > 0)
  {
    EverySchedule(p, sources, steps);
    var y := After(p, sources, steps);
    var s := key.cobo;
    var n := y.nodes[s];
    assert SourceInv(p, n, s, y.received, y.feed);
    WriterFollowsLinks(p, y.received, key);
    ReceivedIsPrefixed(p, Ident(s, p.run), n, n.sender.log.ok0, n.written, y.received);
    if y.intake.done && s in p.expected {
      DoneMeansAllEnded(p, y.received);
      EndedMeansMarked(p, y.received, s);
    }
  }

  // ---------------------------------------------------------------------
  // The first connection and the later ones
  // ---------------------------------------------------------------------

  /** The frames of the data connections behind the first one. */
  function LaterFrames(n: Node): seq<seq<byte>> {
    if Streams(n) == [] then [] else FramesIn(Streams(n)[1..])
  }

  lemma {:induction false} FramesInConcat(a: seq<seq<seq<byte>>>, b: seq<seq<seq<byte>>>)
    ensures FramesIn(a + b) == FramesIn(a) + FramesIn(b)
  {
    if b == [] {
      assert a + b == a;
    } else {
      var n := |b| - 1;
      FramesInConcat(a, b[..n]);
      SplitLast(a, b);
      FramesInSnoc(a + b[..n], b[n]);
      Associate(FramesIn(a), FramesIn(b[..n]), FeedAll(b[n]).frames);
    }
  }

  lemma {:induction false} FramesInOne(conn: seq<seq<byte>>)
    ensures FramesIn([conn]) == FeedAll(conn).frames
  {
    FramesInSnoc([], conn);
    assert [] + [conn] == [conn];
  }

  /** The first connection that ended is the first data connection, if there is one. */
  lemma {:induction false} FirstAndLater(n: Node)
    requires Ended(n) != []
    ensures FramesIn(Streams(n)) == FeedAll(Ended(n)[0]).frames + LaterFrames(n)
  {
    var first := Ended(n)[0];
    if Streams(n) == [] {
      assert FeedAll(first).frames == [];
    } else {
      assert Streams(n)[0] == first;
      assert Streams(n) == [first] + Streams(n)[1..];
      FramesInConcat([first], Streams(n)[1..]);
      FramesInOne(first);
    }
  }

  lemma {:induction false} FramesOfPrefix(a: seq<FrameMsg>, b: seq<FrameMsg>)
    requires a <= b
    ensures FramesOf(a) <= FramesOf(b)
  {
    FramesOfConcat(a, b[|a|..]);
    assert a + b[|a|..] == b;
  }

  lemma {:induction false} RoutePrefix(s: nat, a: seq<seq<byte>>, b: seq<seq<byte>>, key: FileKey)
    requires a <= b
    ensures RouteFrames(s, a, key) <= RouteFrames(s, b, key)
  {
    RouteConcat(s, a, b[|a|..], key);
    assert a + b[|a|..] == b;
  }

  /** A prefix with a mark has the frames of the first connection. */
  lemma {:induction false} MarkedHasTheFirst(n: Node, a: seq<FrameMsg>)
    requires 0 < Marks(a) <= |Ended(n)| && MarkedStreams(Ended(n)[..Marks(a)]) <= a
    ensures FeedAll(Ended(n)[0]).frames <= FramesOf(a)
  {
    var ended := Ended(n)[..Marks(a)];
    MarkedPrefix(ended, 1);
    assert ended[..1] == [Ended(n)[0]];
    FramesOfPrefix(MarkedStreams(ended[..1]), a);
    FramesOfMarked(ended[..1]);
    FramesInOne(Ended(n)[0]);
  }

  /** If the later connections hold nothing for the key, the first one is all there is. */
  lemma {:induction false} FirstIsEnough(n: Node, s: nat, a: seq<FrameMsg>, key: FileKey)
    requires a <= Produced(n)
    requires 0 < Marks(a) <= |Ended(n)| && MarkedStreams(Ended(n)[..Marks(a)]) <= a
    requires RouteFrames(s, LaterFrames(n), key) == []
    ensures RouteFrames(s, FramesOf(a), key) == RouteFrames(s, FramesIn(Streams(n)), key)
  {
    var first := FeedAll(Ended(n)[0]).frames;
    MarkedHasTheFirst(n, a);
    FramesOfPrefix(a, Produced(n));
    FramesOfProduced(n);
    RoutePrefix(s, first, FramesOf(a), key);
    RoutePrefix(s, FramesOf(a), FramesIn(Streams(n)), key);
    FirstAndLater(n);
    RouteConcat(s, first, LaterFrames(n), key);
  }

  /** With one data connection, the first mark comes behind all its frames. */
  lemma {:induction false} FirstMarkCompletesTheOnlyStream(n: Node, a: seq<FrameMsg>)
    requires a <= Produced(n) && |Streams(n)| <= 1
    requires 0 < Marks(a) <= |Ended(n)| && MarkedStreams(Ended(n)[..Marks(a)]) <= a
    ensures FramesOf(a) == FramesIn(Streams(n))
  {
    MarkedHasTheFirst(n, a);
    FramesOfPrefix(a, Produced(n));
    FramesOfProduced(n);
    FirstAndLater(n);
    NothingLater(n);
    Squeeze(FeedAll(Ended(n)[0]).frames, FramesOf(a), FramesIn(Streams(n)));
  }

  lemma NothingLater(n: Node)
    requires |Streams(n)| <= 1
    ensures LaterFrames(n) == []
  {
  }

  lemma Squeeze<T>(a: seq<T>, b: seq<T>, c: seq<T>)
    requires a <= b <= c && c == a + []
    ensures b == c
  {
  }

  /** The writer is done, the source lost nothing, and its later connections do not use the key. */
  ghost predicate CleanlyDone(y: System, key: FileKey) {
    && y.intake.done
    && key.cobo in y.nodes
    && NoLoss(y.nodes[key.cobo], y.nodes[key.cobo].sender.log.ok0)
    && RouteFrames(key.cobo, LaterFrames(y.nodes[key.cobo]), key) == []
  }

  /**
   The lossless split. In every schedule: when the writer is done, a source without overflow and
   failed sends has under a key exactly the frames of all its connections with that key, in order,
   if only its first data connection uses the key; with one data connection, under every key.
   */
  lemma {:induction false} SplitIsLossless(p: Params, sources: set<nat>, steps: seq<Step>, key: FileKey)
    requires key.cobo in p.expected && CleanlyDone(After(p, sources, steps), key)
    ensures var y := After(p, sources, steps);
            Routed(y.intake.ledger.writes, key)
            == RouteFrames(key.cobo, FramesIn(Streams(y.nodes[key.cobo])), key)
  {
    EverySchedule(p, sources, steps);
    SplitOfEveryConnection(p, sources, steps, key);
    var y := After(p, sources, steps);
    FirstIsEnough(y.nodes[key.cobo], key.cobo, Unwire(From(y.received, key.cobo)), key);
  }

  // ---------------------------------------------------------------------
  // One expected source: exactly the first connection
  // ---------------------------------------------------------------------

  /** As long as the writer is not done it has no mark of its only expected source. */
  lemma {:induction false} NotDoneNoMark(p: Params, received: seq<RawMessage>, s: nat)
    requires p.expected == {s} && ReceivedOk(p, received)
    requires !ReceiveAll(p.expected, p.run, received).done
    ensures Marks(Unwire(From(received, s))) == 0
  {
    if received != [] {
      var n := |received| - 1;
      ReceivedBefore(p, received);
      NotDoneNoMark(p, received[..n], s);
      assert received == received[..n] + [received[n]];
      FromSnoc(received[..n], received[n], s);
      if received[n].source == s {
        EosEnds(p, ReceiveAll(p.expected, p.run, received[..n]), received[n], s);
        UnmarkedMessage(From(received[..n], s), received[n]);
      }
    }
  }

  lemma EosEnds(p: Params, v: Intake, m: RawMessage, s: nat)
    requires p.expected == {s} && !v.done && m.run == p.run && m.source == s
    ensures Receive(v, p.expected, p.run, m).done <==> m.EndOfStream?
  {
  }

  lemma {:induction false} UnmarkedMessage(mine: seq<RawMessage>, m: RawMessage)
    requires !m.EndOfStream?
    ensures Marks(Unwire(mine + [m])) == Marks(Unwire(mine))
  {
    UnwireSnoc(mine, m);
    MarksConcat(Unwire(mine), UnwireOne(m));
    if m.Data? {
      FramesHaveNoMarks(m.payload);
    }
  }

  /** When it is done, the last message is the mark, and it is the first one. */
  lemma {:induction false} DoneAtTheFirstMark(p: Params, received: seq<RawMessage>, s: nat)
    returns (body: seq<FrameMsg>)
    requires p.expected == {s} && ReceivedOk(p, received)
    requires ReceiveAll(p.expected, p.run, received).done
    ensures Unwire(From(received, s)) == body + [Eos] && Marks(body) == 0
  {
    var n := |received| - 1;
    var before, m := received[..n], received[n];
    ReceivedBefore(p, received);
    NotDoneNoMark(p, before, s);
    assert received == before + [m];
    FromSnoc(before, m, s);
    NowDone(p, ReceiveAll(p.expected, p.run, before), m, s);
    UnwireSnoc(From(before, s), m);
    body := Unwire(From(before, s));
  }

  lemma NowDone(p: Params, v: Intake, m: RawMessage, s: nat)
    requires p.expected == {s} && !v.done && Receive(v, p.expected, p.run, m).done
    ensures m.EndOfStream? && m.source == s
  {
  }

  /** A prefix that ends with its first mark is the first connection. */
  lemma {:induction false} FirstMarkIsTheFirstConnection(n: Node, body: seq<FrameMsg>)
    requires Marks(body) == 0 && body + [Eos] <= Produced(n)
    requires 0 < |Ended(n)| && MarkedStreams(Ended(n)[..1]) <= body + [Eos]
    ensures FramesOf(body + [Eos]) == FeedAll(Ended(n)[0]).frames
  {
    var a, first := body + [Eos], Ended(n)[..1];
    assert first == [Ended(n)[0]];
    OneMarkPerStream(first);
    if |MarkedStreams(first)| < |a| {
      assert MarkedStreams(first) <= body;
      MarksOfPrefix(MarkedStreams(first), body);
    }
    assert a == MarkedStreams(first);
    FramesOfMarked(first);
    FramesInOne(Ended(n)[0]);
  }

  lemma {:induction false} CompleteIffNothingLater(n: Node, key: FileKey)
    requires Ended(n) != []
    ensures var first := FeedAll(Ended(n)[0]).frames;
            RouteFrames(key.cobo, first, key) == RouteFrames(key.cobo, FramesIn(Streams(n)), key)
            <==> RouteFrames(key.cobo, LaterFrames(n), key) == []
  {
    FirstAndLater(n);
    RouteConcat(key.cobo, FeedAll(Ended(n)[0]).frames, LaterFrames(n), key);
  }

  /**
   The exact split with one expected source. In every schedule in which the writer is done and
   nothing was lost, each key holds exactly the frames of the source's first connection with that
   key; so it holds all its frames iff the later connections carry none for it.
   */
  lemma {:induction false} OnlyTheFirstConnection(
      p: Params, sources: set<nat>, steps: seq<Step>, key: FileKey)
    requires p.expected == {key.cobo} && key.cobo in sources
    requires var y := After(p, sources, steps);
             && y.intake.done && key.cobo in y.nodes
             && NoLoss(y.nodes[key.cobo], y.nodes[key.cobo].sender.log.ok0)
    ensures var y := After(p, sources, steps);
            var n := y.nodes[key.cobo];
            && Ended(n) != []
            && Routed(y.intake.ledger.writes, key)
               == RouteFrames(key.cobo, FeedAll(Ended(n)[0]).frames, key)
            && (Routed(y.intake.ledger.writes, key) == RouteFrames(key.cobo, FramesIn(Streams(n)), key)
                <==> RouteFrames(key.cobo, LaterFrames(n), key) == [])
  {
    EverySchedule(p, sources, steps);
    SplitOfEveryConnection(p, sources, steps, key);
    var y := After(p, sources, steps);
    var n := y.nodes[key.cobo];
    var body := DoneAtTheFirstMark(p, y.received, key.cobo);
    MarksSnoc(body, Eos);
    FirstMarkIsTheFirstConnection(n, body);
    CompleteIffNothingLater(n, key);
  }

  /** A stream put together from well-formed frames gives back those frames. */
  lemma {:induction false} StreamOfWellFormedFrames(n: Node, frames: seq<seq<byte>>)
    requires |Streams(n)| == 1 && Flat(Streams(n)[0]) == Flat(frames)
    requires forall f :: f in frames ==> F.WellFormed(f, F.DEFAULT_MAX_FRAME_BYTES)
    ensures FramesIn(Streams(n)) == frames
  {
    FeedIsCut(Streams(n)[0]);
    F.CutOfFrames(frames, F.DEFAULT_MAX_FRAME_BYTES);
    FramesInSnoc([], Streams(n)[0]);
    assert Streams(n) == [] + [Streams(n)[0]];
  }
}

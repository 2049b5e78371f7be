/**
 Loss on the way to the writer is visible in its gap counter, over every schedule of the
 pipeline: sequence numbers are used up by failed sends, links are FIFO, and the writer checks
 the numbers of every source.
 */
module LossDetection {
  import opened Messages
  import opened Sender
  import opened Links
  import opened RunWriter
  import opened Pipeline

  /** The numbered messages among those received. */
  function Receipts(ms: seq<RawMessage>): seq<Receipt> {
    if ms == [] then []
    else
      var m := ms[|ms| - 1];
      Receipts(ms[..|ms| - 1]) + if m.Data? then [Receipt(m.source, m.seqNo)] else []
  }

  lemma {:induction false} NumbersSnoc(rs: seq<Receipt>, r: Receipt, source: nat)
    ensures NumbersFrom(rs + [r], source)
            == NumbersFrom(rs, source) + if r.source == source then [r.seqNo] else []
    ensures ObserveAll(rs + [r]) == Observe(ObserveAll(rs), r.source, r.seqNo)
  {
    assert (rs + [r])[..|rs|] == rs;
  }

  /** Looking at one source of the mixture is looking at its link. */
  lemma {:induction false} NumbersOfOneSource(ms: seq<RawMessage>, source: nat)
    ensures NumbersFrom(Receipts(ms), source) == DataNumbers(From(ms, source))
  {
    if ms != [] {
      var n := |ms| - 1;
      var before, m := ms[..n], ms[n];
      NumbersOfOneSource(before, source);
      assert ms == before + [m];
      FromSnoc(before, m, source);
      DataNumbersSnoc(From(before, source), m);
      if m.Data? {
        NumbersSnoc(Receipts(before), Receipt(m.source, m.seqNo), source);
      } else {
        assert Receipts(before) + [] == Receipts(before);
      }
    }
  }

  /** The writer's check saw exactly the numbered messages. */
  lemma {:induction false} WriterChecksAll(p: Params, received: seq<RawMessage>)
    requires ReceivedOk(p, received)
    ensures ReceiveAll(p.expected, p.run, received).ledger.check == ObserveAll(Receipts(received))
  {
    if received != [] {
      var n := |received| - 1;
      var before, m := received[..n], received[n];
      ReceivedBefore(p, received);
      WriterChecksAll(p, before);
      if m.Data? {
        NumbersSnoc(Receipts(before), Receipt(m.source, m.seqNo), 0);
      } else {
        assert Receipts(before) + [] == Receipts(before);
      }
    }
  }

  lemma {:induction false} PrefixIsSubsequence<T>(xs: seq<T>, k: nat, ys: seq<T>)
    requires Subsequence(xs, ys) && k <= |xs|
    ensures Subsequence(xs[..k], ys)
    decreases |ys|, |xs|
  {
    if xs != [] && k < |xs| {
      var n := |ys| - 1;
      if Subsequence(xs, ys[..n]) {
        PrefixIsSubsequence(xs, k, ys[..n]);
      } else {
        assert xs[..|xs| - 1][..k] == xs[..k];
        PrefixIsSubsequence(xs[..|xs| - 1], k, ys[..n]);
      }
      assert k > 0 ==> Subsequence(xs[..k], ys[..n]);
    } else {
      assert xs[..k] == xs;
    }
  }

  lemma {:induction false} NumbersOfPrefix(ms: seq<RawMessage>, k: nat)
    requires k <= |ms|
    ensures DataNumbers(ms[..k]) <= DataNumbers(ms)
  {
    if k == |ms| {
      assert ms[..k] == ms;
    } else {
      assert ms[..|ms| - 1][..k] == ms[..k];
      NumbersOfPrefix(ms[..|ms| - 1], k);
    }
  }

  /** The batches a source has put on its links, delivered or not. */
  function SentBy(y: System, source: nat): nat {
    if source in y.nodes then BatchCount(y.nodes[source].sender.log.emitted) else 0
  }

  /** What a reader has of a link are, in order, some of its numbers. */
  lemma {:induction false} FollowedNumbers(
      id: Ident, es: seq<Emission>, ok: seq<bool>, taken: nat, ms: seq<RawMessage>)
    requires Follows(id, es, ok, taken, ms)
    ensures Subsequence(DataNumbers(From(ms, id.source)), UpTo(BatchCount(es)))
  {
    var link := Wire(id, es, ok);
    LinkNumbers(id, es, ok);
    NumbersOfPrefix(link, taken);
    var all, some := DataNumbers(link), DataNumbers(link[..taken]);
    assert some == all[..|some|];
    PrefixIsSubsequence(all, |some|, UpTo(BatchCount(es)));
  }

  /** Messages come from the sources only. */
  ghost predicate FromSources(ms: seq<RawMessage>, sources: set<nat>) {
    forall i :: 0 <= i < |ms| ==> ms[i].source in sources
  }

  lemma {:induction false} NothingFromStrangers(p: Params, sources: set<nat>, steps: seq<Step>)
    ensures FromSources(After(p, sources, steps).received, sources)
    ensures FromSources(After(p, sources, steps).feed, sources)
  {
    EverySchedule(p, sources, steps);
    if steps != [] {
      var n := |steps| - 1;
      NothingFromStrangers(p, sources, steps[..n]);
      EverySchedule(p, sources, steps[..n]);
      StrangerStep(p, sources, After(p, sources, steps[..n]), steps[n]);
    }
  }

  lemma {:induction false} WriterTakesOwn(p: Params, y: System, source: nat, sources: set<nat>)
    requires AllSources(p, y) && source in y.nodes && source in sources && FromSources(y.received, sources)
    ensures FromSources(WriterTakes(p, y, source).received, sources)
  {
    var n := y.nodes[source];
    var l := n.sender.log;
    assert SourceInv(p, n, source, y.received, y.feed);
    if n.written < |Wire(Ident(source, p.run), l.emitted, l.ok0)| {
      WireIdent(Ident(source, p.run), l.emitted, l.ok0, n.written);
    }
  }

  lemma {:induction false} DecoderTakesOwn(p: Params, y: System, source: nat, sources: set<nat>)
    requires AllSources(p, y) && source in y.nodes && source in sources && FromSources(y.feed, sources)
    ensures FromSources(DecoderTakes(p, y, source).feed, sources)
  {
    var n := y.nodes[source];
    var l := n.sender.log;
    assert SourceInv(p, n, source, y.received, y.feed);
    if n.decoded < |Wire(Ident(source, p.run), l.emitted, l.ok1)| {
      WireIdent(Ident(source, p.run), l.emitted, l.ok1, n.decoded);
    }
  }

  lemma {:induction false} StrangerStep(p: Params, sources: set<nat>, y: System, step: Step)
    requires SystemInv(p, y) && y.nodes.Keys == sources
    requires FromSources(y.received, sources) && FromSources(y.feed, sources)
    ensures FromSources(Apply(p, y, step).received, sources)
    ensures FromSources(Apply(p, y, step).feed, sources)
  {
    if step.source in y.nodes {
      if step.WriterTake? {
        WriterTakesOwn(p, y, step.source, sources);
      } else if step.DecoderTake? {
        DecoderTakesOwn(p, y, step.source, sources);
      }
    }
  }

  lemma {:induction false} NothingFrom(ms: seq<RawMessage>, sources: set<nat>, source: nat)
    requires FromSources(ms, sources) && source !in sources
    ensures From(ms, source) == []
  {
    if ms != [] {
      NothingFrom(ms[..|ms| - 1], sources, source);
    }
  }

  /** For any reader: no gap iff what it has of every source are the first numbers. */
  lemma {:induction false} GapsOfAReader(ms: seq<RawMessage>, sent: nat -> nat)
    requires forall s: nat :: Subsequence(DataNumbers(From(ms, s)), UpTo(sent(s)))
    ensures ObserveAll(Receipts(ms)).gaps == 0
            <==> forall s: nat :: DataNumbers(From(ms, s)) <= UpTo(sent(s))
  {
    forall s: nat ensures NumbersFrom(Receipts(ms), s) == DataNumbers(From(ms, s)) {
      NumbersOfOneSource(ms, s);
    }
    LossIsDetected(Receipts(ms), sent);
  }

  /** What the writer and the decoder have of a source are some of its numbers, in order. */
  lemma {:induction false} ReaderNumbers(p: Params, sources: set<nat>, steps: seq<Step>, s: nat)
    ensures var y := After(p, sources, steps);
            && Subsequence(DataNumbers(From(y.received, s)), UpTo(SentBy(y, s)))
            && Subsequence(DataNumbers(From(y.feed, s)), UpTo(SentBy(y, s)))
  {
    EverySchedule(p, sources, steps);
    var y := After(p, sources, steps);
    if s in y.nodes {
      var n := y.nodes[s];
      var l := n.sender.log;
      assert SourceInv(p, n, s, y.received, y.feed);
      FollowedNumbers(Ident(s, p.run), l.emitted, l.ok0, n.written, y.received);
      FollowedNumbers(Ident(s, p.run), l.emitted, l.ok1, n.decoded, y.feed);
    } else {
      NothingFromStrangers(p, sources, steps);
      NothingFrom(y.received, sources, s);
      NothingFrom(y.feed, sources, s);
    }
  }

  /**
   After every schedule the writer's gap counter is zero iff from every source it received the
   first batches without a hole: a batch that was lost shows as soon as a later one arrives,
   and only a missing tail goes uncounted.
   */
  lemma {:induction false} GapsShowEveryLossButATail(p: Params, sources: set<nat>, steps: seq<Step>)
    ensures var y := After(p, sources, steps);
            y.intake.ledger.check.gaps == 0
            <==> forall s: nat :: DataNumbers(From(y.received, s)) <= UpTo(SentBy(y, s))
  {
    EverySchedule(p, sources, steps);
    var y := After(p, sources, steps);
    WriterChecksAll(p, y.received);
    var sent := s => SentBy(y, s);
    forall s: nat ensures Subsequence(DataNumbers(From(y.received, s)), UpTo(sent(s))) {
      ReaderNumbers(p, sources, steps, s);
    }
    GapsOfAReader(y.received, sent);
  }

  /** The same for a check that sees all that the decoder takes off the links. */
  lemma {:induction false} FeedGapsShowEveryLossButATail(p: Params, sources: set<nat>, steps: seq<Step>)
    ensures var y := After(p, sources, steps);
            ObserveAll(Receipts(y.feed)).gaps == 0
            <==> forall s: nat :: DataNumbers(From(y.feed, s)) <= UpTo(SentBy(y, s))
  {
    var y := After(p, sources, steps);
    var sent := s => SentBy(y, s);
    forall s: nat ensures Subsequence(DataNumbers(From(y.feed, s)), UpTo(sent(s))) {
      ReaderNumbers(p, sources, steps, s);
    }
    GapsOfAReader(y.feed, sent);
  }

  /** Without a gap, the batches received from a source are the first batches of its sender. */
  lemma {:induction false} NoGapMeansFirstBatches(
      p: Params, sources: set<nat>, steps: seq<Step>, s: nat)
    requires s in sources && After(p, sources, steps).intake.ledger.check.gaps == 0
    ensures var y := After(p, sources, steps);
            s in y.nodes && Payloads(From(y.received, s)) <= Batches(y.nodes[s].sender.log.emitted)
  {
    EverySchedule(p, sources, steps);
    GapsShowEveryLossButATail(p, sources, steps);
    var y := After(p, sources, steps);
    var n := y.nodes[s];
    assert SourceInv(p, n, s, y.received, y.feed);
    ReceivedIsNamed(Ident(s, p.run), n.sender.log.emitted, n.sender.log.ok0, n.written, y.received);
    assert DataNumbers(From(y.received, s)) <= UpTo(SentBy(y, s));
    PayloadsArePrefix(From(y.received, s), n.sender.log.emitted);
  }

  /** The batch counters of the writer count what it received from each source. */
  lemma {:induction false} BatchCountersAreExact(p: Params, sources: set<nat>, steps: seq<Step>, s: nat)
    ensures var y := After(p, sources, steps);
            EntryOf(y.intake.ledger.check.batches, s) == |DataNumbers(From(y.received, s))|
  {
    EverySchedule(p, sources, steps);
    var y := After(p, sources, steps);
    WriterChecksAll(p, y.received);
    BatchesAreCounted(Receipts(y.received), s);
    NumbersOfOneSource(y.received, s);
  }
}

/**
 What a link carries of what its sender emitted, under which numbers, and what a reader at the
 other end has seen of it. A reader takes messages off several links; each link is FIFO.
 */
module Links {
  import opened Bytes
  import opened Drain
  import opened Messages
  import opened Sender

  // ---------------------------------------------------------------------
  // Sequence numbers
  // ---------------------------------------------------------------------

  /** The n-th batch. */
  function NthBatch(es: seq<Emission>, n: nat): seq<seq<byte>>
    requires n < BatchCount(es)
  {
    var k := |es| - 1;
    if es[k].Batch? && BatchCount(es[..k]) == n then es[k].frames else NthBatch(es[..k], n)
  }

  function NumberOf(m: RawMessage): seq<nat> {
    if m.Data? then [m.seqNo] else []
  }

  function DataNumbers(ms: seq<RawMessage>): seq<nat> {
    if ms == [] then [] else DataNumbers(ms[..|ms| - 1]) + NumberOf(ms[|ms| - 1])
  }

  lemma {:induction false} DataNumbersSnoc(ms: seq<RawMessage>, m: RawMessage)
    ensures DataNumbers(ms + [m]) == DataNumbers(ms) + NumberOf(m)
  {
    assert (ms + [m])[..|ms|] == ms;
  }

  /**
   Both links carry the same payload under the same number, whatever failed on either: a
   number stands for one batch of the sender.
   */
  lemma {:induction false} NumbersNameBatches(id: Ident, es: seq<Emission>, ok: seq<bool>, i: nat)
    requires |ok| == |es| && i < |Wire(id, es, ok)| && Wire(id, es, ok)[i].Data?
    ensures var m := Wire(id, es, ok)[i];
            && m.seqNo < BatchCount(es)
            && m.payload == NthBatch(es, m.seqNo)
            && m.source == id.source && m.run == id.run
  {
    var n := |es| - 1;
    if i < |Wire(id, es[..n], ok[..n])| {
      NumbersNameBatches(id, es[..n], ok[..n], i);
    }
  }

  lemma {:induction false} WireNumbers(id: Ident, es: seq<Emission>, ok: seq<bool>)
    requires |ok| == |es| > 0
    ensures var n := |es| - 1;
            DataNumbers(Wire(id, es, ok))
            == DataNumbers(Wire(id, es[..n], ok[..n]))
               + if ok[n] && es[n].Batch? then [BatchCount(es[..n])] else []
  {
    var n := |es| - 1;
    var before, m := Wire(id, es[..n], ok[..n]), ToMessage(id, es[n], BatchCount(es[..n]));
    DataNumbersSnoc(before, m);
    if !ok[n] {
      assert Wire(id, es, ok) == before;
    }
  }

  lemma UpToSnoc(k: nat)
    ensures UpTo(k + 1) == UpTo(k) + [k]
  {
  }

  lemma {:induction false} NumbersStep(xs: seq<nat>, k: nat, taken: bool)
    requires Subsequence(xs, UpTo(k))
    ensures Subsequence(if taken then xs + [k] else xs, UpTo(k + 1))
  {
    UpToSnoc(k);
    SubsequenceSnoc(xs, UpTo(k), k);
  }

  /** The numbers on a link are an in-order selection of 0, 1, 2, ... */
  lemma {:induction false} LinkNumbers(id: Ident, es: seq<Emission>, ok: seq<bool>)
    requires |ok| == |es|
    ensures Subsequence(DataNumbers(Wire(id, es, ok)), UpTo(BatchCount(es)))
  {
    if es != [] {
      var n := |es| - 1;
      LinkNumbers(id, es[..n], ok[..n]);
      WireNumbers(id, es, ok);
      var xs := DataNumbers(Wire(id, es[..n], ok[..n]));
      assert xs + [] == xs;
      if es[n].Batch? {
        NumbersStep(xs, BatchCount(es[..n]), ok[n]);
      }
    }
  }

  /** No batch and no mark failed; heartbeats carry nothing. */
  ghost predicate NothingLost(es: seq<Emission>, ok: seq<bool>) {
    |ok| == |es| && forall i :: 0 <= i < |es| ==> ok[i] || es[i].Beat?
  }

  /** They are all of 0, 1, 2, ... if no batch failed. */
  lemma {:induction false} LinkNumbersComplete(id: Ident, es: seq<Emission>, ok: seq<bool>)
    requires NothingLost(es, ok)
    ensures DataNumbers(Wire(id, es, ok)) == UpTo(BatchCount(es))
  {
    if es != [] {
      var n := |es| - 1;
      LinkNumbersComplete(id, es[..n], ok[..n]);
      WireNumbers(id, es, ok);
      UpToSnoc(BatchCount(es[..n]));
    }
  }

  // ---------------------------------------------------------------------
  // Payloads
  // ---------------------------------------------------------------------

  /** The batches among messages, in order. */
  function Payloads(ms: seq<RawMessage>): seq<seq<seq<byte>>> {
    if ms == [] then []
    else Payloads(ms[..|ms| - 1]) + if ms[|ms| - 1].Data? then [ms[|ms| - 1].payload] else []
  }

  /** The batches of a sender, in order. */
  function Batches(es: seq<Emission>): seq<seq<seq<byte>>> {
    seq(BatchCount(es), n requires 0 <= n < BatchCount(es) => NthBatch(es, n))
  }

  /** Every number stands for the batch it was given to. */
  ghost predicate Named(ms: seq<RawMessage>, es: seq<Emission>) {
    forall i :: 0 <= i < |ms| && ms[i].Data? ==>
                  ms[i].seqNo < BatchCount(es) && ms[i].payload == NthBatch(es, ms[i].seqNo)
  }

  lemma {:induction false} PayloadsFollowNumbers(ms: seq<RawMessage>, es: seq<Emission>)
    requires Named(ms, es)
    ensures |Payloads(ms)| == |DataNumbers(ms)|
    ensures forall i :: 0 <= i < |Payloads(ms)| ==>
                          && DataNumbers(ms)[i] < BatchCount(es)
                          && Payloads(ms)[i] == NthBatch(es, DataNumbers(ms)[i])
  {
    if ms != [] {
      PayloadsFollowNumbers(ms[..|ms| - 1], es);
    }
  }

  /** Numbers without a hole mean batches without a hole. */
  lemma {:induction false} PayloadsArePrefix(ms: seq<RawMessage>, es: seq<Emission>)
    requires Named(ms, es) && DataNumbers(ms) <= UpTo(BatchCount(es))
    ensures Payloads(ms) <= Batches(es)
  {
    PayloadsFollowNumbers(ms, es);
    forall i | 0 <= i < |Payloads(ms)| ensures Payloads(ms)[i] == Batches(es)[i] {
      assert DataNumbers(ms)[i] == UpTo(BatchCount(es))[i] == i;
    }
  }

  // ---------------------------------------------------------------------
  // What is on a link, and what is not
  // ---------------------------------------------------------------------

  /** The queue messages that a link message accounts for. */
  function UnwireOne(m: RawMessage): seq<FrameMsg> {
    match m
    case Data(_, _, _, frames) => FrameMsgs(frames)
    case EndOfStream(_, _) => [Eos]
    case Heartbeat(_, _, _) => []
  }

  function Unwire(ms: seq<RawMessage>): seq<FrameMsg> {
    if ms == [] then [] else Unwire(ms[..|ms| - 1]) + UnwireOne(ms[|ms| - 1])
  }

  lemma {:induction false} UnwireSnoc(ms: seq<RawMessage>, m: RawMessage)
    ensures Unwire(ms + [m]) == Unwire(ms) + UnwireOne(m)
  {
    assert (ms + [m])[..|ms|] == ms;
  }

  lemma {:induction false} UnwireConcat(a: seq<RawMessage>, b: seq<RawMessage>)
    ensures Unwire(a + b) == Unwire(a) + Unwire(b)
  {
    if b == [] {
      assert a + b == a;
    } else {
      var n := |b| - 1;
      UnwireConcat(a, b[..n]);
      SplitLast(a, b);
      UnwireSnoc(a + b[..n], b[n]);
      Associate(Unwire(a), Unwire(b[..n]), UnwireOne(b[n]));
    }
  }

  /** The queue messages of the emissions that did get through (`through`), or did not. */
  function Share(es: seq<Emission>, ok: seq<bool>, through: bool): seq<FrameMsg>
    requires |ok| == |es|
  {
    if es == [] then []
    else
      var n := |es| - 1;
      Share(es[..n], ok[..n], through) + if ok[n] == through then UnbatchOne(es[n]) else []
  }

  /** What can be read off a link is what got through. */
  lemma {:induction false} LinkCarriesItsShare(id: Ident, es: seq<Emission>, ok: seq<bool>)
    requires |ok| == |es|
    ensures Unwire(Wire(id, es, ok)) == Share(es, ok, true)
  {
    if es != [] {
      var n := |es| - 1;
      var before := Wire(id, es[..n], ok[..n]);
      LinkCarriesItsShare(id, es[..n], ok[..n]);
      if ok[n] {
        UnwireSnoc(before, ToMessage(id, es[n], BatchCount(es[..n])));
      } else {
        assert Wire(id, es, ok) == before && Unwire(before) + [] == Unwire(before);
      }
    }
  }

  lemma {:induction false} SubsequenceAppend<T>(xs: seq<T>, ys: seq<T>, zs: seq<T>)
    requires Subsequence(xs, ys)
    ensures Subsequence(xs + zs, ys + zs) && Subsequence(xs, ys + zs)
  {
    if zs == [] {
      assert xs + zs == xs && ys + zs == ys;
    } else {
      var n := |zs| - 1;
      SubsequenceAppend(xs, ys, zs[..n]);
      SplitLast(xs, zs);
      SplitLast(ys, zs);
      SubsequenceSnoc(xs + zs[..n], ys + zs[..n], zs[n]);
      SubsequenceSnoc(xs, ys + zs[..n], zs[n]);
    }
  }

  lemma {:induction false} ShareIsInOrder(es: seq<Emission>, ok: seq<bool>)
    requires |ok| == |es|
    ensures Subsequence(Share(es, ok, true), Unbatch(es))
  {
    if es != [] {
      var n := |es| - 1;
      ShareIsInOrder(es[..n], ok[..n]);
      SubsequenceAppend(Share(es[..n], ok[..n], true), Unbatch(es[..n]), UnbatchOne(es[n]));
      assert Share(es[..n], ok[..n], true) + [] == Share(es[..n], ok[..n], true);
    }
  }

  /** Everything emitted is in exactly one share. */
  lemma {:induction false} SharesMakeUpTheWhole(es: seq<Emission>, ok: seq<bool>)
    requires |ok| == |es|
    ensures multiset(Unbatch(es)) == multiset(Share(es, ok, true)) + multiset(Share(es, ok, false))
  {
    if es != [] {
      var n := |es| - 1;
      SharesMakeUpTheWhole(es[..n], ok[..n]);
      ShareStep(Share(es[..n], ok[..n], true), UnbatchOne(es[n]));
      ShareStep(Share(es[..n], ok[..n], false), UnbatchOne(es[n]));
      ShareStep(Unbatch(es[..n]), UnbatchOne(es[n]));
    }
  }

  lemma ShareStep(before: seq<FrameMsg>, one: seq<FrameMsg>)
    ensures before + [] == before && multiset(before + one) == multiset(before) + multiset(one)
  {
  }

  lemma {:induction false} NothingLostShare(es: seq<Emission>, ok: seq<bool>)
    requires NothingLost(es, ok)
    ensures Share(es, ok, true) == Unbatch(es) && Share(es, ok, false) == []
  {
    if es != [] {
      NothingLostShare(es[..|es| - 1], ok[..|es| - 1]);
    }
  }

  // ---------------------------------------------------------------------
  // A reader
  // ---------------------------------------------------------------------

  /** The messages received from one source, in order. */
  function From(ms: seq<RawMessage>, source: nat): seq<RawMessage> {
    if ms == [] then []
    else
      From(ms[..|ms| - 1], source)
      + if ms[|ms| - 1].source == source then [ms[|ms| - 1]] else []
  }

  lemma {:induction false} FromSnoc(ms: seq<RawMessage>, m: RawMessage, source: nat)
    ensures From(ms + [m], source) == if m.source == source then From(ms, source) + [m] else From(ms, source)
  {
    assert (ms + [m])[..|ms|] == ms;
  }

  lemma {:induction false} WireIdent(id: Ident, es: seq<Emission>, ok: seq<bool>, i: nat)
    requires |ok| == |es| && i < |Wire(id, es, ok)|
    ensures Wire(id, es, ok)[i].source == id.source && Wire(id, es, ok)[i].run == id.run
  {
    var n := |es| - 1;
    if i < |Wire(id, es[..n], ok[..n])| {
      WireIdent(id, es[..n], ok[..n], i);
    }
  }

  /** A reader that has received `ms` has taken the first `taken` messages off this link. */
  ghost predicate Follows(id: Ident, es: seq<Emission>, ok: seq<bool>, taken: nat, ms: seq<RawMessage>) {
    && |ok| == |es| && taken <= |Wire(id, es, ok)|
    && From(ms, id.source) == Wire(id, es, ok)[..taken]
  }

  lemma {:induction false} TakeFollows(
      id: Ident, es: seq<Emission>, ok: seq<bool>, taken: nat, ms: seq<RawMessage>)
    requires Follows(id, es, ok, taken, ms) && taken < |Wire(id, es, ok)|
    ensures var m := Wire(id, es, ok)[taken];
            && m.source == id.source && m.run == id.run
            && Follows(id, es, ok, taken + 1, ms + [m])
  {
    var link := Wire(id, es, ok);
    WireIdent(id, es, ok, taken);
    FromSnoc(ms, link[taken], id.source);
    assert link[..taken + 1] == link[..taken] + [link[taken]];
  }

  lemma {:induction false} OtherFollows(
      id: Ident, es: seq<Emission>, ok: seq<bool>, taken: nat, ms: seq<RawMessage>, m: RawMessage)
    requires Follows(id, es, ok, taken, ms) && m.source != id.source
    ensures Follows(id, es, ok, taken, ms + [m])
  {
    FromSnoc(ms, m, id.source);
  }

  lemma {:induction false} EmissionFollows(
      id: Ident, es: seq<Emission>, ok: seq<bool>, taken: nat, ms: seq<RawMessage>, e: Emission,
      sent: bool)
    requires Follows(id, es, ok, taken, ms)
    ensures Follows(id, es + [e], ok + [sent], taken, ms)
  {
    LinkSnoc(id, es, ok, e, sent);
    var a, b := Wire(id, es, ok), Wire(id, es + [e], ok + [sent]);
    assert b[..taken] == a[..taken];
  }

  /** What a reader received of a source is named by the source's numbers. */
  lemma {:induction false} ReceivedIsNamed(
      id: Ident, es: seq<Emission>, ok: seq<bool>, taken: nat, ms: seq<RawMessage>)
    requires Follows(id, es, ok, taken, ms)
    ensures Named(From(ms, id.source), es)
  {
    var mine := From(ms, id.source);
    forall i | 0 <= i < |mine| && mine[i].Data?
      ensures mine[i].seqNo < BatchCount(es) && mine[i].payload == NthBatch(es, mine[i].seqNo)
    {
      assert mine[i] == Wire(id, es, ok)[i];
      NumbersNameBatches(id, es, ok, i);
    }
  }

  /**
   Received, in flight, and the share that failed: together exactly what was emitted, the first
   two in order. Without a failure they are all there is.
   */
  lemma {:induction false} ReceivedAndInFlight(
      id: Ident, es: seq<Emission>, ok: seq<bool>, taken: nat, ms: seq<RawMessage>)
    requires Follows(id, es, ok, taken, ms)
    ensures var there := Unwire(From(ms, id.source)) + Unwire(Wire(id, es, ok)[taken..]);
            && Subsequence(there, Unbatch(es))
            && multiset(Unbatch(es)) == multiset(there) + multiset(Share(es, ok, false))
            && (NothingLost(es, ok) ==> there == Unbatch(es))
  {
    var link := Wire(id, es, ok);
    assert link == link[..taken] + link[taken..];
    UnwireConcat(link[..taken], link[taken..]);
    LinkCarriesItsShare(id, es, ok);
    ShareIsInOrder(es, ok);
    SharesMakeUpTheWhole(es, ok);
    if NothingLost(es, ok) {
      NothingLostShare(es, ok);
    }
  }
}

/**
 Messages between components (src/msg.rs) and the per-source sequence-number check that both
 consumers of raw frames perform (src/decoder.rs, src/graw_writer.rs).
 */
module Messages {
  import opened Bytes

  datatype Message<+P> =
    | Data(source: nat, run: nat, seqNo: nat, payload: P)
    | EndOfStream(source: nat, run: nat)
    | Heartbeat(source: nat, run: nat, counter: nat)

  /** What a receiver sends: a batch is a list of raw frames. */
  type RawMessage = Message<seq<seq<byte>>>

  // ---------------------------------------------------------------------
  // Gap detection
  // ---------------------------------------------------------------------

  /** Per source the next number and the batches so far, and the gaps of all sources. */
  datatype SeqCheck = SeqCheck(next: map<nat, nat>, gaps: nat, batches: map<nat, nat>)

  const FRESH_CHECK := SeqCheck(map[], 0, map[])

  /** The entry of a source, zero if there is none yet. */
  function EntryOf(next: map<nat, nat>, source: nat): nat {
    if source in next then next[source] else 0
  }

  /** One received batch: a number other than the expected one is a gap; then resynchronise. */
  function Observe(c: SeqCheck, source: nat, seqNo: nat): SeqCheck {
    SeqCheck(c.next[source := seqNo + 1],
             c.gaps + (if seqNo != EntryOf(c.next, source) then 1 else 0),
             c.batches[source := EntryOf(c.batches, source) + 1])
  }

  datatype Receipt = Receipt(source: nat, seqNo: nat)

  function ObserveAll(rs: seq<Receipt>): SeqCheck {
    if rs == [] then FRESH_CHECK
    else
      var last := rs[|rs| - 1];
      Observe(ObserveAll(rs[..|rs| - 1]), last.source, last.seqNo)
  }

  /** The numbers received from one source, in order of receipt. */
  function NumbersFrom(rs: seq<Receipt>, source: nat): seq<nat> {
    if rs == [] then []
    else
      var before := NumbersFrom(rs[..|rs| - 1], source);
      var last := rs[|rs| - 1];
      if last.source == source then before + [last.seqNo] else before
  }

  /** 0, 1, ..., n - 1 */
  function UpTo(n: nat): seq<nat> {
    seq(n, i => i)
  }

  lemma {:induction false} ExpectedIsLastPlusOne(rs: seq<Receipt>, source: nat)
    ensures var ns := NumbersFrom(rs, source);
            EntryOf(ObserveAll(rs).next, source) == if ns == [] then 0 else ns[|ns| - 1] + 1
  {
    if rs != [] {
      ExpectedIsLastPlusOne(rs[..|rs| - 1], source);
    }
  }

  /** The batch counters are the numbers of batches received from each source. */
  lemma {:induction false} BatchesAreCounted(rs: seq<Receipt>, source: nat)
    ensures EntryOf(ObserveAll(rs).batches, source) == |NumbersFrom(rs, source)|
  {
    if rs != [] {
      BatchesAreCounted(rs[..|rs| - 1], source);
    }
  }

  predicate Contiguous(ns: seq<nat>) {
    ns == UpTo(|ns|)
  }

  ghost predicate AllContiguous(rs: seq<Receipt>) {
    forall s: nat :: Contiguous(NumbersFrom(rs, s))
  }

  /** The gap counter stays zero iff every source's numbers count up from zero without a hole. */
  lemma {:induction false} NoGapIffContiguous(rs: seq<Receipt>)
    ensures ObserveAll(rs).gaps == 0 <==> AllContiguous(rs)
  {
    if rs != [] {
      var before, last := rs[..|rs| - 1], rs[|rs| - 1];
      NoGapIffContiguous(before);
      ExpectedIsLastPlusOne(before, last.source);
      var ns := NumbersFrom(before, last.source);
      SnocContiguous(ns, last.seqNo);
      forall s: nat
        ensures Contiguous(NumbersFrom(rs, s))
                <==> Contiguous(NumbersFrom(before, s)) && (s == last.source ==> last.seqNo == |ns|)
      {
      }
      assert AllContiguous(rs) <==> AllContiguous(before) && last.seqNo == |ns|;
      assert AllContiguous(before) ==> Contiguous(ns);
    }
  }

  lemma {:induction false} SnocContiguous(ns: seq<nat>, n: nat)
    ensures Contiguous(ns + [n]) <==> Contiguous(ns) && n == |ns|
  {
    if ns + [n] == UpTo(|ns| + 1) {
      assert ns == (ns + [n])[..|ns|] == UpTo(|ns|);
      assert (ns + [n])[|ns|] == n;
    }
  }

  /** `xs` arises from `ys` by deleting elements. */
  ghost predicate Subsequence<T>(xs: seq<T>, ys: seq<T>) {
    if xs == [] then true
    else if ys == [] then false
    else
      || Subsequence(xs, ys[..|ys| - 1])
      || (xs[|xs| - 1] == ys[|ys| - 1] && Subsequence(xs[..|xs| - 1], ys[..|ys| - 1]))
  }

  /**
   Sequence numbers detect loss. If each source sent a contiguous run of numbered batches and
   what arrived is, per source, an in-order subsequence of it, then the gap counter is zero iff
   what arrived is a prefix of what was sent: only a missing tail goes unnoticed.
   */
  lemma {:induction false} LossIsDetected(rs: seq<Receipt>, sent: nat -> nat)
    requires forall s: nat :: Subsequence(NumbersFrom(rs, s), UpTo(sent(s)))
    ensures ObserveAll(rs).gaps == 0 <==> forall s: nat :: NumbersFrom(rs, s) <= UpTo(sent(s))
  {
    NoGapIffContiguous(rs);
    forall s: nat
      ensures Contiguous(NumbersFrom(rs, s)) <==> NumbersFrom(rs, s) <= UpTo(sent(s))
    {
      var ns := NumbersFrom(rs, s);
      SubsequenceIsShorter(ns, UpTo(sent(s)));
      assert UpTo(|ns|) == UpTo(sent(s))[..|ns|];
    }
  }

  lemma {:induction false} SubsequenceSnoc<T>(xs: seq<T>, ys: seq<T>, y: T)
    requires Subsequence(xs, ys)
    ensures Subsequence(xs, ys + [y]) && Subsequence(xs + [y], ys + [y])
  {
    assert (ys + [y])[..|ys|] == ys && (xs + [y])[..|xs|] == xs;
  }

  lemma {:induction false} SubsequenceIsShorter<T>(xs: seq<T>, ys: seq<T>)
    requires Subsequence(xs, ys)
    ensures |xs| <= |ys|
  {
    if xs != [] {
      if Subsequence(xs, ys[..|ys| - 1]) {
        SubsequenceIsShorter(xs, ys[..|ys| - 1]);
      } else {
        SubsequenceIsShorter(xs[..|xs| - 1], ys[..|ys| - 1]);
      }
    }
  }
}

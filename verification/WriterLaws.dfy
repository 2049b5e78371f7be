/**
 The writer, read off the messages alone: which frames belong to a key, how far it listens, what
 it counts, and that messages of another run leave nothing behind but a count.
 */
module WriterLaws {
  import opened Bytes
  import opened Decode
  import opened Messages
  import opened Paths
  import opened GrawWriter
  import opened RunWriter

  // ---------------------------------------------------------------------
  // Routing
  // ---------------------------------------------------------------------

  /** Byte 27 of a data frame names its AsAd; every other frame belongs under ctrl. */
  predicate BelongsTo(source: nat, frame: seq<byte>, key: FileKey) {
    var data := |frame| >= 28 && (WireType(frame) == 1 || WireType(frame) == 2);
    match key
    case Asad(cobo, asad) => cobo == source && data && frame[27] == asad
    case Ctrl(cobo) => cobo == source && !data
  }

  lemma {:induction false} KeyIsWhereItBelongs(source: nat, frame: seq<byte>, key: FileKey)
    ensures KeyOf(source, frame) == key <==> BelongsTo(source, frame, key)
  {
    PeeksFromBytes(frame);
  }

  /** The frames of a source that belong to a key, in order. */
  function RouteFrames(source: nat, frames: seq<seq<byte>>, key: FileKey): seq<seq<byte>> {
    if frames == [] then []
    else
      var n := |frames| - 1;
      RouteFrames(source, frames[..n], key)
      + if BelongsTo(source, frames[n], key) then [frames[n]] else []
  }

  lemma {:induction false} RouteConcat(source: nat, a: seq<seq<byte>>, b: seq<seq<byte>>, key: FileKey)
    ensures RouteFrames(source, a + b, key) == RouteFrames(source, a, key) + RouteFrames(source, b, key)
  {
    if b == [] {
      assert a + b == a;
    } else {
      var n := |b| - 1;
      assert (a + b)[..|a + b| - 1] == a + b[..n];
      RouteConcat(source, a, b[..n], key);
    }
  }

  /** A batch is routed frame by frame; batches of other sources do not touch the key. */
  lemma {:induction false} RoutedBatch(
      writes: seq<Write>, source: nat, frames: seq<seq<byte>>, key: FileKey)
    ensures Routed(writes + BatchWrites(source, frames), key)
            == Routed(writes, key)
               + if key.cobo == source then RouteFrames(source, frames, key) else []
  {
    if frames == [] {
      assert writes + BatchWrites(source, frames) == writes;
    } else {
      var n := |frames| - 1;
      RoutedBatch(writes, source, frames[..n], key);
      BatchWritesSnoc(source, frames, n);
      assert frames[..n + 1] == frames;
      KeyIsWhereItBelongs(source, frames[n], key);
      var w := Write(KeyOf(source, frames[n]), frames[n]);
      RoutedSnoc(writes + BatchWrites(source, frames[..n]), w, key);
      Associate(writes, BatchWrites(source, frames[..n]), [w]);
      Associate(Routed(writes, key), RouteFrames(source, frames[..n], key),
                if w.key == key then [frames[n]] else []);
    }
  }

  // ---------------------------------------------------------------------
  // How far the writer listens
  // ---------------------------------------------------------------------

  /** An end of stream that counts for closing the run. */
  predicate Closes(m: RawMessage, run: nat, expected: set<nat>) {
    m.EndOfStream? && m.run == run && m.source in expected
  }

  function ClosedBy(ms: seq<RawMessage>, run: nat, expected: set<nat>): set<nat> {
    if ms == [] then {}
    else
      var m := ms[|ms| - 1];
      ClosedBy(ms[..|ms| - 1], run, expected) + if Closes(m, run, expected) then {m.source} else {}
  }

  predicate AllClosed(ms: seq<RawMessage>, run: nat, expected: set<nat>) {
    expected != {} && expected <= ClosedBy(ms, run, expected)
  }

  /** The messages up to the last expected end of stream, or all of them. */
  function Heard(ms: seq<RawMessage>, run: nat, expected: set<nat>): seq<RawMessage> {
    if ms == [] || !AllClosed(ms[..|ms| - 1], run, expected) then ms
    else Heard(ms[..|ms| - 1], run, expected)
  }

  // ---------------------------------------------------------------------
  // What the writer does with what it hears
  // ---------------------------------------------------------------------

  /** A batch or an end of stream of another run. */
  function ForeignTo(run: nat): RawMessage -> bool {
    (m: RawMessage) => !m.Heartbeat? && m.run != run
  }

  function ForeignBatch(run: nat): RawMessage -> bool {
    (m: RawMessage) => m.Data? && m.run != run
  }

  /** An end of stream of this run, but of a source that is not expected. */
  function StrayEnd(run: nat, expected: set<nat>): RawMessage -> bool {
    (m: RawMessage) => m.EndOfStream? && m.run == run && m.source !in expected
  }

  predicate IsBeat(m: RawMessage) {
    m.Heartbeat?
  }

  /** The numbers of the batches of this run. */
  function OwnReceipts(ms: seq<RawMessage>, run: nat): seq<Receipt> {
    if ms == [] then []
    else
      var m := ms[|ms| - 1];
      OwnReceipts(ms[..|ms| - 1], run)
      + if m.Data? && m.run == run then [Receipt(m.source, m.seqNo)] else []
  }

  /** The frames of the batches of this run from a source. */
  function OwnFrames(ms: seq<RawMessage>, run: nat, source: nat): seq<seq<byte>> {
    if ms == [] then []
    else
      var m := ms[|ms| - 1];
      OwnFrames(ms[..|ms| - 1], run, source)
      + if m.Data? && m.run == run && m.source == source then m.payload else []
  }

  /** The counters and the number check, for these messages. */
  ghost predicate CountsRight(v: Intake, ms: seq<RawMessage>, run: nat, expected: set<nat>) {
    && v.ledger.check == ObserveAll(OwnReceipts(ms, run))
    && v.ledger.runMismatches == CountIf(ms, ForeignTo(run))
    && (v.ledger.errored <==> v.ledger.check.gaps > 0 || CountIf(ms, ForeignBatch(run)) > 0)
    && v.unexpected == CountIf(ms, StrayEnd(run, expected))
    && v.heartbeats == CountIf(ms, IsBeat)
  }

  ghost predicate WritesRight(v: Intake, ms: seq<RawMessage>, run: nat) {
    forall key: FileKey ::
      Routed(v.ledger.writes, key) == RouteFrames(key.cobo, OwnFrames(ms, run, key.cobo), key)
  }

  lemma {:induction false} MessageCountsRight(
      v: Intake, ms: seq<RawMessage>, run: nat, expected: set<nat>)
    requires ms != [] && !v.done && CountsRight(v, ms[..|ms| - 1], run, expected)
    ensures CountsRight(Receive(v, expected, run, ms[|ms| - 1]), ms, run, expected)
  {
    var n := |ms| - 1;
    var before := OwnReceipts(ms[..n], run);
    assert before + [] == before;
    if ms[n].Data? && ms[n].run == run {
      var r := Receipt(ms[n].source, ms[n].seqNo);
      assert (before + [r])[..|before|] == before;
    }
  }

  lemma {:induction false} MessageWritesRight(
      v: Intake, ms: seq<RawMessage>, run: nat, expected: set<nat>)
    requires ms != [] && !v.done && WritesRight(v, ms[..|ms| - 1], run)
    ensures WritesRight(Receive(v, expected, run, ms[|ms| - 1]), ms, run)
  {
    var n := |ms| - 1;
    var m := ms[n];
    var after := Receive(v, expected, run, m);
    forall key: FileKey
      ensures Routed(after.ledger.writes, key)
              == RouteFrames(key.cobo, OwnFrames(ms, run, key.cobo), key)
    {
      var before := OwnFrames(ms[..n], run, key.cobo);
      assert Routed(v.ledger.writes, key) == RouteFrames(key.cobo, before, key);
      assert before + [] == before;
      if m.Data? && m.run == run {
        RoutedBatch(v.ledger.writes, m.source, m.payload, key);
        RouteConcat(key.cobo, before, m.payload, key);
        assert Routed(v.ledger.writes, key) + [] == Routed(v.ledger.writes, key);
      }
    }
  }

  lemma {:induction false} MessageClosesRight(
      v: Intake, ms: seq<RawMessage>, run: nat, expected: set<nat>)
    requires ms != [] && !v.done && v.eos == ClosedBy(ms[..|ms| - 1], run, expected)
    requires !AllClosed(ms[..|ms| - 1], run, expected)
    ensures var after := Receive(v, expected, run, ms[|ms| - 1]);
            && after.eos == ClosedBy(ms, run, expected)
            && (after.done <==> AllClosed(ms, run, expected))
  {
  }

  /**
   The receive loop, from the messages alone. Up to the last expected end of stream, and no
   further: under every key are the frames that belong there of the batches of this run, the
   check has seen their numbers, and every other message is counted, in its own counter.
   */
  lemma {:induction false} IntakeIsExact(expected: set<nat>, run: nat, ms: seq<RawMessage>)
    ensures var v := ReceiveAll(expected, run, ms);
            var heard := Heard(ms, run, expected);
            && (v.done <==> AllClosed(ms, run, expected))
            && v.eos == ClosedBy(heard, run, expected)
            && CountsRight(v, heard, run, expected) && WritesRight(v, heard, run)
  {
    if ms != [] {
      var n := |ms| - 1;
      var before := ms[..n];
      IntakeIsExact(expected, run, before);
      var v := ReceiveAll(expected, run, before);
      if AllClosed(before, run, expected) {
        StaysClosed(ms, run, expected);
      } else {
        NothingClosedYet(before, run, expected);
        MessageCountsRight(v, ms, run, expected);
        MessageWritesRight(v, ms, run, expected);
        MessageClosesRight(v, ms, run, expected);
      }
    }
  }

  lemma StaysClosed(ms: seq<RawMessage>, run: nat, expected: set<nat>)
    requires ms != []
    ensures AllClosed(ms[..|ms| - 1], run, expected) ==> AllClosed(ms, run, expected)
  {
  }

  lemma {:induction false} NothingClosedYet(ms: seq<RawMessage>, run: nat, expected: set<nat>)
    requires !AllClosed(ms, run, expected)
    ensures Heard(ms, run, expected) == ms
  {
    if ms != [] {
      StaysClosed(ms, run, expected);
    }
  }

  // ---------------------------------------------------------------------
  // Messages of another run
  // ---------------------------------------------------------------------

  /** The messages without those of other runs. */
  function WithoutForeign(ms: seq<RawMessage>, run: nat): seq<RawMessage> {
    if ms == [] then []
    else
      var m := ms[|ms| - 1];
      WithoutForeign(ms[..|ms| - 1], run) + if ForeignTo(run)(m) then [] else [m]
  }

  /** All that foreign messages must leave alone. */
  predicate SameButMismatches(v: Intake, w: Intake) {
    && v.ledger.writes == w.ledger.writes && v.ledger.check == w.ledger.check
    && v.eos == w.eos && v.done == w.done
    && v.unexpected == w.unexpected && v.heartbeats == w.heartbeats
  }

  /**
   Deleting the messages of other runs changes nothing but the mismatch counter and the latch:
   the same frames are written, the same sources end, the writer is done with the same message.
   */
  lemma {:induction false} ForeignRunsLeaveNoTrace(
      expected: set<nat>, run: nat, ms: seq<RawMessage>)
    ensures SameButMismatches(ReceiveAll(expected, run, ms),
                              ReceiveAll(expected, run, WithoutForeign(ms, run)))
  {
    if ms != [] {
      var n := |ms| - 1;
      ForeignRunsLeaveNoTrace(expected, run, ms[..n]);
      var own := WithoutForeign(ms[..n], run);
      assert own + [] == own;
      assert (own + [ms[n]])[..|own|] == own;
    }
  }
}

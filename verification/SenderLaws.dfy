/**
 What the sender emits, read off its arrivals alone: when a batch leaves and with what, when a
 heartbeat goes out, and what became of every emission on either link.
 */
module SenderLaws {
  import opened Bytes
  import opened Sender

  /** The frames that came in, in order. */
  function FramesCame(arrivals: seq<Arrival>): seq<seq<byte>> {
    if arrivals == [] then []
    else
      var a := arrivals[|arrivals| - 1];
      FramesCame(arrivals[..|arrivals| - 1]) + if a.FrameCame? then [a.frame] else []
  }

  /** The frames that left in batches. */
  function FramesLeft(es: seq<Emission>): seq<seq<byte>> {
    if es == [] then []
    else
      FramesLeft(es[..|es| - 1]) + if es[|es| - 1].Batch? then es[|es| - 1].frames else []
  }

  predicate IsBeat(e: Emission) {
    e.Beat?
  }

  /** What is waiting must leave: it is large enough, has waited long enough, or all is over. */
  predicate Due(waiting: seq<seq<byte>>, a: Arrival, maxBytes: nat) {
    && waiting != []
    && match a
       case FrameCame(_, _) => |Flat(waiting)| >= maxBytes
       case MarkCame(_, _) => true
       case WaitOver(passed, _, _) => passed
       case QueueGone(_) => true
       case Abandoned => false
  }

  /** An idle heartbeat: nothing waits, and no end of stream has gone out. */
  predicate BeatDue(emitted: seq<Emission>, waiting: seq<seq<byte>>, a: Arrival) {
    a.WaitOver? && a.beatDue && waiting == [] && Mark !in emitted
  }

  /** An emission with its outcomes on the two links. */
  datatype Try = Try(e: Emission, oc: Outcomes)

  /** What one arrival makes the sender emit. */
  function Tries(
    emitted: seq<Emission>, waiting: seq<seq<byte>>, a: Arrival, maxBytes: nat): seq<Try>
  {
    (if Due(waiting, a, maxBytes) then [Try(Batch(waiting), a.oc)] else [])
    + (if a.MarkCame? then [Try(Mark, a.markOc)] else [])
    + if BeatDue(emitted, waiting, a) then [Try(Beat(CountIf(emitted, IsBeat)), a.oc)] else []
  }

  function Append(l: Log, tries: seq<Try>): Log {
    if tries == [] then l
    else
      var n := |tries| - 1;
      var before := Append(l, tries[..n]);
      var oc := tries[n].oc;
      Log(before.emitted + [tries[n].e], before.ok0 + [oc.first == Sent], before.ok1 + [oc.second == Sent])
  }

  predicate Stops(t: Try) {
    t.oc.first == Stopped || t.oc.second == Stopped
  }

  /** The loop's own state says what the history says. */
  ghost predicate Remembers(s: Loop, arrivals: seq<Arrival>) {
    && FramesLeft(s.log.emitted) + s.batch == FramesCame(arrivals)
    && (s.eosSent <==> Mark in s.log.emitted)
    && s.beats == CountIf(s.log.emitted, IsBeat)
  }

  lemma {:induction false} EmissionSnoc(es: seq<Emission>, e: Emission)
    ensures FramesLeft(es + [e]) == FramesLeft(es) + if e.Batch? then e.frames else []
    ensures CountIf(es + [e], IsBeat) == CountIf(es, IsBeat) + if e.Beat? then 1 else 0
    ensures Mark in es + [e] <==> Mark in es || e == Mark
  {
    assert (es + [e])[..|es|] == es;
  }

  lemma {:induction false} AppendOne(l: Log, t: Try)
    ensures Append(l, [t]) == Logged(l, t.e, t.oc)
  {
    var none: seq<Try> := [t][..0];
    assert none == [] && Append(l, none) == l;
  }

  lemma {:induction false} AppendTwo(l: Log, t: Try, u: Try)
    ensures Append(l, [t] + [u]) == Logged(Logged(l, t.e, t.oc), u.e, u.oc)
  {
    AppendOne(l, t);
    assert ([t] + [u])[..1] == [t];
  }

  /** What flushing does when something waits. */
  lemma {:induction false} FlushRemembers(s: Loop, oc: Outcomes, arrivals: seq<Arrival>)
    requires Remembers(s, arrivals)
    ensures Remembers(Flush(s, oc), arrivals) && Flush(s, oc).batch == []
  {
    if s.batch != [] {
      EmissionSnoc(s.log.emitted, Batch(s.batch));
      assert (FramesLeft(s.log.emitted) + s.batch) + [] == FramesLeft(s.log.emitted) + s.batch;
    }
  }

  lemma {:induction false} CameSnoc(arrivals: seq<Arrival>, a: Arrival)
    ensures FramesCame(arrivals + [a]) == FramesCame(arrivals) + if a.FrameCame? then [a.frame] else []
  {
    assert (arrivals + [a])[..|arrivals|] == arrivals;
  }

  /** An arrival that brings no frame changes nothing of what is remembered. */
  lemma {:induction false} NoFrameRemembers(s: Loop, arrivals: seq<Arrival>, a: Arrival)
    requires Remembers(s, arrivals) && !a.FrameCame?
    ensures Remembers(s, arrivals + [a])
  {
    CameSnoc(arrivals, a);
    assert FramesCame(arrivals) + [] == FramesCame(arrivals);
  }

  lemma {:induction false} FrameRemembers(s: Loop, arrivals: seq<Arrival>, a: Arrival, maxBytes: nat)
    requires Remembers(s, arrivals) && a.FrameCame?
    ensures Remembers(OnFrame(s, a.frame, maxBytes, a.oc), arrivals + [a])
  {
    var t := s.(batch := s.batch + [a.frame]);
    CameSnoc(arrivals, a);
    Associate(FramesLeft(s.log.emitted), s.batch, [a.frame]);
    FlushRemembers(t, a.oc, arrivals + [a]);
  }

  lemma {:induction false} MarkRemembers(s: Loop, oc: Outcomes, markOc: Outcomes, arrivals: seq<Arrival>)
    requires Remembers(s, arrivals)
    ensures Remembers(OnMark(s, oc, markOc), arrivals)
  {
    FlushRemembers(s, oc, arrivals);
    var t := Flush(s, oc);
    EmissionSnoc(t.log.emitted, Mark);
    assert FramesLeft(t.log.emitted) + [] == FramesLeft(t.log.emitted);
  }

  lemma {:induction false} WaitRemembers(
      s: Loop, passed: bool, beatDue: bool, oc: Outcomes, arrivals: seq<Arrival>)
    requires Remembers(s, arrivals)
    ensures Remembers(OnTimeout(s, passed, beatDue, oc), arrivals)
  {
    FlushRemembers(s, oc, arrivals);
    EmissionSnoc(s.log.emitted, Beat(s.beats));
    assert FramesLeft(s.log.emitted) + [] == FramesLeft(s.log.emitted);
  }

  /** What one arrival leaves behind. */
  lemma {:induction false} ArrivalRemembers(
      s: Loop, arrivals: seq<Arrival>, a: Arrival, maxBytes: nat)
    requires s.alive && Remembers(s, arrivals)
    ensures Remembers(OnArrival(s, a, maxBytes), arrivals + [a])
  {
    if a.FrameCame? {
      FrameRemembers(s, arrivals, a, maxBytes);
    } else {
      NoFrameRemembers(s, arrivals, a);
      match a {
        case MarkCame(oc, markOc) => MarkRemembers(s, oc, markOc, arrivals + [a]);
        case WaitOver(passed, beatDue, oc) => WaitRemembers(s, passed, beatDue, oc, arrivals + [a]);
        case QueueGone(oc) => FlushRemembers(s, oc, arrivals + [a]);
        case Abandoned =>
      }
    }
  }

  /** As long as the loop lives, it remembers. */
  lemma {:induction false} LoopRemembers(arrivals: seq<Arrival>, maxBytes: nat)
    requires arrivals == [] || LoopRun(arrivals[..|arrivals| - 1], maxBytes).alive
    ensures Remembers(LoopRun(arrivals, maxBytes), arrivals)
  {
    if arrivals != [] {
      var n := |arrivals| - 1;
      if n > 0 {
        StillAlive(arrivals[..n], maxBytes);
      }
      LoopRemembers(arrivals[..n], maxBytes);
      assert arrivals == arrivals[..n] + [arrivals[n]];
      ArrivalRemembers(LoopRun(arrivals[..n], maxBytes), arrivals[..n], arrivals[n], maxBytes);
    }
  }

  lemma StillAlive(arrivals: seq<Arrival>, maxBytes: nat)
    requires arrivals != [] && LoopRun(arrivals, maxBytes).alive
    ensures LoopRun(arrivals[..|arrivals| - 1], maxBytes).alive
  {
  }

  /** What waits once the arrival is in. */
  function Waiting(batch: seq<seq<byte>>, a: Arrival): seq<seq<byte>> {
    if a.FrameCame? then batch + [a.frame] else batch
  }

  lemma {:induction false} FlushTries(s: Loop, oc: Outcomes)
    ensures s.batch != [] ==>
              && Flush(s, oc).log == Append(s.log, [Try(Batch(s.batch), oc)])
              && (Flush(s, oc).alive <==> s.alive && !Stops(Try(Batch(s.batch), oc)))
    ensures s.batch == [] ==> Flush(s, oc) == s
  {
    AppendOne(s.log, Try(Batch(s.batch), oc));
  }

  lemma {:induction false} MarkTries(s: Loop, oc: Outcomes, markOc: Outcomes)
    ensures var batch := if s.batch != [] then [Try(Batch(s.batch), oc)] else [];
            var t := OnMark(s, oc, markOc);
            && t.log == Append(s.log, batch + [Try(Mark, markOc)])
            && (t.alive <==> s.alive && (forall x :: x in batch ==> !Stops(x))
                             && !Stops(Try(Mark, markOc)))
  {
    FlushTries(s, oc);
    if s.batch != [] {
      AppendTwo(s.log, Try(Batch(s.batch), oc), Try(Mark, markOc));
      AppendOne(s.log, Try(Batch(s.batch), oc));
    } else {
      AppendOne(s.log, Try(Mark, markOc));
      assert [] + [Try(Mark, markOc)] == [Try(Mark, markOc)];
    }
  }

  /** The tries of an arrival, for a loop that remembers its history. */
  ghost predicate EmitsTries(s: Loop, t: Loop, a: Arrival, maxBytes: nat) {
    var tries := Tries(s.log.emitted, Waiting(s.batch, a), a, maxBytes);
    && t.log == Append(s.log, tries)
    && (t.alive <==> !a.QueueGone? && !a.Abandoned? && forall x :: x in tries ==> !Stops(x))
  }

  lemma {:induction false} FrameEmits(s: Loop, a: Arrival, maxBytes: nat)
    requires s.alive && a.FrameCame?
    ensures EmitsTries(s, OnArrival(s, a, maxBytes), a, maxBytes)
  {
    var t := s.(batch := s.batch + [a.frame]);
    var batch := Try(Batch(t.batch), a.oc);
    FlushTries(t, a.oc);
    var tries := Tries(s.log.emitted, t.batch, a, maxBytes);
    if Due(t.batch, a, maxBytes) {
      assert tries == [batch];
      assert OnArrival(s, a, maxBytes) == Flush(t, a.oc);
    } else {
      assert tries == [];
      assert OnArrival(s, a, maxBytes) == t;
    }
  }

  lemma {:induction false} MarkEmits(s: Loop, a: Arrival, maxBytes: nat)
    requires s.alive && a.MarkCame?
    ensures EmitsTries(s, OnArrival(s, a, maxBytes), a, maxBytes)
  {
    MarkTries(s, a.oc, a.markOc);
    var batch := if s.batch != [] then [Try(Batch(s.batch), a.oc)] else [];
    assert Tries(s.log.emitted, s.batch, a, maxBytes) == batch + [Try(Mark, a.markOc)];
  }

  lemma {:induction false} WaitEmits(s: Loop, a: Arrival, maxBytes: nat)
    requires s.alive && a.WaitOver?
    requires (s.eosSent <==> Mark in s.log.emitted) && s.beats == CountIf(s.log.emitted, IsBeat)
    ensures EmitsTries(s, OnArrival(s, a, maxBytes), a, maxBytes)
  {
    var beat := Try(Beat(s.beats), a.oc);
    FlushTries(s, a.oc);
    AppendOne(s.log, beat);
    var tries := Tries(s.log.emitted, s.batch, a, maxBytes);
    if Due(s.batch, a, maxBytes) {
      assert tries == [Try(Batch(s.batch), a.oc)];
    } else if BeatDue(s.log.emitted, s.batch, a) {
      assert tries == [beat];
      assert OnArrival(s, a, maxBytes).alive <==> !Stops(beat);
    } else {
      assert tries == [];
    }
  }

  lemma {:induction false} EndEmits(s: Loop, a: Arrival, maxBytes: nat)
    requires s.alive && (a.QueueGone? || a.Abandoned?)
    ensures EmitsTries(s, OnArrival(s, a, maxBytes), a, maxBytes)
  {
    if a.QueueGone? {
      FlushTries(s, a.oc);
      assert Tries(s.log.emitted, s.batch, a, maxBytes)
          == if s.batch != [] then [Try(Batch(s.batch), a.oc)] else [];
    } else {
      assert Tries(s.log.emitted, s.batch, a, maxBytes) == [];
    }
  }

  /**
   Every arrival of a living loop, from the history alone: one batch of all frames that are still
   here iff they are due, the mark behind it, or an idle heartbeat, in this order and with these
   outcomes, and nothing else; and the loop ends iff a send stopped, the queue is gone, or it is
   told to.
   */
  lemma {:induction false} EmissionsAreExact(arrivals: seq<Arrival>, maxBytes: nat)
    requires arrivals != [] && LoopRun(arrivals[..|arrivals| - 1], maxBytes).alive
    ensures var n := |arrivals| - 1;
            var s, t := LoopRun(arrivals[..n], maxBytes), LoopRun(arrivals, maxBytes);
            var gone := |FramesLeft(s.log.emitted)|;
            && gone <= |FramesCame(arrivals)|
            && var tries := Tries(s.log.emitted, FramesCame(arrivals)[gone..], arrivals[n], maxBytes);
               && t.log == Append(s.log, tries)
               && (t.alive <==> && !arrivals[n].QueueGone? && !arrivals[n].Abandoned?
                                && forall x :: x in tries ==> !Stops(x))
  {
    var n := |arrivals| - 1;
    var s, a := LoopRun(arrivals[..n], maxBytes), arrivals[n];
    if n > 0 {
      StillAlive(arrivals[..n], maxBytes);
    }
    LoopRemembers(arrivals[..n], maxBytes);
    assert FramesCame(arrivals)[|FramesLeft(s.log.emitted)|..] == Waiting(s.batch, a);
    match a
    case FrameCame(_, _) => FrameEmits(s, a, maxBytes);
    case MarkCame(_, _) => MarkEmits(s, a, maxBytes);
    case WaitOver(_, _, _) => WaitEmits(s, a, maxBytes);
    case QueueGone(_) => EndEmits(s, a, maxBytes);
    case Abandoned => EndEmits(s, a, maxBytes);
  }
}

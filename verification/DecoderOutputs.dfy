/**
 What the decoder thread puts out, read off the turns alone: the run number that everything in a
 round carries, and when what is waiting leaves, in one batch, before the thread's own end.
 */
module DecoderOutputs {
  import opened Bytes
  import opened Decode
  import opened RunDecoder
  import opened DecoderLoop
  import opened DecoderLaws
  import opened DecoderRounds

  // ---------------------------------------------------------------------
  // Run numbers
  // ---------------------------------------------------------------------

  /** The run number a turn brings; heartbeats are not looked at. */
  function RunOfTurn(t: Turn): Option<nat> {
    if Quiet(t) then None else Some(t.message.value.run)
  }

  function FirstRun(round: seq<Turn>): Option<nat> {
    if round == [] then None
    else
      var before := FirstRun(round[..|round| - 1]);
      if before.Some? then before else RunOfTurn(round[|round| - 1])
  }

  /** A round has the number of its first message; the first round has the start number. */
  function RunOfRound(rounds: seq<seq<Turn>>, i: nat, start: nat): Option<nat>
    requires i < |rounds|
  {
    if i == 0 then Some(start) else FirstRun(rounds[i])
  }

  function DiffersFrom(r: Option<nat>): Turn -> bool {
    (t: Turn) => RunOfTurn(t).Some? && RunOfTurn(t) != r
  }

  /** The messages whose number is not that of their round. */
  function Mismatches(rounds: seq<seq<Turn>>, start: nat): nat {
    if rounds == [] then 0
    else
      var n := |rounds| - 1;
      Mismatches(rounds[..n], start)
      + CountIf(rounds[n], DiffersFrom(RunOfRound(rounds, n, start)))
  }

  /** The output, round by round: each own end of stream closes one. */
  function OutRounds(out: seq<Out>): (rounds: seq<seq<Out>>)
    ensures rounds != []
  {
    if out == [] then [[]]
    else
      var n := |out| - 1;
      var grown := AddTurn(OutRounds(out[..n]), out[n]);
      if IsEos(out[n]) then grown + [[]] else grown
  }

  /** Everything that went out in a round carries the number of the round. */
  ghost predicate OutsOfRun(outs: seq<Out>, r: Option<nat>) {
    forall j :: 0 <= j < |outs| ==> Some(outs[j].run) == r
  }

  ghost predicate RunsMatch(outs: seq<seq<Out>>, rounds: seq<seq<Turn>>, start: nat) {
    && |outs| == |rounds|
    && forall i :: 0 <= i < |rounds| ==> OutsOfRun(outs[i], RunOfRound(rounds, i, start))
  }

  /** Where the core stands in a round whose number is `r`, if it has one yet. */
  predicate StandsIn(c: Core, r: Option<nat>) {
    && c.awaitingRun == r.None?
    && (r.Some? ==> c.run == r.value)
    && (r.None? ==> c.buffer.pending == [])
  }

  ghost predicate RunsOk(m: Moved, rounds: seq<seq<Turn>>, start: nat)
    requires rounds != []
  {
    && RunsMatch(OutRounds(m.out), rounds, start)
    && StandsIn(m.core, RunOfRound(rounds, |rounds| - 1, start))
    && m.core.tally.runMismatches == Mismatches(rounds, start)
  }

  lemma {:induction false} FramesKeepRun(
      cfg: Config, c: Core, source: nat, frames: seq<seq<byte>>, now: int)
    ensures var d := TakeFrames(cfg, c, source, frames, now);
            && d.run == c.run && d.awaitingRun == c.awaitingRun
            && d.tally.runMismatches == c.tally.runMismatches
  {
    if frames != [] {
      FramesKeepRun(cfg, c, source, frames[..|frames| - 1], now);
    }
  }

  /** The number of a round that one more turn has joined. */
  function RunAfter(r: Option<nat>, t: Turn): Option<nat> {
    if r.Some? then r else RunOfTurn(t)
  }

  lemma {:induction false} MessageAndRun(cfg: Config, c: Core, t: Turn, r: Option<nat>)
    requires StandsIn(c, r)
    ensures var d := OnMessage(cfg, c, t).core;
            && StandsIn(d, RunAfter(r, t))
            && d.tally.runMismatches
               == c.tally.runMismatches + if DiffersFrom(RunAfter(r, t))(t) then 1 else 0
  {
    if t.message.Some? && t.message.value.Data? {
      var m := t.message.value;
      FramesKeepRun(cfg, CheckSeq(CheckRun(c, m.run), m.source, m.seqNo), m.source, m.payload, t.now);
    }
  }

  // ---------------------------------------------------------------------
  // One turn joins the round
  // ---------------------------------------------------------------------

  lemma {:induction false} CountOnlyKnown(round: seq<Turn>, r: Option<nat>)
    requires FirstRun(round).None?
    ensures CountIf(round, DiffersFrom(r)) == 0
  {
    if round != [] {
      CountOnlyKnown(round[..|round| - 1], r);
    }
  }

  lemma {:induction false} FirstRunGrows(round: seq<Turn>, t: Turn)
    ensures FirstRun(round + [t]) == RunAfter(FirstRun(round), t)
    ensures forall r :: CountIf(round + [t], DiffersFrom(r))
                        == CountIf(round, DiffersFrom(r)) + if DiffersFrom(r)(t) then 1 else 0
  {
    assert (round + [t])[..|round|] == round;
  }

  lemma {:induction false} MismatchesSnoc(rounds: seq<seq<Turn>>, round: seq<Turn>, start: nat)
    ensures var n := |rounds|;
            Mismatches(rounds + [round], start)
            == Mismatches(rounds, start)
               + CountIf(round, DiffersFrom(if n == 0 then Some(start) else FirstRun(round)))
  {
    assert (rounds + [round])[..|rounds|] == rounds;
  }

  lemma {:induction false} RoundGrows(rounds: seq<seq<Turn>>, t: Turn, start: nat)
    requires rounds != []
    ensures var n := |rounds| - 1;
            var r := RunAfter(RunOfRound(rounds, n, start), t);
            var grown := AddTurn(rounds, t);
            && |grown| == n + 1 && RunOfRound(grown, n, start) == r
            && Mismatches(grown, start)
               == Mismatches(rounds, start) + (if DiffersFrom(r)(t) then 1 else 0)
            && forall i :: 0 <= i < n ==> RunOfRound(grown, i, start) == RunOfRound(rounds, i, start)
  {
    var n := |rounds| - 1;
    FirstRunGrows(rounds[n], t);
    assert rounds == rounds[..n] + [rounds[n]];
    MismatchesSnoc(rounds[..n], rounds[n], start);
    MismatchesSnoc(rounds[..n], rounds[n] + [t], start);
    if RunOfRound(rounds, n, start).None? {
      CountOnlyKnown(rounds[n], None);
      CountOnlyKnown(rounds[n], RunOfTurn(t));
    }
  }

  lemma {:induction false} RoundOpens(rounds: seq<seq<Turn>>, none: seq<Turn>, start: nat)
    requires rounds != [] && none == []
    ensures var wider := rounds + [none];
            && RunOfRound(wider, |rounds|, start) == None
            && Mismatches(wider, start) == Mismatches(rounds, start)
            && forall i :: 0 <= i < |rounds| ==>
                             RunOfRound(wider, i, start) == RunOfRound(rounds, i, start)
  {
    assert (rounds + [none])[..|rounds|] == rounds;
  }

  lemma {:induction false} OutSnoc(out: seq<Out>, o: Out, none: seq<Out>)
    requires none == []
    ensures OutRounds(out + [o])
            == if IsEos(o) then AddTurn(OutRounds(out), o) + [none] else AddTurn(OutRounds(out), o)
  {
    assert (out + [o])[..|out|] == out;
  }

  lemma {:induction false} OutJoins(
      outs: seq<seq<Out>>, o: Out, rounds: seq<seq<Turn>>, start: nat)
    requires rounds != [] && RunsMatch(outs, rounds, start)
    requires Some(o.run) == RunOfRound(rounds, |rounds| - 1, start)
    ensures RunsMatch(AddTurn(outs, o), rounds, start)
  {
    var n := |rounds| - 1;
    assert OutsOfRun(outs[n], RunOfRound(rounds, n, start));
    assert OutsOfRun(outs[n] + [o], RunOfRound(rounds, n, start));
    forall i | 0 <= i < n ensures OutsOfRun(AddTurn(outs, o)[i], RunOfRound(rounds, i, start)) {
      assert OutsOfRun(outs[i], RunOfRound(rounds, i, start));
    }
  }

  lemma {:induction false} RoundCloses(
      outs: seq<seq<Out>>, rounds: seq<seq<Turn>>, start: nat, quiet: seq<Out>, none: seq<Turn>)
    requires rounds != [] && RunsMatch(outs, rounds, start) && quiet == [] && none == []
    ensures RunsMatch(outs + [quiet], rounds + [none], start)
  {
    RoundOpens(rounds, none, start);
    forall i | 0 <= i < |rounds| + 1
      ensures OutsOfRun((outs + [quiet])[i], RunOfRound(rounds + [none], i, start))
    {
      if i < |rounds| {
        assert OutsOfRun(outs[i], RunOfRound(rounds, i, start));
      }
    }
  }

  /** A batch of the open round. */
  lemma {:induction false} BatchMatches(out: seq<Out>, o: Out, rounds: seq<seq<Turn>>, start: nat)
    requires rounds != [] && RunsMatch(OutRounds(out), rounds, start) && !IsEos(o)
    requires Some(o.run) == RunOfRound(rounds, |rounds| - 1, start)
    ensures RunsMatch(OutRounds(out + [o]), rounds, start)
  {
    var none: seq<Out> := [];
    OutSnoc(out, o, none);
    OutJoins(OutRounds(out), o, rounds, start);
  }

  /** The own end of stream closes the round of the output and that of the turns. */
  lemma {:induction false} EndMatches(
      out: seq<Out>, o: Out, rounds: seq<seq<Turn>>, start: nat, none: seq<Turn>)
    requires rounds != [] && RunsMatch(OutRounds(out), rounds, start) && IsEos(o) && none == []
    requires Some(o.run) == RunOfRound(rounds, |rounds| - 1, start)
    ensures RunsMatch(OutRounds(out + [o]), rounds + [none], start)
  {
    var quiet: seq<Out> := [];
    OutSnoc(out, o, quiet);
    OutJoins(OutRounds(out), o, rounds, start);
    RoundCloses(AddTurn(OutRounds(out), o), rounds, start, quiet, none);
  }

  lemma {:induction false} SendMatches(
      c: Core, goes: bool, out: seq<Out>, rounds: seq<seq<Turn>>, start: nat)
    requires rounds != [] && RunsOk(Moved(c, out), rounds, start)
    ensures var m := SendPending(c, goes);
            RunsOk(Moved(m.core, out + m.out), rounds, start)
  {
    if c.buffer.pending == [] {
      assert out + [] == out;
    } else {
      BatchMatches(out, SendPending(c, goes).out[0], rounds, start);
    }
  }

  /** Flushing and ending a round that has a number. */
  lemma {:induction false} FlushMatches(
      c: Core, t: Turn, out: seq<Out>, rounds: seq<seq<Turn>>, start: nat, none: seq<Turn>)
    requires rounds != [] && RunsOk(Moved(c, out), rounds, start) && none == []
    requires RunOfRound(rounds, |rounds| - 1, start).Some?
    ensures var m := Act(c, FlushAndEndOfStream, t);
            RunsOk(Moved(m.core, out + m.out), rounds + [none], start)
  {
    var flushed := SendPending(c, t.batchGoes);
    SendMatches(c, t.batchGoes, out, rounds, start);
    var eos := SendOwnEos(flushed.core, t.eosGoes).out[0];
    EndMatches(out + flushed.out, eos, rounds, start, none);
    RoundOpens(rounds, none, start);
    Associate(out, flushed.out, [eos]);
  }

  lemma {:induction false} OtherActsMatch(
      c: Core, emit: Emit, t: Turn, out: seq<Out>, rounds: seq<seq<Turn>>, start: nat)
    requires rounds != [] && RunsOk(Moved(c, out), rounds, start) && !emit.FlushAndEndOfStream?
    ensures var m := Act(c, emit, t);
            RunsOk(Moved(m.core, out + m.out), rounds, start)
  {
    assert out + [] == out;
    SendMatches(c, t.batchGoes, out, rounds, start);
  }

  lemma {:induction false} TurnMatches(
      cfg: Config, c: Core, t: Turn, out: seq<Out>, rounds: seq<seq<Turn>>, start: nat,
      none: seq<Turn>)
    requires CoreOk(c) && rounds != [] && RunsOk(Moved(c, out), rounds, start) && none == []
    ensures var m := OneTurn(cfg, c, t);
            var grown := AddTurn(rounds, t);
            RunsOk(Moved(m.core, out + m.out),
                   if Completes(cfg, c.eos, t) then grown + [none] else grown, start)
  {
    var d := OnMessage(cfg, c, t);
    var grown := AddTurn(rounds, t);
    MessageAndRun(cfg, c, t, RunOfRound(rounds, |rounds| - 1, start));
    RoundGrows(rounds, t, start);
    GrownStillMatches(out, rounds, t, start);
    assert RunsOk(Moved(d.core, out), grown, start);
    EmitsAtTheEnd(cfg, c, t);
    if d.emit.FlushAndEndOfStream? {
      FlushMatches(d.core, t, out, grown, start, none);
    } else {
      OtherActsMatch(d.core, if d.emit.Nothing? then Ticked(d.core, t.later) else d.emit, t, out,
                     grown, start);
    }
  }

  /** What went out before the turn was of the round's number; a round without one sent nothing. */
  lemma {:induction false} GrownStillMatches(
      out: seq<Out>, rounds: seq<seq<Turn>>, t: Turn, start: nat)
    requires rounds != [] && RunsMatch(OutRounds(out), rounds, start)
    ensures RunsMatch(OutRounds(out), AddTurn(rounds, t), start)
  {
    RoundGrows(rounds, t, start);
  }

  /**
   Run numbers. Over every list of turns, everything that goes out in a round carries the number
   of the round, which is the start number or that of the round's first batch or end of stream;
   and the mismatch counter is the number of messages with another number than their round.
   */
  lemma {:induction false} RunsAreRight(cfg: Config, run: nat, turns: seq<Turn>)
    ensures var m := Run(cfg, run, turns);
            var rounds := TurnRounds(cfg, turns);
            && RunsMatch(OutRounds(m.out), rounds, run)
            && m.core.tally.runMismatches == Mismatches(rounds, run)
            && StandsIn(m.core, RunOfRound(rounds, |rounds| - 1, run))
  {
    if turns == [] {
      NothingMismatches(cfg, run, turns);
    } else {
      var n := |turns| - 1;
      var none: seq<Turn> := [];
      RunsAreRight(cfg, run, turns[..n]);
      BarrierInEveryRound(cfg, run, turns[..n]);
      CoreStaysOk(cfg, run, turns[..n]);
      var m := Run(cfg, run, turns[..n]);
      TurnMatches(cfg, m.core, turns[n], m.out, TurnRounds(cfg, turns[..n]), run, none);
    }
  }

  lemma {:induction false} NothingMismatches(cfg: Config, run: nat, none: seq<Turn>)
    requires none == []
    ensures RunsOk(Run(cfg, run, none), TurnRounds(cfg, none), run)
  {
    var rounds := TurnRounds(cfg, none);
    assert rounds == [none] && rounds[..0] == [];
    assert OutRounds([]) == [[]];
  }

  // ---------------------------------------------------------------------
  // When what is waiting leaves
  // ---------------------------------------------------------------------

  /** When fragment `j` of the input came in. */
  function ArrivedAt(turns: seq<Turn>, j: nat): int
    requires j < |Input(turns)|
  {
    var n := |turns| - 1;
    if j < |Input(turns[..n])| then ArrivedAt(turns[..n], j) else turns[n].now
  }

  /**
   Whether the fragments from `gone` on must leave in the last turn: the round ends, or a batch
   came in and they are large enough, or the oldest of them has waited for the time limit.
   */
  predicate Due(cfg: Config, turns: seq<Turn>, gone: nat)
    requires turns != []
  {
    var n := |turns| - 1;
    var t := turns[n];
    && gone < |Input(turns)|
    && (|| Completes(cfg, RoundsOf(cfg, turns[..n]).eos, t)
        || (t.message.Some? && t.message.value.Data?
            && SizeOf(Input(turns)[gone..]) >= cfg.batchMaxBytes)
        || t.later >= ArrivedAt(turns, gone) + cfg.batchMax)
  }

  /** One batch of the fragments if they are due, and then the own end if the round is over. */
  ghost predicate LeavesAs(
    out: seq<Out>, fragments: seq<Fragment>, due: bool, ends: bool, t: Turn)
  {
    && |out| == (if due then 1 else 0) + (if ends then 1 else 0)
    && (due ==> && !IsEos(out[0]) && out[0].fragments == fragments
                && (out[0].SentBatch? <==> t.batchGoes))
    && (ends ==> IsEos(out[|out| - 1]) && (out[|out| - 1].SentEos? <==> t.eosGoes))
  }

  /** The buffer holds what came in and has not left, and its deadline is that of the oldest. */
  ghost predicate WaitsSince(cfg: Config, b: Buffer, turns: seq<Turn>, gone: nat) {
    && gone <= |Input(turns)| && b.pending == Input(turns)[gone..]
    && (b.pending != [] ==> b.deadline == Some(ArrivedAt(turns, gone) + cfg.batchMax))
  }

  lemma {:induction false} DeadlineOfFrames(
      cfg: Config, c: Core, source: nat, frames: seq<seq<byte>>, now: int)
    ensures TakeFrames(cfg, c, source, frames, now).buffer.deadline
            == if c.buffer.deadline.Some? || FragmentsOf(frames) == [] then c.buffer.deadline
               else Some(now + cfg.batchMax)
  {
    if frames != [] {
      var n := |frames| - 1;
      DeadlineOfFrames(cfg, c, source, frames[..n], now);
      DeadlineOfFrame(cfg, TakeFrames(cfg, c, source, frames[..n], now), source, frames[n], now);
    }
  }

  lemma DeadlineOfFrame(cfg: Config, c: Core, source: nat, frame: seq<byte>, now: int)
    ensures TakeFrame(cfg, c, source, frame, now).buffer.deadline
            == if c.buffer.deadline.Some? || !Decodes(frame) then c.buffer.deadline
               else Some(now + cfg.batchMax)
  {
  }

  lemma {:induction false} DeadlineOfMessage(cfg: Config, c: Core, t: Turn)
    ensures OnMessage(cfg, c, t).core.buffer.deadline
            == if c.buffer.deadline.Some? || FragmentsIn(t) == [] then c.buffer.deadline
               else Some(t.now + cfg.batchMax)
  {
    if t.message.Some? && t.message.value.Data? {
      var m := t.message.value;
      DeadlineOfFrames(cfg, CheckSeq(CheckRun(c, m.run), m.source, m.seqNo), m.source, m.payload,
                       t.now);
    }
  }

  lemma WaitingGrows(input: seq<Fragment>, more: seq<Fragment>, gone: nat)
    requires gone <= |input|
    ensures (input + more)[gone..] == input[gone..] + more
  {
  }

  lemma ArrivedSnoc(turns: seq<Turn>, j: nat)
    requires turns != [] && j < |Input(turns)|
    ensures var n := |turns| - 1;
            ArrivedAt(turns, j)
            == if j < |Input(turns[..n])| then ArrivedAt(turns[..n], j) else turns[n].now
  {
  }

  /** More fragments join a buffer; the first of all sets the deadline. */
  predicate Joins(cfg: Config, b: Buffer, more: seq<Fragment>, now: int, d: Buffer) {
    && d.pending == b.pending + more
    && d.deadline == if b.deadline.Some? || more == [] then b.deadline else Some(now + cfg.batchMax)
  }

  lemma {:induction false} MessageJoins(cfg: Config, c: Core, t: Turn)
    ensures Joins(cfg, c.buffer, FragmentsIn(t), t.now, OnMessage(cfg, c, t).core.buffer)
  {
    MessageAddsItsFragments(cfg, c, t);
    DeadlineOfMessage(cfg, c, t);
  }

  lemma InputSnoc(turns: seq<Turn>)
    requires turns != []
    ensures Input(turns) == Input(turns[..|turns| - 1]) + FragmentsIn(turns[|turns| - 1])
  {
  }

  /** The deadline of what waits: that of the oldest, or of the ones that just came. */
  lemma {:induction false} JoinedDeadline(
      cfg: Config, b: Buffer, d: Buffer, turns: seq<Turn>, gone: nat)
    requires turns != [] && (b.deadline.Some? <==> b.pending != [])
    requires WaitsSince(cfg, b, turns[..|turns| - 1], gone)
    requires Joins(cfg, b, FragmentsIn(turns[|turns| - 1]), turns[|turns| - 1].now, d)
    requires d.pending != [] && gone < |Input(turns)|
    ensures d.deadline == Some(ArrivedAt(turns, gone) + cfg.batchMax)
  {
    var before := Input(turns[..|turns| - 1]);
    ArrivedSnoc(turns, gone);
    if gone < |before| {
      assert b.pending == before[gone..] && |b.pending| > 0;
    } else {
      assert b.pending == [];
    }
  }

  lemma {:induction false} JoinedWaits(cfg: Config, b: Buffer, d: Buffer, turns: seq<Turn>, gone: nat)
    requires turns != [] && BufferOk(b) && WaitsSince(cfg, b, turns[..|turns| - 1], gone)
    requires Joins(cfg, b, FragmentsIn(turns[|turns| - 1]), turns[|turns| - 1].now, d)
    ensures WaitsSince(cfg, d, turns, gone)
  {
    var n := |turns| - 1;
    var before, more := Input(turns[..n]), FragmentsIn(turns[n]);
    InputSnoc(turns);
    WaitingGrows(before, more, gone);
    assert d.pending == (before + more)[gone..];
    if d.pending != [] {
      JoinedDeadline(cfg, b, d, turns, gone);
    }
  }

  lemma {:induction false} MessageWaits(cfg: Config, c: Core, turns: seq<Turn>, gone: nat)
    requires turns != [] && BufferOk(c.buffer)
    requires WaitsSince(cfg, c.buffer, turns[..|turns| - 1], gone)
    ensures WaitsSince(cfg, OnMessage(cfg, c, turns[|turns| - 1]).core.buffer, turns, gone)
  {
    var t := turns[|turns| - 1];
    MessageJoins(cfg, c, t);
    JoinedWaits(cfg, c.buffer, OnMessage(cfg, c, t).core.buffer, turns, gone);
  }

  /** What the turn decides to do with a buffer that waits like this. */
  lemma {:induction false} DecidesByDue(cfg: Config, c: Core, turns: seq<Turn>, gone: nat)
    requires turns != [] && CoreOk(c) && c.eos == RoundsOf(cfg, turns[..|turns| - 1]).eos
    requires WaitsSince(cfg, c.buffer, turns[..|turns| - 1], gone)
    ensures var t := turns[|turns| - 1];
            var d := OnMessage(cfg, c, t);
            var emit := if d.emit.Nothing? then Ticked(d.core, t.later) else d.emit;
            && (emit.FlushAndEndOfStream? <==> Completes(cfg, c.eos, t))
            && (d.core.buffer.pending != [] ==> (!emit.Nothing? <==> Due(cfg, turns, gone)))
  {
    var t := turns[|turns| - 1];
    EmitsAtTheEnd(cfg, c, t);
    MessageWaits(cfg, c, turns, gone);
    MessageKeepsCore(cfg, c, t);
  }

  lemma {:induction false} ActLeavesAs(c: Core, emit: Emit, t: Turn)
    ensures var m := Act(c, emit, t);
            && LeavesAs(m.out, c.buffer.pending, c.buffer.pending != [] && !emit.Nothing?,
                        emit.FlushAndEndOfStream?, t)
            && m.core.buffer == if emit.Nothing? then c.buffer
                                else if c.buffer.pending != [] || emit.FlushAndEndOfStream?
                                then EMPTY_BUFFER else c.buffer
  {
  }

  /** What has left so far is the front of the input, and the rest waits. */
  lemma {:induction false} TheRestWaits(cfg: Config, run: nat, turns: seq<Turn>)
    ensures var m := Run(cfg, run, turns);
            && |Output(m.out)| <= |Input(turns)|
            && WaitsSince(cfg, m.core.buffer, turns, |Output(m.out)|)
  {
    FragmentsAreConserved(cfg, run, turns);
    if turns != [] {
      var n := |turns| - 1;
      var t := turns[n];
      var m := Run(cfg, run, turns[..n]);
      TheRestWaits(cfg, run, turns[..n]);
      CoreStaysOk(cfg, run, turns[..n]);
      var d := OnMessage(cfg, m.core, t);
      var emit := if d.emit.Nothing? then Ticked(d.core, t.later) else d.emit;
      MessageWaits(cfg, m.core, turns, |Output(m.out)|);
      ActLeavesAs(d.core, emit, t);
      ActMovesFragments(d.core, emit, t, m.out);
      StillWaits(d.core, emit, t, m.out);
    }
  }

  /** Either everything pending leaves, or nothing does. */
  lemma {:induction false} StillWaits(c: Core, emit: Emit, t: Turn, out: seq<Out>)
    ensures var m := Act(c, emit, t);
            m.core.buffer.pending != [] ==> m.core.buffer == c.buffer && Output(out + m.out) == Output(out)
  {
    assert out + [] == out;
  }

  /**
   Departures. Over every list of turns, the last turn puts out one batch with everything that
   is waiting iff that is due, and behind it the own end of stream iff the round is over; and
   nothing else.
   */
  lemma {:induction false} DeparturesAreExact(cfg: Config, run: nat, turns: seq<Turn>)
    requires turns != []
    ensures var n := |turns| - 1;
            var before, after := Run(cfg, run, turns[..n]), Run(cfg, run, turns);
            var gone := |Output(before.out)|;
            && gone <= |Input(turns)| && before.out <= after.out
            && LeavesAs(after.out[|before.out|..], Input(turns)[gone..], Due(cfg, turns, gone),
                        Completes(cfg, RoundsOf(cfg, turns[..n]).eos, turns[n]), turns[n])
  {
    var n := |turns| - 1;
    var m := Run(cfg, run, turns[..n]);
    TheRestWaits(cfg, run, turns[..n]);
    CoreStaysOk(cfg, run, turns[..n]);
    BarrierInEveryRound(cfg, run, turns[..n]);
    var gone := |Output(m.out)|;
    MessageWaits(cfg, m.core, turns, gone);
    DecidesByDue(cfg, m.core, turns, gone);
    var d := OnMessage(cfg, m.core, turns[n]);
    ActLeavesAs(d.core, if d.emit.Nothing? then Ticked(d.core, turns[n].later) else d.emit, turns[n]);
  }
}

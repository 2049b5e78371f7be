/**
 The life of the decoder thread, round by round: a round ends when the last expected source has
 ended, and the thread rearms. What it checks and tracks, it checks and tracks within a round.
 */
module DecoderRounds {
  import opened Bytes
  import opened Messages
  import opened Decode
  import opened Restart
  import opened RunDecoder
  import opened DecoderLoop
  import opened DecoderLaws

  predicate Completes(cfg: Config, eos: set<nat>, t: Turn) {
    && t.message.Some? && t.message.value.EndOfStream?
    && cfg.expected <= eos + {t.message.value.source}
  }

  function AddTurn<T>(rounds: seq<seq<T>>, t: T): seq<seq<T>>
    requires rounds != []
  {
    rounds[..|rounds| - 1] + [rounds[|rounds| - 1] + [t]]
  }

  /** The turns, round by round; the last round is still open. */
  function TurnRounds(cfg: Config, turns: seq<Turn>): (rounds: seq<seq<Turn>>)
    ensures rounds != []
  {
    if turns == [] then [[]]
    else
      var n := |turns| - 1;
      var grown := AddTurn(TurnRounds(cfg, turns[..n]), turns[n]);
      if Completes(cfg, RoundsOf(cfg, turns[..n]).eos, turns[n]) then grown + [[]] else grown
  }

  function Last<T>(rounds: seq<seq<T>>): seq<T>
    requires rounds != []
  {
    rounds[|rounds| - 1]
  }

  // ---------------------------------------------------------------------
  // Sequence numbers
  // ---------------------------------------------------------------------

  /** What the sequence check makes of a turn. */
  function Checked(check: SeqCheck, t: Turn): SeqCheck {
    if t.message.Some? && t.message.value.Data? then
      Observe(check, t.message.value.source, t.message.value.seqNo)
    else check
  }

  lemma {:induction false} FramesKeepCheck(
      cfg: Config, c: Core, source: nat, frames: seq<seq<byte>>, now: int)
    ensures TakeFrames(cfg, c, source, frames, now).check == c.check
  {
    if frames != [] {
      FramesKeepCheck(cfg, c, source, frames[..|frames| - 1], now);
    }
  }

  lemma {:induction false} MessageIsChecked(cfg: Config, c: Core, t: Turn)
    ensures OnMessage(cfg, c, t).core.check == Checked(c.check, t)
  {
    if t.message.Some? && t.message.value.Data? {
      var m := t.message.value;
      FramesKeepCheck(cfg, CheckSeq(CheckRun(c, m.run), m.source, m.seqNo), m.source, m.payload, t.now);
    }
  }

  lemma ActAndCheck(c: Core, emit: Emit, t: Turn)
    ensures Act(c, emit, t).core.check
            == if emit.FlushAndEndOfStream? then c.check.(next := map[]) else c.check
  {
  }

  lemma {:induction false} EmitsAtTheEnd(cfg: Config, c: Core, t: Turn)
    requires CoreOk(c)
    ensures OnMessage(cfg, c, t).emit.FlushAndEndOfStream? <==> Completes(cfg, c.eos, t)
  {
    if t.message.Some? && t.message.value.EndOfStream? {
      EosKeepsCore(c, t.message.value.source, t.message.value.run);
    }
  }

  /** A turn is checked, and the turn that ends a round forgets the numbers. */
  lemma {:induction false} TurnIsChecked(cfg: Config, c: Core, t: Turn)
    requires CoreOk(c)
    ensures var check := Checked(c.check, t);
            OneTurn(cfg, c, t).core.check
            == if Completes(cfg, c.eos, t) then check.(next := map[]) else check
  {
    var d := OnMessage(cfg, c, t);
    MessageIsChecked(cfg, c, t);
    EmitsAtTheEnd(cfg, c, t);
    ActAndCheck(d.core, if d.emit.Nothing? then Ticked(d.core, t.later) else d.emit, t);
  }

  /** The numbered batches of some turns. */
  function ReceiptsIn(turns: seq<Turn>): seq<Receipt> {
    if turns == [] then []
    else
      var n := |turns| - 1;
      ReceiptsIn(turns[..n])
      + if turns[n].message.Some? && turns[n].message.value.Data?
        then [Receipt(turns[n].message.value.source, turns[n].message.value.seqNo)] else []
  }

  /** The gaps that every round has for itself. */
  function GapSum(rounds: seq<seq<Turn>>): nat {
    if rounds == [] then 0
    else GapSum(rounds[..|rounds| - 1]) + ObserveAll(ReceiptsIn(rounds[|rounds| - 1])).gaps
  }

  lemma {:induction false} GapSumSnoc(rounds: seq<seq<Turn>>, round: seq<Turn>)
    ensures GapSum(rounds + [round]) == GapSum(rounds) + ObserveAll(ReceiptsIn(round)).gaps
  {
    assert (rounds + [round])[..|rounds|] == rounds;
  }

  lemma {:induction false} ReceiptsSnoc(turns: seq<Turn>, t: Turn)
    ensures ObserveAll(ReceiptsIn(turns + [t])).next == Checked(ObserveAll(ReceiptsIn(turns)), t).next
    ensures ObserveAll(ReceiptsIn(turns + [t])).gaps == Checked(ObserveAll(ReceiptsIn(turns)), t).gaps
  {
    assert (turns + [t])[..|turns|] == turns;
    var rs := ReceiptsIn(turns);
    assert rs + [] == rs;
    if t.message.Some? && t.message.value.Data? {
      var r := Receipt(t.message.value.source, t.message.value.seqNo);
      assert (rs + [r])[..|rs|] == rs;
    }
  }

  /** The check holds the numbers of the open round and the gaps of all rounds. */
  ghost predicate CheckFits(check: SeqCheck, rounds: seq<seq<Turn>>)
    requires rounds != []
  {
    check.next == ObserveAll(ReceiptsIn(Last(rounds))).next && check.gaps == GapSum(rounds)
  }

  lemma {:induction false} CheckFitsTurn(check: SeqCheck, rounds: seq<seq<Turn>>, t: Turn)
    requires rounds != [] && CheckFits(check, rounds)
    ensures CheckFits(Checked(check, t), AddTurn(rounds, t))
  {
    var n := |rounds| - 1;
    ReceiptsSnoc(rounds[n], t);
    assert rounds == rounds[..n] + [rounds[n]];
    GapSumSnoc(rounds[..n], rounds[n]);
    GapSumSnoc(rounds[..n], rounds[n] + [t]);
  }

  lemma {:induction false} CheckFitsRearm(check: SeqCheck, rounds: seq<seq<Turn>>)
    requires rounds != [] && CheckFits(check, rounds)
    ensures CheckFits(check.(next := map[]), rounds + [[]])
  {
    GapSumSnoc(rounds, []);
  }

  lemma {:induction false} CheckOverRounds(cfg: Config, run: nat, turns: seq<Turn>)
    ensures CheckFits(Run(cfg, run, turns).core.check, TurnRounds(cfg, turns))
  {
    if turns == [] {
      GapSumSnoc([], []);
      assert [] + [[]] == TurnRounds(cfg, turns);
    } else {
      var n := |turns| - 1;
      CheckOverRounds(cfg, run, turns[..n]);
      BarrierInEveryRound(cfg, run, turns[..n]);
      CoreStaysOk(cfg, run, turns[..n]);
      var c := Run(cfg, run, turns[..n]).core;
      var rounds := TurnRounds(cfg, turns[..n]);
      TurnIsChecked(cfg, c, turns[n]);
      CheckFitsTurn(c.check, rounds, turns[n]);
      CheckFitsRearm(Checked(c.check, turns[n]), AddTurn(rounds, turns[n]));
    }
  }

  /** In every round the numbers of each source count up from zero without a hole. */
  ghost predicate ContiguousRounds(rounds: seq<seq<Turn>>) {
    forall i :: 0 <= i < |rounds| ==> AllContiguous(ReceiptsIn(rounds[i]))
  }

  lemma {:induction false} NoGapsInAnyRound(rounds: seq<seq<Turn>>)
    ensures GapSum(rounds) == 0 <==> ContiguousRounds(rounds)
  {
    if rounds != [] {
      var n := |rounds| - 1;
      NoGapsInAnyRound(rounds[..n]);
      NoGapIffContiguous(ReceiptsIn(rounds[n]));
      assert forall i :: 0 <= i < n ==> rounds[..n][i] == rounds[i];
    }
  }

  /**
   The gap counter of the decoder. Over every list of turns it is zero iff in every round the
   numbers of each source count up from zero without a hole.
   */
  lemma {:induction false} NoGapIffContiguousInEveryRound(cfg: Config, run: nat, turns: seq<Turn>)
    ensures Run(cfg, run, turns).core.check.gaps == 0
            <==> ContiguousRounds(TurnRounds(cfg, turns))
  {
    CheckOverRounds(cfg, run, turns);
    NoGapsInAnyRound(TurnRounds(cfg, turns));
  }

  lemma {:induction false} RoundsSnoc(cfg: Config, turns: seq<Turn>, t: Turn)
    ensures var before, grown := RoundsOf(cfg, turns).eos, AddTurn(TurnRounds(cfg, turns), t);
            && TurnRounds(cfg, turns + [t]) == (if Completes(cfg, before, t) then grown + [[]] else grown)
            && RoundsOf(cfg, turns + [t]).eos
               == if Completes(cfg, before, t) then {} else before + Ended([t])
  {
    assert (turns + [t])[..|turns|] == turns;
    assert [t][..0] == [];
  }

  predicate IsBatch(t: Turn, source: nat, seqNo: nat) {
    && t.message.Some? && t.message.value.Data?
    && t.message.value.source == source && t.message.value.seqNo == seqNo
  }

  predicate IsEnd(t: Turn, source: nat) {
    t.message.Some? && t.message.value.EndOfStream? && t.message.value.source == source
  }

  /** A batch of the only expected source does not end a round, its end of stream does. */
  lemma {:induction false} OneRound(cfg: Config, none: seq<Turn>, first: Turn, end: Turn)
    requires cfg.expected == {0} && none == [] && IsBatch(first, 0, 0) && IsEnd(end, 0)
    ensures TurnRounds(cfg, none + [first] + [end]) == [none + [first] + [end]] + [none]
    ensures RoundsOf(cfg, none + [first] + [end]).eos == {}
  {
    RoundsSnoc(cfg, none, first);
    BatchEndsNothing(first);
    assert AddTurn([none], first) == [none + [first]];
    RoundsSnoc(cfg, none + [first], end);
    assert AddTurn([none + [first]], end) == [none + [first] + [end]];
  }

  lemma {:induction false} BatchEndsNothing(t: Turn)
    requires t.message.Some? && t.message.value.Data?
    ensures Ended([t]) == {}
  {
    assert [t][..0] == [];
  }

  lemma {:induction false} FirstBatchGaps(none: seq<Turn>, t: Turn, seqNo: nat)
    requires none == [] && IsBatch(t, 0, seqNo)
    ensures ObserveAll(ReceiptsIn(none + [t])).gaps == if seqNo == 0 then 0 else 1
  {
    var check := ObserveAll(ReceiptsIn(none));
    assert check == FRESH_CHECK;
    ReceiptsSnoc(none, t);
    assert EntryOf(check.next, 0) == 0;
  }

  lemma {:induction false} EndAddsNoGap(turns: seq<Turn>, end: Turn)
    requires IsEnd(end, 0)
    ensures ObserveAll(ReceiptsIn(turns + [end])).gaps == ObserveAll(ReceiptsIn(turns)).gaps
  {
    ReceiptsSnoc(turns, end);
  }

  lemma {:induction false} RunOnRounds(
      cfg: Config, none: seq<Turn>, first: Turn, end: Turn, second: Turn)
    requires cfg.expected == {0} && none == []
    requires IsBatch(first, 0, 0) && IsEnd(end, 0) && IsBatch(second, 0, 1)
    ensures var before := none + [first] + [end];
            TurnRounds(cfg, before + [second]) == [before] + [none + [second]]
  {
    var before := none + [first] + [end];
    OneRound(cfg, none, first, end);
    RoundsSnoc(cfg, before, second);
    assert AddTurn([before] + [none], second) == [before] + [none + [second]];
  }

  /**
   A gap without a loss. A source whose numbers run on behind its end of stream, as those of a
   second connection in the same run do, counts a gap: the rearm has forgotten its numbers.
   */
  lemma {:induction false} NumbersThatRunOnCountAGap(
      cfg: Config, run: nat, first: Turn, end: Turn, second: Turn)
    requires cfg.expected == {0}
    requires IsBatch(first, 0, 0) && IsEnd(end, 0) && IsBatch(second, 0, 1)
    ensures Run(cfg, run, [first, end, second]).core.check.gaps == 1
  {
    var none: seq<Turn> := [];
    GapBehindTheEnd(cfg, run, none, first, end, second);
    assert none + [first] + [end] + [second] == [first, end, second];
  }

  lemma {:induction false} GapBehindTheEnd(
      cfg: Config, run: nat, none: seq<Turn>, first: Turn, end: Turn, second: Turn)
    requires cfg.expected == {0} && none == []
    requires IsBatch(first, 0, 0) && IsEnd(end, 0) && IsBatch(second, 0, 1)
    ensures Run(cfg, run, none + [first] + [end] + [second]).core.check.gaps == 1
  {
    var before := none + [first] + [end];
    RunOnRounds(cfg, none, first, end, second);
    CheckOverRounds(cfg, run, before + [second]);
    GapSumSnoc([], before);
    assert [] + [before] == [before];
    GapSumSnoc([before], none + [second]);
    FirstBatchGaps(none, first, 0);
    EndAddsNoGap(none + [first], end);
    FirstBatchGaps(none, second, 1);
  }

  // ---------------------------------------------------------------------
  // Acquisition restarts
  // ---------------------------------------------------------------------

  /** The data frames of a batch, as the tracker sees them. */
  function SeenInBatch(source: nat, frames: seq<seq<byte>>): seq<Seen> {
    if frames == [] then []
    else
      var n := |frames| - 1;
      SeenInBatch(source, frames[..n])
      + match Decoded(frames[n])
        case Some(f) =>
          FragmentWidths(frames[n]);
          [Seen(source, f.eventIdx, f.eventTime)]
        case None => []
  }

  function SeenInTurn(t: Turn): seq<Seen> {
    if t.message.Some? && t.message.value.Data?
    then SeenInBatch(t.message.value.source, t.message.value.payload) else []
  }

  function SeenIn(turns: seq<Turn>): seq<Seen> {
    if turns == [] then [] else SeenIn(turns[..|turns| - 1]) + SeenInTurn(turns[|turns| - 1])
  }

  lemma {:induction false} SeenSnoc(turns: seq<Turn>, t: Turn)
    ensures SeenIn(turns + [t]) == SeenIn(turns) + SeenInTurn(t)
  {
    assert (turns + [t])[..|turns|] == turns;
  }

  lemma {:induction false} TrackAllConcat(t: Tracker, expected: set<nat>, a: seq<Seen>, b: seq<Seen>)
    ensures TrackAll(t, expected, a + b) == TrackAll(TrackAll(t, expected, a), expected, b)
  {
    if b == [] {
      assert a + b == a;
    } else {
      var n := |b| - 1;
      assert (a + b)[..|a + b| - 1] == a + b[..n];
      TrackAllConcat(t, expected, a, b[..n]);
    }
  }

  lemma {:induction false} BatchIsTracked(
      cfg: Config, c: Core, source: nat, frames: seq<seq<byte>>, now: int)
    ensures TakeFrames(cfg, c, source, frames, now).tracker
            == TrackAll(c.tracker, cfg.expected, SeenInBatch(source, frames))
  {
    if frames != [] {
      var n := |frames| - 1;
      BatchIsTracked(cfg, c, source, frames[..n], now);
      var before := SeenInBatch(source, frames[..n]);
      assert before + [] == before;
      if Decoded(frames[n]).Some? {
        FragmentWidths(frames[n]);
        var f := Decoded(frames[n]).value;
        TrackAllSnoc(c.tracker, cfg.expected, before, Seen(source, f.eventIdx, f.eventTime));
      }
    }
  }

  lemma {:induction false} TrackAllSnoc(t: Tracker, expected: set<nat>, seen: seq<Seen>, last: Seen)
    ensures TrackAll(t, expected, seen + [last])
            == Track(TrackAll(t, expected, seen), expected, last.source, last.idx, last.time)
  {
    assert (seen + [last])[..|seen|] == seen;
  }

  lemma {:induction false} MessageIsTracked(cfg: Config, c: Core, t: Turn)
    ensures OnMessage(cfg, c, t).core.tracker == TrackAll(c.tracker, cfg.expected, SeenInTurn(t))
  {
    if t.message.Some? && t.message.value.Data? {
      var m := t.message.value;
      BatchIsTracked(cfg, CheckSeq(CheckRun(c, m.run), m.source, m.seqNo), m.source, m.payload, t.now);
    }
  }

  /** A turn is tracked, and the turn that ends a round rearms the tracker. */
  lemma {:induction false} TurnIsTracked(cfg: Config, c: Core, t: Turn)
    requires CoreOk(c)
    ensures var tracker := TrackAll(c.tracker, cfg.expected, SeenInTurn(t));
            OneTurn(cfg, c, t).core.tracker
            == if Completes(cfg, c.eos, t) then Rearmed(tracker) else tracker
  {
    var d := OnMessage(cfg, c, t);
    MessageIsTracked(cfg, c, t);
    EmitsAtTheEnd(cfg, c, t);
    ActAndTracker(d.core, if d.emit.Nothing? then Ticked(d.core, t.later) else d.emit, t);
  }

  const NEW_TRACKER := Tracker(map[], 0, 0, map[])

  /** The tracker after some rounds, rearmed between them. */
  ghost function TrackRounds(expected: set<nat>, rounds: seq<seq<Turn>>): Tracker {
    if rounds == [] then NEW_TRACKER
    else
      var n := |rounds| - 1;
      TrackAll(Rearmed(TrackRounds(expected, rounds[..n])), expected, SeenIn(rounds[n]))
  }

  lemma {:induction false} TrackRoundsSnoc(expected: set<nat>, rounds: seq<seq<Turn>>, round: seq<Turn>)
    ensures TrackRounds(expected, rounds + [round])
            == TrackAll(Rearmed(TrackRounds(expected, rounds)), expected, SeenIn(round))
  {
    assert (rounds + [round])[..|rounds|] == rounds;
  }

  lemma {:induction false} TrackRoundsTurn(expected: set<nat>, rounds: seq<seq<Turn>>, t: Turn)
    requires rounds != []
    ensures TrackRounds(expected, AddTurn(rounds, t))
            == TrackAll(TrackRounds(expected, rounds), expected, SeenInTurn(t))
  {
    var n := |rounds| - 1;
    SeenSnoc(rounds[n], t);
    TrackRoundsSnoc(expected, rounds[..n], rounds[n] + [t]);
    TrackAllConcat(Rearmed(TrackRounds(expected, rounds[..n])), expected, SeenIn(rounds[n]), SeenInTurn(t));
  }

  /** The tracker of the thread is that of its rounds. */
  lemma {:induction false} TrackerOverRounds(cfg: Config, run: nat, turns: seq<Turn>)
    ensures Run(cfg, run, turns).core.tracker == TrackRounds(cfg.expected, TurnRounds(cfg, turns))
  {
    if turns == [] {
      TrackRoundsSnoc(cfg.expected, [], []);
      assert [] + [[]] == TurnRounds(cfg, turns);
    } else {
      var n := |turns| - 1;
      TrackerOverRounds(cfg, run, turns[..n]);
      BarrierInEveryRound(cfg, run, turns[..n]);
      CoreStaysOk(cfg, run, turns[..n]);
      var rounds := TurnRounds(cfg, turns[..n]);
      TurnIsTracked(cfg, Run(cfg, run, turns[..n]).core, turns[n]);
      TrackRoundsTurn(cfg.expected, rounds, turns[n]);
      TrackRoundsSnoc(cfg.expected, AddTurn(rounds, turns[n]), []);
    }
  }

  /**
   Over every list of turns, a source's state is exact for its data frames since the last rearm:
   all are counted, and maximum and floor are those of exactly the frames of its current epoch.
   */
  lemma {:induction false} EpochStatesAreExact(cfg: Config, run: nat, turns: seq<Turn>, s: nat)
    ensures Exact(StateOf(Run(cfg, run, turns).core.tracker.epochs, s),
                  SeenFrom(SeenIn(Last(TurnRounds(cfg, turns))), s))
  {
    TrackerOverRounds(cfg, run, turns);
    var rounds := TurnRounds(cfg, turns);
    var n := |rounds| - 1;
    SourcesAreIndependent(Rearmed(TrackRounds(cfg.expected, rounds[..n])), cfg.expected,
                          SeenIn(rounds[n]), s);
    EpochStateIsExact(SeenFrom(SeenIn(rounds[n]), s));
  }

  /** The frames of a source before its first restart, in the first round that has one. */
  function FirstRestartEver(rounds: seq<seq<Turn>>, s: nat): Option<nat> {
    if rounds == [] then None
    else
      var n := |rounds| - 1;
      var before := FirstRestartEver(rounds[..n], s);
      if before.Some? then before else FirstRestart(SeenFrom(SeenIn(rounds[n]), s))
  }

  lemma {:induction false} KeptCountOverRounds(expected: set<nat>, rounds: seq<seq<Turn>>, s: nat)
    ensures KeptCount(TrackRounds(expected, rounds), s) == FirstRestartEver(rounds, s)
  {
    if rounds != [] {
      var n := |rounds| - 1;
      KeptCountOverRounds(expected, rounds[..n], s);
      FramesBeforeAreExact(Rearmed(TrackRounds(expected, rounds[..n])), expected, SeenIn(rounds[n]), s);
    }
  }

  /**
   Over the whole life of the thread, the count kept for a source is that of its frames before
   its first restart, counted from the beginning of the round, and no rearm changes it.
   */
  lemma {:induction false} FramesBeforeRestartEver(cfg: Config, run: nat, turns: seq<Turn>, s: nat)
    ensures KeptCount(Run(cfg, run, turns).core.tracker, s) == FirstRestartEver(TurnRounds(cfg, turns), s)
  {
    TrackerOverRounds(cfg, run, turns);
    KeptCountOverRounds(cfg.expected, TurnRounds(cfg, turns), s);
  }

  /** How often a source restarts within some frames. */
  function RestartsOf(seen: seq<Seen>, s: nat): nat {
    |EpochsOf(SeenFrom(seen, s))| - 1
  }

  /** The slowest expected source restarted `m` times. */
  ghost predicate IsLeast(m: nat, expected: set<nat>, seen: seq<Seen>) {
    if expected == {} then m == 0
    else
      && (forall s :: s in expected ==> m <= RestartsOf(seen, s))
      && (exists s :: s in expected && RestartsOf(seen, s) == m)
  }

  lemma {:induction false} MinIsLeast(t: Tracker, expected: set<nat>, seen: seq<Seen>)
    requires t.epochs == map[]
    ensures IsLeast(MinOf(TrackAll(t, expected, seen).epochs, expected), expected, seen)
  {
    var u := TrackAll(t, expected, seen);
    forall s: nat ensures StateOf(u.epochs, s).epoch == RestartsOf(seen, s) {
      SourcesAreIndependent(t, expected, seen, s);
      EpochStateIsExact(SeenFrom(seen, s));
    }
  }

  /** The restarts of the slowest source, round after round. */
  ghost predicate SumOfLeast(total: nat, expected: set<nat>, rounds: seq<seq<Turn>>) {
    if rounds == [] then total == 0
    else
      var n := |rounds| - 1;
      exists m: nat :: m <= total && IsLeast(m, expected, SeenIn(rounds[n]))
                       && SumOfLeast(total - m, expected, rounds[..n])
  }

  lemma {:induction false} RestartsAddUp(expected: set<nat>, rounds: seq<seq<Turn>>)
    ensures SumOfLeast(TrackRounds(expected, rounds).restarts, expected, rounds)
  {
    if rounds != [] {
      var n := |rounds| - 1;
      var before := TrackRounds(expected, rounds[..n]);
      RestartsAddUp(expected, rounds[..n]);
      var m := RoundAddsLeast(before, expected, SeenIn(rounds[n]));
      OneMoreRound(before.restarts, m, expected, rounds);
    }
  }

  lemma {:induction false} RoundAddsLeast(t: Tracker, expected: set<nat>, seen: seq<Seen>)
    returns (m: nat)
    ensures IsLeast(m, expected, seen)
    ensures TrackAll(Rearmed(t), expected, seen).restarts == t.restarts + m
  {
    RestartsAreMinEpoch(Rearmed(t), expected, seen);
    MinIsLeast(Rearmed(t), expected, seen);
    m := MinOf(TrackAll(Rearmed(t), expected, seen).epochs, expected);
  }

  lemma OneMoreRound(total: nat, m: nat, expected: set<nat>, rounds: seq<seq<Turn>>)
    requires rounds != [] && IsLeast(m, expected, SeenIn(rounds[|rounds| - 1]))
    requires SumOfLeast(total, expected, rounds[..|rounds| - 1])
    ensures SumOfLeast(total + m, expected, rounds)
  {
    assert total + m - m == total;
  }

  /**
   Over the whole life of the thread, the restart counter is the sum over all rounds of how often
   the slowest expected source restarted in the round; no rearm takes anything back.
   */
  lemma {:induction false} RestartCounterIsTheSum(cfg: Config, run: nat, turns: seq<Turn>)
    ensures SumOfLeast(Run(cfg, run, turns).core.tracker.restarts, cfg.expected, TurnRounds(cfg, turns))
  {
    TrackerOverRounds(cfg, run, turns);
    RestartsAddUp(cfg.expected, TurnRounds(cfg, turns));
  }
}

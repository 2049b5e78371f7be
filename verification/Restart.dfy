/**
 Acquisition restarts (`track_acquisition_restart`, src/decoder.rs): a source restarts when its
 event index falls back to zero with a clock that went back by more than 100 ms; the run
 counts a restart once every expected source has restarted.
 */
module Restart {
  import opened Bytes

  const RESTART_GATE_EVENT_IDX: nat := 8
  const RESTART_MIN_TIME_GAP: nat := 10_000_000
  const U64_MAX: nat := 0xFFFF_FFFF_FFFF_FFFF
  const TIME_LIMIT: nat := 0x1_0000_0000_0000 // 48-bit clock
  const U32_MAX: nat := 0xFFFF_FFFF

  type u64 = x: int | 0 <= x <= 0xFFFF_FFFF_FFFF_FFFF

  datatype SourceEpoch = SourceEpoch(epoch: nat, maxEventIdx: nat, timeFloor: nat, dataFrames: nat)

  const NEW_SOURCE := SourceEpoch(0, 0, U64_MAX, 0)

  function SaturatingAdd(a: nat, b: nat): nat {
    if a + b > U64_MAX then U64_MAX else a + b
  }

  predicate Restarts(e: SourceEpoch, idx: nat, time: nat) {
    && idx == 0
    && e.maxEventIdx > RESTART_GATE_EVENT_IDX
    && SaturatingAdd(time, RESTART_MIN_TIME_GAP) < e.timeFloor
  }

  /** One data frame of a source. */
  function Advance(e: SourceEpoch, idx: nat, time: nat): SourceEpoch {
    if Restarts(e, idx, time) then SourceEpoch(e.epoch + 1, 0, time, e.dataFrames + 1)
    else SourceEpoch(e.epoch, if idx > e.maxEventIdx then idx else e.maxEventIdx,
                     if time < e.timeFloor then time else e.timeFloor, e.dataFrames + 1)
  }

  function StateOf(epochs: map<nat, SourceEpoch>, source: nat): SourceEpoch {
    if source in epochs then epochs[source] else NEW_SOURCE
  }

  // ---------------------------------------------------------------------
  // The minimum over the expected sources
  // ---------------------------------------------------------------------

  /** `m` is the least epoch of the expected sources; a source not seen yet counts as zero. */
  ghost predicate IsMinEpoch(m: nat, epochs: map<nat, SourceEpoch>, expected: set<nat>) {
    if expected == {} then m == 0
    else
      && (forall s :: s in expected ==> m <= StateOf(epochs, s).epoch)
      && (exists s :: s in expected && StateOf(epochs, s).epoch == m)
  }

  method MinEpoch(epochs: map<nat, SourceEpoch>, expected: set<nat>) returns (m: nat)
    ensures IsMinEpoch(m, epochs, expected)
  {
    if expected == {} {
      return 0;
    }
    var s :| s in expected;
    m := StateOf(epochs, s).epoch;
    var rest := expected - {s};
    while rest != {}
      invariant rest <= expected
      invariant exists t :: t in expected && StateOf(epochs, t).epoch == m
      invariant forall t :: t in expected && t !in rest ==> m <= StateOf(epochs, t).epoch
      decreases rest
    {
      var t :| t in rest;
      if StateOf(epochs, t).epoch < m {
        m := StateOf(epochs, t).epoch;
      }
      rest := rest - {t};
    }
  }

  lemma MinIsUnique(m: nat, n: nat, epochs: map<nat, SourceEpoch>, expected: set<nat>)
    requires IsMinEpoch(m, epochs, expected) && IsMinEpoch(n, epochs, expected)
    ensures m == n
  {
  }

  ghost function MinOf(epochs: map<nat, SourceEpoch>, expected: set<nat>): (m: nat)
    ensures IsMinEpoch(m, epochs, expected)
  {
    MinExists(epochs, expected);
    var m :| IsMinEpoch(m, epochs, expected);
    m
  }

  lemma {:induction false} MinExists(epochs: map<nat, SourceEpoch>, expected: set<nat>)
    ensures exists m :: IsMinEpoch(m, epochs, expected)
    decreases expected
  {
    if expected == {} {
      assert IsMinEpoch(0, epochs, expected);
    } else {
      var s :| s in expected;
      var e := StateOf(epochs, s).epoch;
      var rest := expected - {s};
      MinExists(epochs, rest);
      var m :| IsMinEpoch(m, epochs, rest);
      var r := if rest == {} || e < m then e else m;
      assert forall t :: t in expected ==> t == s || t in rest;
      assert IsMinEpoch(r, epochs, expected);
    }
  }

  // ---------------------------------------------------------------------
  // The tracker
  // ---------------------------------------------------------------------

  datatype Tracker = Tracker(
    epochs: map<nat, SourceEpoch>, minEpoch: nat, restarts: nat, framesBefore: map<nat, nat>)

  ghost function Track(t: Tracker, expected: set<nat>, source: nat, idx: nat, time: nat): Tracker {
    var e := StateOf(t.epochs, source);
    var u := t.(epochs := t.epochs[source := Advance(e, idx, time)]);
    if !Restarts(e, idx, time) then u
    else
      var before := if source in t.framesBefore then t.framesBefore
                    else t.framesBefore[source := e.dataFrames];
      var m := MinOf(u.epochs, expected);
      if m > t.minEpoch then u.(framesBefore := before, minEpoch := m, restarts := t.restarts + 1)
      else u.(framesBefore := before)
  }

  /** Between runs the epochs are forgotten, the counters are kept. */
  function Rearmed(t: Tracker): Tracker {
    t.(epochs := map[], minEpoch := 0)
  }

  datatype Seen = Seen(source: nat, idx: nat, time: u64)

  ghost function TrackAll(t: Tracker, expected: set<nat>, seen: seq<Seen>): Tracker {
    if seen == [] then t
    else
      var last := seen[|seen| - 1];
      Track(TrackAll(t, expected, seen[..|seen| - 1]), expected, last.source, last.idx, last.time)
  }

  lemma {:induction false} MinRisesByAtMostOne(
      before: map<nat, SourceEpoch>, after: map<nat, SourceEpoch>, expected: set<nat>, source: nat)
    requires forall s :: s != source ==> StateOf(after, s).epoch == StateOf(before, s).epoch
    requires StateOf(before, source).epoch <= StateOf(after, source).epoch
             <= StateOf(before, source).epoch + 1
    ensures MinOf(before, expected) <= MinOf(after, expected) <= MinOf(before, expected) + 1
    ensures StateOf(after, source).epoch == StateOf(before, source).epoch
            ==> MinOf(after, expected) == MinOf(before, expected)
  {
    if expected != {} {
      var m, n := MinOf(before, expected), MinOf(after, expected);
      var s :| s in expected && StateOf(before, s).epoch == m;
      var t :| t in expected && StateOf(after, t).epoch == n;
      assert n <= StateOf(after, s).epoch <= m + 1;
      assert m <= StateOf(before, t).epoch <= n;
      if StateOf(after, source).epoch == StateOf(before, source).epoch {
        assert StateOf(after, s).epoch == m;
      }
    }
  }

  /**
   The run counter counts epochs of the slowest source: since the last rearm it has grown by
   exactly the minimum epoch over all expected sources, after any sequence of frames.
   */
  lemma {:induction false} RestartsAreMinEpoch(t: Tracker, expected: set<nat>, seen: seq<Seen>)
    requires t.epochs == map[] && t.minEpoch == 0
    ensures var u := TrackAll(t, expected, seen);
            && u.minEpoch == MinOf(u.epochs, expected)
            && u.restarts == t.restarts + MinOf(u.epochs, expected)
  {
    if seen == [] {
      MinIsUnique(0, MinOf(t.epochs, expected), t.epochs, expected);
    } else {
      var n := |seen| - 1;
      RestartsAreMinEpoch(t, expected, seen[..n]);
      var u, v := TrackAll(t, expected, seen[..n]), TrackAll(t, expected, seen);
      MinRisesByAtMostOne(u.epochs, v.epochs, expected, seen[n].source);
    }
  }

  // ---------------------------------------------------------------------
  // One source
  // ---------------------------------------------------------------------

  /** The frames of one source, in order. */
  function SeenFrom(seen: seq<Seen>, source: nat): seq<Seen> {
    if seen == [] then []
    else
      SeenFrom(seen[..|seen| - 1], source)
      + if seen[|seen| - 1].source == source then [seen[|seen| - 1]] else []
  }

  function SourceRun(seen: seq<Seen>): SourceEpoch {
    if seen == [] then NEW_SOURCE
    else Advance(SourceRun(seen[..|seen| - 1]), seen[|seen| - 1].idx, seen[|seen| - 1].time)
  }

  /**
   What a restart is, on the frames alone: the index falls back to zero after one of at least
   nine, and the clock is more than 100 ms (10 ns ticks) before all frames of the epoch.
   */
  predicate StartsAnew(current: seq<Seen>, x: Seen) {
    && x.idx == 0
    && (exists i :: 0 <= i < |current| && current[i].idx >= 9)
    && forall i :: 0 <= i < |current| ==> x.time + 10_000_000 < current[i].time
  }

  /** The frames of one source, epoch by epoch; a restarting frame opens its epoch. */
  function EpochsOf(seen: seq<Seen>): (epochs: seq<seq<Seen>>)
    ensures epochs != []
  {
    if seen == [] then [[]]
    else
      var n := |seen| - 1;
      var epochs := EpochsOf(seen[..n]);
      var k := |epochs| - 1;
      if StartsAnew(epochs[k], seen[n]) then epochs + [[seen[n]]]
      else epochs[..k] + [epochs[k] + [seen[n]]]
  }

  /** The frames since the source's last restart, the restarting frame included. */
  function CurrentEpoch(seen: seq<Seen>): seq<Seen> {
    EpochsOf(seen)[|EpochsOf(seen)| - 1]
  }

  /** Sources do not influence each other's epochs. */
  lemma {:induction false} SourcesAreIndependent(
      t: Tracker, expected: set<nat>, seen: seq<Seen>, source: nat)
    requires t.epochs == map[]
    ensures StateOf(TrackAll(t, expected, seen).epochs, source) == SourceRun(SeenFrom(seen, source))
  {
    if seen != [] {
      var n := |seen| - 1;
      SourcesAreIndependent(t, expected, seen[..n], source);
      var mine := SeenFrom(seen[..n], source);
      if seen[n].source == source {
        assert (mine + [seen[n]])[..|mine|] == mine;
      } else {
        assert mine + [] == mine;
      }
    }
  }

  /** How many frames of a source came before its first restart. */
  function FirstRestart(seen: seq<Seen>): Option<nat> {
    if |EpochsOf(seen)| > 1 then Some(|EpochsOf(seen)[0]|) else None
  }

  /**
   What a source's state means: all its frames are counted, its epoch is the number of restarts,
   and its index maximum and time floor are those of exactly the frames of the current epoch.
   */
  ghost predicate Exact(e: SourceEpoch, seen: seq<Seen>) {
    && e.dataFrames == |seen| && e.epoch == |EpochsOf(seen)| - 1
    && Bounds(e, CurrentEpoch(seen))
  }

  ghost predicate Bounds(e: SourceEpoch, current: seq<Seen>) {
    && (current == [] ==> e.maxEventIdx == 0 && e.timeFloor == U64_MAX)
    && (forall i :: 0 <= i < |current| ==> current[i].idx <= e.maxEventIdx)
    && (forall i :: 0 <= i < |current| ==> e.timeFloor <= current[i].time)
    && (current != [] ==> exists i :: 0 <= i < |current| && current[i].idx == e.maxEventIdx)
    && (current != [] ==> exists i :: 0 <= i < |current| && current[i].time == e.timeFloor)
  }

  /** The test on maximum and floor decides what the frames of the epoch say. */
  lemma {:induction false} RestartsIff(e: SourceEpoch, current: seq<Seen>, x: Seen)
    requires Bounds(e, current)
    ensures Restarts(e, x.idx, x.time) <==> StartsAnew(current, x)
  {
    if current != [] {
      var i :| 0 <= i < |current| && current[i].idx == e.maxEventIdx;
      var j :| 0 <= j < |current| && current[j].time == e.timeFloor;
      assert StartsAnew(current, x) ==> x.time + 10_000_000 < current[j].time;
    }
  }

  lemma {:induction false} BoundsGrow(e: SourceEpoch, current: seq<Seen>, x: Seen)
    requires Bounds(e, current)
    ensures !Restarts(e, x.idx, x.time) ==> Bounds(Advance(e, x.idx, x.time), current + [x])
    ensures Restarts(e, x.idx, x.time) ==> Bounds(Advance(e, x.idx, x.time), [x])
  {
    var grown := current + [x];
    assert grown[|current|] == x && [x][0] == x;
    if current != [] {
      var i :| 0 <= i < |current| && current[i].idx == e.maxEventIdx;
      var j :| 0 <= j < |current| && current[j].time == e.timeFloor;
      assert grown[i] == current[i] && grown[j] == current[j];
    }
  }

  lemma {:induction false} EpochStateIsExact(seen: seq<Seen>)
    ensures Exact(SourceRun(seen), seen)
  {
    if seen != [] {
      var n := |seen| - 1;
      EpochStateIsExact(seen[..n]);
      RestartsIff(SourceRun(seen[..n]), CurrentEpoch(seen[..n]), seen[n]);
      BoundsGrow(SourceRun(seen[..n]), CurrentEpoch(seen[..n]), seen[n]);
    }
  }

  lemma {:induction false} OneEpochHoldsAll(seen: seq<Seen>)
    ensures |EpochsOf(seen)| == 1 ==> EpochsOf(seen)[0] == seen
  {
    if seen != [] {
      var n := |seen| - 1;
      OneEpochHoldsAll(seen[..n]);
      assert seen == seen[..n] + [seen[n]];
    }
  }

  lemma {:induction false} FirstRestartSnoc(seen: seq<Seen>, x: Seen)
    ensures FirstRestart(seen + [x])
            == if FirstRestart(seen).Some? then FirstRestart(seen)
               else if Restarts(SourceRun(seen), x.idx, x.time) then Some(|seen|)
               else None
  {
    assert (seen + [x])[..|seen|] == seen;
    EpochStateIsExact(seen);
    RestartsIff(SourceRun(seen), CurrentEpoch(seen), x);
    OneEpochHoldsAll(seen);
  }

  /** The count kept for a source, if it has one. */
  function KeptCount(t: Tracker, source: nat): Option<nat> {
    if source in t.framesBefore then Some(t.framesBefore[source]) else None
  }

  /** A frame gives its source a count iff it has none and the frame restarts it. */
  lemma TrackKeepsCounts(t: Tracker, expected: set<nat>, x: Seen, source: nat)
    ensures var e := StateOf(t.epochs, source);
            KeptCount(Track(t, expected, x.source, x.idx, x.time), source)
            == if KeptCount(t, source).None? && x.source == source && Restarts(e, x.idx, x.time)
               then Some(e.dataFrames)
               else KeptCount(t, source)
  {
  }

  /**
   The count kept per source is that of the frames before its first restart; a count from an
   earlier run stays.
   */
  lemma {:induction false} FramesBeforeAreExact(
      t: Tracker, expected: set<nat>, seen: seq<Seen>, source: nat)
    requires t.epochs == map[]
    ensures KeptCount(TrackAll(t, expected, seen), source)
            == if KeptCount(t, source).Some? then KeptCount(t, source)
               else FirstRestart(SeenFrom(seen, source))
  {
    if seen != [] {
      var n := |seen| - 1;
      var mine := SeenFrom(seen[..n], source);
      FramesBeforeAreExact(t, expected, seen[..n], source);
      SourcesAreIndependent(t, expected, seen[..n], source);
      EpochStateIsExact(mine);
      TrackKeepsCounts(TrackAll(t, expected, seen[..n]), expected, seen[n], source);
      if seen[n].source == source {
        FirstRestartSnoc(mine, seen[n]);
      } else {
        assert mine + [] == mine;
      }
    }
  }

  /** Every epoch pays for itself with clock: its number times the gap still fits below the clock. */
  predicate EpochFits(e: SourceEpoch) {
    e == NEW_SOURCE || e.epoch * (RESTART_MIN_TIME_GAP + 1) + e.timeFloor < TIME_LIMIT
  }

  lemma AdvanceFits(e: SourceEpoch, idx: nat, time: nat)
    requires EpochFits(e) && time < TIME_LIMIT
    ensures EpochFits(Advance(e, idx, time))
  {
  }

  /**
   Each restart lowers the source's time floor by more than 10^7 ticks, so with 48-bit clocks
   an epoch never exceeds 2^48 / (10^7 + 1) and its 32-bit counter cannot overflow.
   */
  lemma {:induction false} EpochIsBounded(seen: seq<Seen>)
    requires forall i :: 0 <= i < |seen| ==> seen[i].time < TIME_LIMIT
    ensures var e := SourceRun(seen);
            && EpochFits(e)
            && e.epoch <= TIME_LIMIT / (RESTART_MIN_TIME_GAP + 1) < U32_MAX
  {
    if seen != [] {
      var n := |seen| - 1;
      EpochIsBounded(seen[..n]);
      AdvanceFits(SourceRun(seen[..n]), seen[n].idx, seen[n].time);
    }
  }
}

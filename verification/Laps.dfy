/**
 Lap mode (`run_laps`, src/bin/graw_replay.rs): the merged stream is sent again and again, with
 the event index of every data frame raised by lap * (largest index + 1) so that laps stay
 apart, as far as 32 bits reach.
 */
module Laps {
  import opened Bytes
  import opened Decode
  import opened Merge

  /** Overwrites header bytes 22..26 in the frame's own byte order. */
  function Patched(frame: Frame, idx: nat): (r: Frame)
    requires |frame| >= 28
    ensures |r| == |frame|
  {
    frame[..22] + Put(idx, 4, F.IsLittle(frame[0])) + frame[26..]
  }

  /** What one lap makes of a frame; the sum is cut to 32 bits. */
  function OnLap(frame: Frame, lap: nat, maxIdx: nat): Frame {
    if !IsEvent(frame) || lap == 0 then frame
    else Patched(frame, (EventIdx(frame) + lap * (maxIdx + 1)) % U32_LIMIT)
  }

  function Lap(frames: seq<Frame>, lap: nat, maxIdx: nat): seq<Frame> {
    seq(|frames|, i requires 0 <= i < |frames| => OnLap(frames[i], lap, maxIdx))
  }

  function AllLaps(frames: seq<Frame>, laps: nat, maxIdx: nat): seq<Frame> {
    if laps == 0 then [] else AllLaps(frames, laps - 1, maxIdx) + Lap(frames, laps - 1, maxIdx)
  }

  function MaxIdx(frames: seq<Frame>): nat {
    if frames == [] then 0
    else
      var m := MaxIdx(frames[..|frames| - 1]);
      var f := frames[|frames| - 1];
      if IsEvent(f) && EventIdx(f) > m then EventIdx(f) else m
  }

  /** One lap: the frames go out patched; the first lap also measures the largest index. */
  method SendLap(frames: seq<Frame>, lap: nat, maxIdx: nat) returns (sent: seq<Frame>, lapMax: nat)
    ensures sent == Lap(frames, lap, maxIdx)
    ensures lap == 0 ==> lapMax == MaxIdx(frames)
  {
    sent, lapMax := [], 0;
    for i := 0 to |frames|
      invariant lap == 0 ==> lapMax == MaxIdx(frames[..i])
      invariant sent == Lap(frames[..i], lap, maxIdx)
    {
      assert frames[..i + 1][..i] == frames[..i];
      var f := frames[i];
      if lap == 0 && IsEvent(f) && EventIdx(f) > lapMax {
        lapMax := EventIdx(f);
      }
      sent := sent + [OnLap(f, lap, maxIdx)];
    }
    assert frames[..|frames|] == frames;
  }

  /** The loop ends behind lap `k`: enough laps, or the clock, looked at behind every lap, says so. */
  predicate StopsAfter(laps: Option<nat>, timeUp: seq<bool>, k: nat) {
    (laps.Some? && k >= laps.value) || (0 < k <= |timeUp| && timeUp[k - 1])
  }

  /** What lap mode sends: the same merge again and again, shifted. */
  ghost predicate SentLaps(files: seq<seq<byte>>, merged: seq<Tagged>, laps: nat, sent: seq<Frame>) {
    IsMerge(FramesOfFiles(files), merged)
    && sent == AllLaps(Frames(merged), laps, MaxIdx(Frames(merged)))
  }

  /**
   The lap loop. Every lap opens and merges the files anew; files without a corrupt header always
   give the same merge, so the output is its laps, shifted by the maximum measured on the first.
   There is at least one lap; with a count there are that many, unless the clock ends it earlier.
   */
  method RunLaps(files: seq<seq<byte>>, laps: Option<nat>, timeUp: seq<bool>)
    returns (sent: seq<Frame>, done: nat, ghost merged: seq<Tagged>)
    requires laps.Some? || exists k :: 0 <= k < |timeUp| && timeUp[k]
    ensures 0 < done && ((laps.Some? && laps.value <= done) || (done <= |timeUp| && timeUp[done - 1]))
    ensures done == 1 || (laps.Some? ==> done <= laps.value)
    ensures forall i :: 0 <= i < done - 1 && i < |timeUp| ==> !timeUp[i]
    ensures NoneCorrupt(files) ==> SentLaps(files, merged, done, sent)
  {
    ghost var bound := LapBound(laps, timeUp);
    var out := ReplayFiles(files);
    merged := out;
    var maxIdx;
    sent, maxIdx := SendLap(Frames(out), 0, 0);
    FirstLap(Frames(out), sent);
    done := 1;
    while !StopsAfter(laps, timeUp, done)
      invariant 0 < done <= bound && maxIdx == MaxIdx(Frames(merged))
      invariant done == 1 || (laps.Some? ==> done <= laps.value)
      invariant forall i :: 0 <= i < done - 1 && i < |timeUp| ==> !timeUp[i]
      invariant NoneCorrupt(files) ==> SentLaps(files, merged, done, sent)
      decreases bound - done
    {
      out := ReplayFiles(files);
      var more, _ := SendLap(Frames(out), done, maxIdx);
      if NoneCorrupt(files) {
        MergeIsUnique(FramesOfFiles(files), merged, out);
      }
      sent := sent + more;
      done := done + 1;
    }
  }

  /** A lap behind which the loop certainly ends. */
  lemma {:induction false} LapBound(laps: Option<nat>, timeUp: seq<bool>) returns (bound: nat)
    requires laps.Some? || exists k :: 0 <= k < |timeUp| && timeUp[k]
    ensures bound > 0 && StopsAfter(laps, timeUp, bound)
  {
    if laps.Some? {
      bound := laps.value + 1;
    } else {
      var k :| 0 <= k < |timeUp| && timeUp[k];
      bound := k + 1;
    }
  }

  /** The first lap is not shifted, whatever the shift would be. */
  lemma {:induction false} FirstLap(frames: seq<Frame>, sent: seq<Frame>)
    requires sent == Lap(frames, 0, 0)
    ensures sent == AllLaps(frames, 1, MaxIdx(frames))
  {
    assert AllLaps(frames, 0, MaxIdx(frames)) == [];
    assert Lap(frames, 0, MaxIdx(frames)) == sent;
    assert [] + sent == sent;
  }

  // ---------------------------------------------------------------------
  // Patching changes the event index and nothing else
  // ---------------------------------------------------------------------

  /** Only bytes 22..26 change; length, type, AsAd and everything else stay. */
  lemma {:induction false} PatchIsLocal(frame: Frame, idx: nat)
    requires |frame| >= 28
    ensures forall i :: 0 <= i < |frame| && !(22 <= i < 26) ==> Patched(frame, idx)[i] == frame[i]
    ensures PeekAsad(Patched(frame, idx)) == PeekAsad(frame)
  {
    var r := Patched(frame, idx);
    assert r[5..7] == frame[5..7];
  }

  /** The patched index reads back, in either byte order. */
  lemma {:induction false} PatchReadsBack(frame: Frame, idx: nat)
    requires IsEvent(frame) && idx < U32_LIMIT
    ensures PeekEventIdx(Patched(frame, idx)) == Some(idx)
  {
    PatchIsLocal(frame, idx);
    var r := Patched(frame, idx);
    assert r[5..7] == frame[5..7];
    assert r[22..26] == Put(idx, 4, F.IsLittle(frame[0]));
    assert Pow256(4) == U32_LIMIT;
    PutThenRead(idx, 4, F.IsLittle(frame[0]));
  }

  lemma {:induction false} MaxIdxBounds(frames: seq<Frame>, i: nat)
    requires i < |frames| && IsEvent(frames[i])
    ensures EventIdx(frames[i]) <= MaxIdx(frames)
  {
    if i < |frames| - 1 {
      MaxIdxBounds(frames[..|frames| - 1], i);
    }
  }

  lemma {:induction false} MaxIdxIsReached(frames: seq<Frame>) returns (i: nat)
    requires exists j :: 0 <= j < |frames| && IsEvent(frames[j])
    ensures i < |frames| && IsEvent(frames[i]) && EventIdx(frames[i]) == MaxIdx(frames)
  {
    var n := |frames| - 1;
    var j :| 0 <= j < |frames| && IsEvent(frames[j]);
    if exists k :: 0 <= k < n && IsEvent(frames[k]) {
      var k :| 0 <= k < n && IsEvent(frames[k]);
      assert frames[..n][k] == frames[k];
      i := MaxIdxIsReached(frames[..n]);
      if IsEvent(frames[n]) && EventIdx(frames[n]) > MaxIdx(frames[..n]) {
        i := n;
      }
    } else {
      i := n;
      NoEventsNoMax(frames[..n]);
    }
  }

  lemma {:induction false} NoEventsNoMax(frames: seq<Frame>)
    requires forall k :: 0 <= k < |frames| ==> !IsEvent(frames[k])
    ensures MaxIdx(frames) == 0
  {
    if frames != [] {
      NoEventsNoMax(frames[..|frames| - 1]);
    }
  }

  /** The first index of a lap: lap * (maxIdx + 1). */
  ghost function Base(lap: nat, maxIdx: nat): nat {
    if lap == 0 then 0 else Base(lap - 1, maxIdx) + maxIdx + 1
  }

  lemma {:induction false} BaseIsProduct(lap: nat, maxIdx: nat)
    ensures Base(lap, maxIdx) == lap * (maxIdx + 1)
  {
    if lap > 0 {
      BaseIsProduct(lap - 1, maxIdx);
      assert lap * (maxIdx + 1) == (lap - 1) * (maxIdx + 1) + maxIdx + 1;
    }
  }

  lemma {:induction false} BaseRises(lap: nat, other: nat, maxIdx: nat)
    requires lap < other
    ensures Base(lap, maxIdx) + maxIdx + 1 <= Base(other, maxIdx)
    decreases other
  {
    if lap < other - 1 {
      BaseRises(lap, other - 1, maxIdx);
    }
  }

  /** The index a data frame has on a lap. */
  lemma {:induction false} LapIndex(frame: Frame, lap: nat, maxIdx: nat)
    requires IsEvent(frame)
    ensures IsEvent(OnLap(frame, lap, maxIdx))
    ensures EventIdx(OnLap(frame, lap, maxIdx)) == (EventIdx(frame) + Base(lap, maxIdx)) % U32_LIMIT
  {
    FieldWidth(frame, 22, 4);
    assert Pow256(4) == U32_LIMIT;
    BaseIsProduct(lap, maxIdx);
    if lap > 0 {
      PatchReadsBack(frame, (EventIdx(frame) + lap * (maxIdx + 1)) % U32_LIMIT);
    }
  }

  lemma {:induction false} LapKeepsControl(frame: Frame, lap: nat, maxIdx: nat)
    ensures IsEvent(OnLap(frame, lap, maxIdx)) <==> IsEvent(frame)
  {
    if IsEvent(frame) {
      LapIndex(frame, lap, maxIdx);
    }
  }

  // ---------------------------------------------------------------------
  // Laps stay apart
  // ---------------------------------------------------------------------

  lemma {:induction false} LapEvent(frame: Frame, lap: nat, maxIdx: nat)
    requires IsEvent(frame) && EventIdx(frame) + Base(lap, maxIdx) < U32_LIMIT
    ensures IsEvent(OnLap(frame, lap, maxIdx))
    ensures EventIdx(OnLap(frame, lap, maxIdx)) == EventIdx(frame) + Base(lap, maxIdx)
  {
    LapIndex(frame, lap, maxIdx);
    SmallIsUncut(EventIdx(frame) + Base(lap, maxIdx));
  }

  lemma SmallIsUncut(x: nat)
    requires x < U32_LIMIT
    ensures x % U32_LIMIT == x
  {
  }

  /** While the laps fit 32 bits, lap L uses only indices of [Base(L), Base(L + 1)). */
  lemma {:induction false} LapRange(frames: seq<Frame>, i: nat, lap: nat, laps: nat)
    requires i < |frames| && IsEvent(frames[i])
    requires lap < laps && Base(laps, MaxIdx(frames)) <= U32_LIMIT
    ensures var maxIdx := MaxIdx(frames);
            var f := Lap(frames, lap, maxIdx)[i];
            && IsEvent(f)
            && EventIdx(f) == Base(lap, maxIdx) + EventIdx(frames[i])
            && Base(lap, maxIdx) <= EventIdx(f) < Base(lap + 1, maxIdx)
  {
    var maxIdx := MaxIdx(frames);
    MaxIdxBounds(frames, i);
    BaseRises(lap, laps, maxIdx);
    LapEvent(frames[i], lap, maxIdx);
  }

  /** Two laps that fit never use the same index. */
  lemma {:induction false} LapsNeverCollide(
      frames: seq<Frame>, i: nat, j: nat, lap: nat, other: nat, laps: nat)
    requires i < |frames| && IsEvent(frames[i]) && j < |frames| && IsEvent(frames[j])
    requires lap < other < laps && laps * (MaxIdx(frames) + 1) <= U32_LIMIT
    ensures var maxIdx := MaxIdx(frames);
            var f, g := Lap(frames, lap, maxIdx)[i], Lap(frames, other, maxIdx)[j];
            IsEvent(f) && IsEvent(g) && EventIdx(f) < EventIdx(g)
  {
    BaseIsProduct(laps, MaxIdx(frames));
    LapRange(frames, i, lap, laps);
    LapRange(frames, j, other, laps);
    BaseRises(lap, other, MaxIdx(frames));
  }

  /** Frame `i` of a lap has a place in the whole output, behind all places of earlier laps. */
  lemma {:induction false} LapPosition(frames: seq<Frame>, lap: nat, laps: nat, maxIdx: nat, i: nat)
    returns (p: nat)
    requires lap < laps && i < |frames|
    ensures |AllLaps(frames, lap, maxIdx)| <= p < |AllLaps(frames, lap + 1, maxIdx)|
    ensures p < |AllLaps(frames, laps, maxIdx)|
    ensures AllLaps(frames, laps, maxIdx)[p] == OnLap(frames[i], lap, maxIdx)
    decreases laps
  {
    if lap < laps - 1 {
      p := LapPosition(frames, lap, laps - 1, maxIdx, i);
    } else {
      p := |AllLaps(frames, lap, maxIdx)| + i;
    }
  }

  /** All data frames have an index in [lo, hi). */
  ghost predicate Within(frames: seq<Frame>, lo: nat, hi: nat) {
    forall p :: 0 <= p < |frames| && IsEvent(frames[p]) ==> lo <= EventIdx(frames[p]) < hi
  }

  /** A lap is sorted and uses only its own indices. */
  ghost predicate LapSorted(frames: seq<Frame>, lap: nat, maxIdx: nat) {
    && FileSorted(Lap(frames, lap, maxIdx))
    && Within(Lap(frames, lap, maxIdx), Base(lap, maxIdx), Base(lap + 1, maxIdx))
  }

  lemma {:induction false} LapIsSorted(frames: seq<Frame>, lap: nat, laps: nat, maxIdx: nat)
    requires FileSorted(frames) && maxIdx == MaxIdx(frames)
    requires lap < laps && Base(laps, maxIdx) <= U32_LIMIT
    ensures LapSorted(frames, lap, maxIdx)
  {
    var sent := Lap(frames, lap, maxIdx);
    forall i | 0 <= i < |sent| && IsEvent(sent[i])
      ensures IsEvent(frames[i]) && EventIdx(sent[i]) == Base(lap, maxIdx) + EventIdx(frames[i])
      ensures Base(lap, maxIdx) <= EventIdx(sent[i]) < Base(lap + 1, maxIdx)
    {
      LapKeepsControl(frames[i], lap, maxIdx);
      LapRange(frames, i, lap, laps);
    }
  }

  /** All laps in front of the n-th, sorted and below its first index. */
  ghost predicate LapsSorted(frames: seq<Frame>, n: nat, maxIdx: nat) {
    FileSorted(AllLaps(frames, n, maxIdx)) && Within(AllLaps(frames, n, maxIdx), 0, Base(n, maxIdx))
  }

  lemma {:induction false} OneLapMore(frames: seq<Frame>, n: nat, maxIdx: nat)
    requires LapsSorted(frames, n, maxIdx) && LapSorted(frames, n, maxIdx)
    ensures LapsSorted(frames, n + 1, maxIdx)
  {
    SortedConcat(AllLaps(frames, n, maxIdx), Lap(frames, n, maxIdx), Base(n, maxIdx), Base(n + 1, maxIdx));
  }

  lemma {:induction false} NoLapIsSorted(frames: seq<Frame>, maxIdx: nat)
    ensures LapsSorted(frames, 0, maxIdx)
  {
    assert AllLaps(frames, 0, maxIdx) == [];
  }

  /** Laps that fit, one behind the other, stay sorted. */
  lemma {:induction false} SortedWhileLapsFit(frames: seq<Frame>, n: nat, laps: nat, maxIdx: nat)
    requires FileSorted(frames) && maxIdx == MaxIdx(frames)
    requires n <= laps && Base(laps, maxIdx) <= U32_LIMIT
    ensures LapsSorted(frames, n, maxIdx)
  {
    if n == 0 {
      NoLapIsSorted(frames, maxIdx);
    } else {
      SortedWhileLapsFit(frames, n - 1, laps, maxIdx);
      LapIsSorted(frames, n - 1, laps, maxIdx);
      OneLapMore(frames, n - 1, maxIdx);
    }
  }

  lemma SortedConcat(a: seq<Frame>, b: seq<Frame>, mid: nat, hi: nat)
    requires FileSorted(a) && FileSorted(b)
    requires Within(a, 0, mid) && Within(b, mid, hi) && mid <= hi
    ensures FileSorted(a + b) && Within(a + b, 0, hi)
  {
  }

  /** The first lap whose largest index no longer fits. */
  lemma {:induction false} WrappingLap(laps: nat, maxIdx: nat) returns (lap: nat)
    requires maxIdx + 1 < U32_LIMIT && Base(laps, maxIdx) > U32_LIMIT
    ensures 0 < lap < laps && Base(lap, maxIdx) <= U32_LIMIT < Base(lap + 1, maxIdx)
  {
    if Base(laps - 1, maxIdx) <= U32_LIMIT {
      lap := laps - 1;
    } else {
      lap := WrappingLap(laps - 1, maxIdx);
    }
  }

  /** The lap that no longer fits falls back behind the one before it. */
  lemma {:induction false} LapFallsBack(frame: Frame, lap: nat, maxIdx: nat)
    requires IsEvent(frame) && EventIdx(frame) == maxIdx && maxIdx + 1 < U32_LIMIT && lap > 0
    requires Base(lap, maxIdx) <= U32_LIMIT < Base(lap + 1, maxIdx)
    ensures var f, g := OnLap(frame, lap - 1, maxIdx), OnLap(frame, lap, maxIdx);
            IsEvent(f) && IsEvent(g) && EventIdx(g) < EventIdx(f)
  {
    LapEvent(frame, lap - 1, maxIdx);
    LapIndex(frame, lap, maxIdx);
  }

  /** In a sorted output no data frame falls behind one of the lap before it. */
  lemma {:induction false} SortedLapsRise(
      frames: seq<Frame>, lap: nat, laps: nat, maxIdx: nat, i: nat, j: nat)
    requires 0 < lap < laps && i < |frames| && j < |frames|
    ensures var f, g := OnLap(frames[i], lap - 1, maxIdx), OnLap(frames[j], lap, maxIdx);
            FileSorted(AllLaps(frames, laps, maxIdx)) && IsEvent(f) && IsEvent(g) ==>
              EventIdx(f) <= EventIdx(g)
  {
    var p := LapPosition(frames, lap - 1, laps, maxIdx, i);
    var q := LapPosition(frames, lap, laps, maxIdx, j);
    SortedAt(AllLaps(frames, laps, maxIdx), p, q);
  }

  lemma {:induction false} OverflowBreaksOrder(frames: seq<Frame>, laps: nat)
    requires exists j :: 0 <= j < |frames| && IsEvent(frames[j])
    requires MaxIdx(frames) + 1 < U32_LIMIT && Base(laps, MaxIdx(frames)) > U32_LIMIT
    ensures !FileSorted(AllLaps(frames, laps, MaxIdx(frames)))
  {
    var i := MaxIdxIsReached(frames);
    var lap := WrappingLap(laps, MaxIdx(frames));
    LapFallsBack(frames[i], lap, MaxIdx(frames));
    SortedLapsRise(frames, lap, laps, MaxIdx(frames), i, i);
  }

  lemma SortedAt(frames: seq<Frame>, p: nat, q: nat)
    requires p < q < |frames|
    ensures FileSorted(frames) && IsEvent(frames[p]) && IsEvent(frames[q]) ==>
              EventIdx(frames[p]) <= EventIdx(frames[q])
  {
  }

  /** With the largest 32-bit index in use, the shift is a multiple of 2^32 and does nothing. */
  lemma {:induction false} FullWidthRepeats(frame: Frame, lap: nat)
    requires IsEvent(frame)
    ensures IsEvent(OnLap(frame, lap, U32_LIMIT - 1))
    ensures EventIdx(OnLap(frame, lap, U32_LIMIT - 1)) == EventIdx(frame)
  {
    FieldWidth(frame, 22, 4);
    assert Pow256(4) == U32_LIMIT;
    LapIndex(frame, lap, U32_LIMIT - 1);
    FullTurns(lap, EventIdx(frame));
  }

  lemma {:induction false} FullTurns(lap: nat, x: nat)
    requires x < U32_LIMIT
    ensures (x + Base(lap, U32_LIMIT - 1)) % U32_LIMIT == x
  {
    if lap > 0 {
      FullTurns(lap - 1, x);
      var y := x + Base(lap - 1, U32_LIMIT - 1);
      assert x + Base(lap, U32_LIMIT - 1) == y + U32_LIMIT;
    }
  }

  /** Every data frame has the largest index. */
  ghost predicate AllAtMax(frames: seq<Frame>) {
    forall i :: 0 <= i < |frames| && IsEvent(frames[i]) ==> EventIdx(frames[i]) == MaxIdx(frames)
  }

  lemma {:induction false} FullWidthBreaksOrder(frames: seq<Frame>, laps: nat)
    requires MaxIdx(frames) == U32_LIMIT - 1 && laps > 1 && !AllAtMax(frames)
    ensures !FileSorted(AllLaps(frames, laps, MaxIdx(frames)))
  {
    var j :| 0 <= j < |frames| && IsEvent(frames[j]) && EventIdx(frames[j]) != MaxIdx(frames);
    MaxIdxBounds(frames, j);
    var i := MaxIdxIsReached(frames);
    FullWidthRepeats(frames[i], 0);
    FullWidthRepeats(frames[j], 1);
    SortedLapsRise(frames, 1, laps, MaxIdx(frames), i, j);
  }

  lemma {:induction false} LapAtMax(frames: seq<Frame>, lap: nat, maxIdx: nat)
    requires maxIdx == MaxIdx(frames) == U32_LIMIT - 1 && AllAtMax(frames)
    ensures Within(Lap(frames, lap, maxIdx), U32_LIMIT - 1, U32_LIMIT)
  {
    var sent := Lap(frames, lap, maxIdx);
    forall i | 0 <= i < |sent| && IsEvent(sent[i]) ensures EventIdx(sent[i]) == U32_LIMIT - 1 {
      LapKeepsControl(frames[i], lap, maxIdx);
      FullWidthRepeats(frames[i], lap);
    }
  }

  lemma WithinConcat(a: seq<Frame>, b: seq<Frame>, lo: nat, hi: nat)
    requires Within(a, lo, hi) && Within(b, lo, hi)
    ensures Within(a + b, lo, hi)
  {
  }

  lemma {:induction false} FullWidthAllAtMax(frames: seq<Frame>, laps: nat, maxIdx: nat)
    requires maxIdx == MaxIdx(frames) == U32_LIMIT - 1 && AllAtMax(frames)
    ensures Within(AllLaps(frames, laps, maxIdx), U32_LIMIT - 1, U32_LIMIT)
  {
    if laps > 0 {
      FullWidthAllAtMax(frames, laps - 1, maxIdx);
      LapAtMax(frames, laps - 1, maxIdx);
      WithinConcat(AllLaps(frames, laps - 1, maxIdx), Lap(frames, laps - 1, maxIdx), U32_LIMIT - 1, U32_LIMIT);
    }
  }

  lemma {:induction false} MaxIdxFits(frames: seq<Frame>)
    ensures MaxIdx(frames) < U32_LIMIT
  {
    if frames != [] {
      MaxIdxFits(frames[..|frames| - 1]);
      var f := frames[|frames| - 1];
      if IsEvent(f) {
        FieldWidth(f, 22, 4);
        assert Pow256(4) == U32_LIMIT;
      }
    }
  }

  /**
   Lap mode keeps event order exactly as long as the laps fit 32 bits; the one exception is a
   recording whose only event index is the largest one, which repeats itself on every lap.
   */
  lemma {:induction false} LapsStaySortedIffTheyFit(frames: seq<Frame>, laps: nat)
    requires FileSorted(frames) && exists j :: 0 <= j < |frames| && IsEvent(frames[j])
    ensures FileSorted(AllLaps(frames, laps, MaxIdx(frames)))
            <==> || laps * (MaxIdx(frames) + 1) <= U32_LIMIT
                 || (MaxIdx(frames) == U32_LIMIT - 1 && AllAtMax(frames))
  {
    var maxIdx := MaxIdx(frames);
    MaxIdxFits(frames);
    BaseIsProduct(laps, maxIdx);
    if Base(laps, maxIdx) <= U32_LIMIT {
      SortedWhileLapsFit(frames, laps, laps, maxIdx);
    } else if maxIdx + 1 < U32_LIMIT {
      OverflowBreaksOrder(frames, laps);
    } else if AllAtMax(frames) {
      FullWidthAllAtMax(frames, laps, maxIdx);
    } else {
      FullWidthBreaksOrder(frames, laps);
    }
  }

  lemma {:induction false} MergeIsSorted(files: seq<seq<Frame>>, merged: seq<Tagged>)
    requires IsMerge(files, merged) && AllSorted(files)
    ensures FileSorted(Frames(merged))
  {
    var frames := Frames(merged);
    forall p, q | 0 <= p < q < |frames| && IsEvent(frames[p]) && IsEvent(frames[q])
      ensures EventIdx(frames[p]) <= EventIdx(frames[q])
    {
      assert NotAfter(merged[p].frame, merged[p].file, merged[q].frame, merged[q].file);
    }
  }

  /**
   Sorted files replayed in laps: what `RunLaps` sends is in event order iff the laps fit 32 bits,
   apart from the one degenerate recording.
   */
  lemma {:induction false} ReplayStaysSortedIffLapsFit(
      files: seq<seq<byte>>, merged: seq<Tagged>, laps: nat, sent: seq<Frame>)
    requires SentLaps(files, merged, laps, sent) && AllSorted(FramesOfFiles(files))
    requires exists j :: 0 <= j < |Frames(merged)| && IsEvent(Frames(merged)[j])
    ensures FileSorted(sent)
            <==> || laps * (MaxIdx(Frames(merged)) + 1) <= U32_LIMIT
                 || (MaxIdx(Frames(merged)) == U32_LIMIT - 1 && AllAtMax(Frames(merged)))
  {
    MergeIsSorted(FramesOfFiles(files), merged);
    LapsStaySortedIffTheyFit(Frames(merged), laps);
  }
}

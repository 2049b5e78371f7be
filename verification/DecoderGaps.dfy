/**
 The decoder at the end of the second links. A source with one data connection ends once and sends
 nothing behind its end, so all its batches fall into one round of the decoder; the decoder's gap
 counter then shows a loss just as the writer's does, and its own end of stream is a barrier.
 */
module DecoderGaps {
  import opened Bytes
  import opened Drain
  import opened Messages
  import opened Sender
  import opened Links
  import opened Pipeline
  import opened LossDetection
  import L = Lossless
  import RunDecoder
  import DecoderLoop
  import Laws = DecoderLaws
  import Rounds = DecoderRounds
  import Fragments
  import Second = SecondConnection

  // ---------------------------------------------------------------------
  // With one data connection, a mark is the last message
  // ---------------------------------------------------------------------

  ghost predicate OnlyFrames(ms: seq<FrameMsg>) {
    forall i :: 0 <= i < |ms| ==> ms[i].Frame?
  }

  /** A mark, if any, comes last. */
  ghost predicate MarkLast(ms: seq<FrameMsg>) {
    forall i :: 0 <= i < |ms| - 1 ==> ms[i].Frame?
  }

  lemma {:induction false} OnlyFramesSubsequence(xs: seq<FrameMsg>, ys: seq<FrameMsg>)
    requires Subsequence(xs, ys) && OnlyFrames(ys)
    ensures OnlyFrames(xs)
  {
    if xs != [] {
      var n := |ys| - 1;
      if Subsequence(xs, ys[..n]) {
        OnlyFramesSubsequence(xs, ys[..n]);
      } else {
        OnlyFramesSubsequence(xs[..|xs| - 1], ys[..n]);
      }
    }
  }

  lemma {:induction false} MarkLastSubsequence(xs: seq<FrameMsg>, ys: seq<FrameMsg>)
    requires Subsequence(xs, ys) && MarkLast(ys)
    ensures MarkLast(xs)
  {
    if xs != [] {
      var n := |ys| - 1;
      assert OnlyFrames(ys[..n]);
      if Subsequence(xs, ys[..n]) {
        OnlyFramesSubsequence(xs, ys[..n]);
      } else {
        OnlyFramesSubsequence(xs[..|xs| - 1], ys[..n]);
        assert forall i :: 0 <= i < |xs| - 1 ==> xs[i] == xs[..|xs| - 1][i];
      }
    }
  }

  lemma MarkLastPrefix(a: seq<FrameMsg>, b: seq<FrameMsg>)
    requires a <= b && MarkLast(b)
    ensures MarkLast(a)
  {
  }

  lemma {:induction false} OneStreamMarksLast(n: Node)
    requires |L.Streams(n)| <= 1
    ensures MarkLast(Produced(n))
  {
    L.ProducedIsMarked(n);
    if L.Ended(n) != [] {
      var only := L.Ended(n)[0];
      assert L.Ended(n) == [] + [only] && L.Unended(n) == [];
      MarkedStreamsSnoc([], only);
    }
  }

  // ---------------------------------------------------------------------
  // Nothing is emitted behind it
  // ---------------------------------------------------------------------

  ghost predicate NothingBehindMark(es: seq<Emission>) {
    forall i, j :: 0 <= i < j < |es| && es[i].Mark? ==> es[j].Beat?
  }

  lemma {:induction false} MarkIsUnbatched(es: seq<Emission>, i: nat)
    requires i < |es| && es[i].Mark?
    ensures !OnlyFrames(Unbatch(es))
  {
    var n := |es| - 1;
    var before := Unbatch(es[..n]);
    if i < n {
      MarkIsUnbatched(es[..n], i);
      var k :| 0 <= k < |before| && !before[k].Frame?;
      assert Unbatch(es)[k] == before[k];
    } else {
      assert Unbatch(es)[|before|] == Eos;
    }
  }

  lemma {:induction false} MarkLastEmission(es: seq<Emission>)
    requires MarkLast(Unbatch(es))
    requires forall i :: 0 <= i < |es| && es[i].Batch? ==> es[i].frames != []
    ensures NothingBehindMark(es)
  {
    if es != [] {
      var n := |es| - 1;
      MarkLastPrefix(Unbatch(es[..n]), Unbatch(es));
      MarkLastEmission(es[..n]);
      if !es[n].Beat? {
        assert |UnbatchOne(es[n])| > 0;
        assert OnlyFrames(Unbatch(es[..n]));
        forall i | 0 <= i < n ensures !es[i].Mark? {
          if es[i].Mark? {
            MarkIsUnbatched(es[..n], i);
          }
        }
      }
      assert forall i :: 0 <= i < n ==> es[..n][i] == es[i];
    }
  }

  lemma {:induction false} SenderEndsOnce(p: Params, n: Node)
    requires NodeInv(p, n) && |L.Streams(n)| <= 1
    ensures NothingBehindMark(n.sender.log.emitted)
  {
    OneStreamMarksLast(n);
    MarkLastPrefix(Offered(n), Produced(n));
    MarkLastSubsequence(n.accepted, Offered(n));
    var es := n.sender.log.emitted;
    Associate(Unbatch(es), FrameMsgs(n.sender.batch), n.queue);
    MarkLastPrefix(Unbatch(es), n.accepted);
    MarkLastEmission(es);
  }

  // ---------------------------------------------------------------------
  // Nothing but heartbeats comes behind an end of stream
  // ---------------------------------------------------------------------

  /** On one link. */
  ghost predicate EndsOnLink(ms: seq<RawMessage>) {
    forall i, j :: 0 <= i < j < |ms| && ms[i].EndOfStream? ==> ms[j].Heartbeat?
  }

  lemma {:induction false} EndWasEmitted(id: Ident, es: seq<Emission>, ok: seq<bool>, i: nat)
    returns (k: nat)
    requires |ok| == |es| && i < |Wire(id, es, ok)| && Wire(id, es, ok)[i].EndOfStream?
    ensures k < |es| && es[k].Mark?
  {
    var n := |es| - 1;
    if i < |Wire(id, es[..n], ok[..n])| {
      k := EndWasEmitted(id, es[..n], ok[..n], i);
    } else {
      k := n;
    }
  }

  lemma {:induction false} LinkEndsOnce(id: Ident, es: seq<Emission>, ok: seq<bool>)
    requires |ok| == |es| && NothingBehindMark(es)
    ensures EndsOnLink(Wire(id, es, ok))
  {
    if es != [] {
      var n := |es| - 1;
      LinkEndsOnce(id, es[..n], ok[..n]);
      var before := Wire(id, es[..n], ok[..n]);
      if ok[n] && !es[n].Beat? {
        assert forall k :: 0 <= k < n ==> !es[..n][k].Mark?;
        forall i | 0 <= i < |before| ensures !before[i].EndOfStream? {
          if before[i].EndOfStream? {
            var k := EndWasEmitted(id, es[..n], ok[..n], i);
          }
        }
      }
    }
  }

  /** In a mixture of sources. */
  ghost predicate SourcesEndOnce(ms: seq<RawMessage>) {
    forall i, j :: 0 <= i < j < |ms| && ms[i].EndOfStream? && ms[j].source == ms[i].source ==>
                     ms[j].Heartbeat?
  }

  lemma {:induction false} FromHasAll(ms: seq<RawMessage>, i: nat)
    requires i < |ms|
    ensures ms[i] in From(ms, ms[i].source)
  {
    var n := |ms| - 1;
    if i < n {
      FromHasAll(ms[..n], i);
    }
  }

  lemma {:induction false} MixtureEndsOnce(ms: seq<RawMessage>)
    requires forall s: nat :: EndsOnLink(From(ms, s))
    ensures SourcesEndOnce(ms)
  {
    if ms != [] {
      var n := |ms| - 1;
      forall s: nat ensures EndsOnLink(From(ms[..n], s)) {
        assert From(ms[..n], s) <= From(ms, s);
        assert EndsOnLink(From(ms, s));
      }
      MixtureEndsOnce(ms[..n]);
      forall i | 0 <= i < n && ms[i].EndOfStream? && ms[n].source == ms[i].source
        ensures ms[n].Heartbeat?
      {
        FromHasAll(ms[..n], i);
        var mine := From(ms[..n], ms[n].source);
        var k :| 0 <= k < |mine| && mine[k] == ms[i];
        var all := From(ms, ms[n].source);
        assert all == mine + [ms[n]];
        assert EndsOnLink(all) && all[k] == ms[i] && all[|mine|] == ms[n];
      }
    }
  }

  /** Every source has at most one data connection. */
  ghost predicate OneConnectionEach(y: System) {
    forall s :: s in y.nodes ==> |L.Streams(y.nodes[s])| <= 1
  }

  lemma {:induction false} FeedEndsOnce(p: Params, sources: set<nat>, steps: seq<Step>)
    requires OneConnectionEach(After(p, sources, steps))
    ensures SourcesEndOnce(After(p, sources, steps).feed)
  {
    EverySchedule(p, sources, steps);
    NothingFromStrangers(p, sources, steps);
    var y := After(p, sources, steps);
    forall s: nat ensures EndsOnLink(From(y.feed, s)) {
      if s in y.nodes {
        var n := y.nodes[s];
        assert SourceInv(p, n, s, y.received, y.feed);
        SenderEndsOnce(p, n);
        LinkEndsOnce(Ident(s, p.run), n.sender.log.emitted, n.sender.log.ok1);
      } else {
        NothingFrom(y.feed, sources, s);
      }
    }
    MixtureEndsOnce(y.feed);
  }

  // ---------------------------------------------------------------------
  // The turns of the decoder
  // ---------------------------------------------------------------------

  lemma {:induction false} InFeed(turns: seq<DecoderLoop.Turn>, i: nat)
    requires i < |turns| && turns[i].message.Some?
    ensures turns[i].message.value in Fragments.Fed(turns)
  {
    var n := |turns| - 1;
    if i < n {
      InFeed(turns[..n], i);
    }
  }

  lemma {:induction false} TurnsEndOnce(cfg: RunDecoder.Config, turns: seq<DecoderLoop.Turn>)
    requires SourcesEndOnce(Fragments.Fed(turns)) && FromSources(Fragments.Fed(turns), cfg.expected)
    ensures Laws.EachSourceEndsOnce(cfg, turns)
  {
    if turns != [] {
      var n := |turns| - 1;
      var before := Fragments.Fed(turns[..n]);
      assert before <= Fragments.Fed(turns);
      TurnsEndOnce(cfg, turns[..n]);
      assert forall i :: 0 <= i < n ==> turns[..n][i] == turns[i];
      if !Laws.Quiet(turns[n]) {
        var m := turns[n].message.value;
        assert Fragments.Fed(turns)[|before|] == m;
        forall i | 0 <= i < n && !Laws.Quiet(turns[i]) && turns[i].message.value.EndOfStream?
          ensures turns[i].message.value.source != m.source
        {
          InFeed(turns[..n], i);
          var k :| 0 <= k < |before| && before[k] == turns[i].message.value;
          assert Fragments.Fed(turns)[k] == before[k];
        }
      }
    }
  }

  lemma {:induction false} ReceiptsOfTheFeed(turns: seq<DecoderLoop.Turn>)
    ensures Rounds.ReceiptsIn(turns) == Receipts(Fragments.Fed(turns))
  {
    if turns != [] {
      var n := |turns| - 1;
      ReceiptsOfTheFeed(turns[..n]);
      var before := Fragments.Fed(turns[..n]);
      assert before + [] == before && Receipts(before) + [] == Receipts(before);
      if turns[n].message.Some? {
        var m := turns[n].message.value;
        assert (before + [m])[..|before|] == before;
      }
    }
  }

  /** All batches fall into one round: it is still open, or nothing but quiet turns came behind it. */
  ghost predicate OneRoundOfData(cfg: RunDecoder.Config, turns: seq<DecoderLoop.Turn>) {
    var rounds := Rounds.TurnRounds(cfg, turns);
    if cfg.expected <= Laws.Ended(turns) && cfg.expected != {} then
      && Rounds.ReceiptsIn(Rounds.Last(rounds)) == []
      && Rounds.GapSum(rounds) == ObserveAll(Rounds.ReceiptsIn(turns)).gaps
      && Laws.RoundsOf(cfg, turns).eos == {}
    else
      rounds == [turns] && Laws.RoundsOf(cfg, turns).eos == Laws.Ended(turns)
  }

  /** A closed round with an empty one behind it counts the gaps of the closed one. */
  lemma {:induction false} OneClosedRound(round: seq<DecoderLoop.Turn>, none: seq<DecoderLoop.Turn>)
    requires none == []
    ensures Rounds.ReceiptsIn(none) == []
    ensures Rounds.GapSum([round] + [none]) == ObserveAll(Rounds.ReceiptsIn(round)).gaps
  {
    var empty: seq<seq<DecoderLoop.Turn>> := [];
    Rounds.GapSumSnoc(empty, round);
    assert empty + [round] == [round];
    Rounds.GapSumSnoc([round], none);
  }

  lemma {:induction false} OpenRoundTurn(
      cfg: RunDecoder.Config, turns: seq<DecoderLoop.Turn>, t: DecoderLoop.Turn)
    requires OneRoundOfData(cfg, turns) && (cfg.expected == {} ==> Laws.Quiet(t))
    requires cfg.expected == {} || !(cfg.expected <= Laws.Ended(turns))
    ensures OneRoundOfData(cfg, turns + [t])
  {
    var grown := turns + [t];
    Rounds.RoundsSnoc(cfg, turns, t);
    Laws.EndedSnoc(turns, t);
    OneRoundGrows(turns, t);
    if Rounds.Completes(cfg, Laws.Ended(turns), t) {
      var none: seq<DecoderLoop.Turn> := [];
      OneClosedRound(grown, none);
      assert Rounds.Last([grown] + [none]) == none;
    }
  }

  lemma OneRoundGrows(turns: seq<DecoderLoop.Turn>, t: DecoderLoop.Turn)
    ensures Rounds.AddTurn([turns], t) == [turns + [t]]
  {
  }

  lemma {:induction false} QuietTurnAddsNothing(turns: seq<DecoderLoop.Turn>, t: DecoderLoop.Turn)
    requires Laws.Quiet(t)
    ensures Rounds.ReceiptsIn(turns + [t]) == Rounds.ReceiptsIn(turns)
    ensures Laws.Ended(turns + [t]) == Laws.Ended(turns)
  {
    assert (turns + [t])[..|turns|] == turns;
    assert Rounds.ReceiptsIn(turns) + [] == Rounds.ReceiptsIn(turns);
  }

  lemma {:induction false} ClosedRoundTurn(
      cfg: RunDecoder.Config, turns: seq<DecoderLoop.Turn>, t: DecoderLoop.Turn)
    requires OneRoundOfData(cfg, turns) && Laws.Quiet(t)
    requires cfg.expected != {} && cfg.expected <= Laws.Ended(turns)
    ensures OneRoundOfData(cfg, turns + [t])
  {
    var rounds := Rounds.TurnRounds(cfg, turns);
    var n := |rounds| - 1;
    Rounds.RoundsSnoc(cfg, turns, t);
    QuietTurnAddsNothing(turns, t);
    QuietTurnAddsNothing(rounds[n], t);
    QuietTurnAddsNothing([], t);
    assert [] + [t] == [t];
    assert rounds == rounds[..n] + [rounds[n]];
    Rounds.GapSumSnoc(rounds[..n], rounds[n]);
    Rounds.GapSumSnoc(rounds[..n], rounds[n] + [t]);
  }

  lemma {:induction false} DataInOneRound(cfg: RunDecoder.Config, turns: seq<DecoderLoop.Turn>)
    requires Laws.EachSourceEndsOnce(cfg, turns)
    ensures OneRoundOfData(cfg, turns)
  {
    if turns != [] {
      var n := |turns| - 1;
      var before := turns[..n];
      DataInOneRound(cfg, before);
      assert turns == before + [turns[n]];
      assert forall i :: 0 <= i < n ==> before[i] == turns[i];
      if cfg.expected != {} && cfg.expected <= Laws.Ended(before) {
        if !Laws.Quiet(turns[n]) {
          var i := Laws.WhoEnded(before, turns[n].message.value.source);
        }
        ClosedRoundTurn(cfg, before, turns[n]);
      } else {
        OpenRoundTurn(cfg, before, turns[n]);
      }
    }
  }

  lemma {:induction false} GapsOfOneRound(cfg: RunDecoder.Config, run: nat, turns: seq<DecoderLoop.Turn>)
    requires Laws.EachSourceEndsOnce(cfg, turns)
    ensures DecoderLoop.Run(cfg, run, turns).core.check.gaps == ObserveAll(Rounds.ReceiptsIn(turns)).gaps
  {
    DataInOneRound(cfg, turns);
    Rounds.CheckOverRounds(cfg, run, turns);
    Rounds.GapSumSnoc([], turns);
    assert [] + [turns] == [turns];
  }

  // ---------------------------------------------------------------------
  // In every schedule
  // ---------------------------------------------------------------------

  /** The turns take what the decoder took off the links of its expected sources. */
  ghost predicate FedBy(
      cfg: RunDecoder.Config, turns: seq<DecoderLoop.Turn>, y: System, sources: set<nat>)
  {
    Fragments.Fed(turns) == y.feed && sources <= cfg.expected && OneConnectionEach(y)
  }

  lemma {:induction false} TurnsOfTheFeed(
      p: Params, sources: set<nat>, steps: seq<Step>, cfg: RunDecoder.Config,
      turns: seq<DecoderLoop.Turn>)
    requires FedBy(cfg, turns, After(p, sources, steps), sources)
    ensures Laws.EachSourceEndsOnce(cfg, turns)
  {
    FeedEndsOnce(p, sources, steps);
    NothingFromStrangers(p, sources, steps);
    TurnsEndOnce(cfg, turns);
  }

  /**
   The decoder's gap counter shows a loss. In every schedule in which the sources have at most one
   data connection each, and for all turns of the decoder, it is zero iff what arrived of every
   source are its first numbers; and then they are its first batches.
   */
  lemma {:induction false} DecoderGapsShowEveryLossButATail(
      p: Params, sources: set<nat>, steps: seq<Step>, cfg: RunDecoder.Config, run: nat,
      turns: seq<DecoderLoop.Turn>)
    requires FedBy(cfg, turns, After(p, sources, steps), sources)
    ensures var y := After(p, sources, steps);
            DecoderLoop.Run(cfg, run, turns).core.check.gaps == 0
            <==> forall s: nat :: DataNumbers(From(y.feed, s)) <= UpTo(SentBy(y, s))
  {
    TurnsOfTheFeed(p, sources, steps, cfg, turns);
    GapsOfOneRound(cfg, run, turns);
    ReceiptsOfTheFeed(turns);
    FeedGapsShowEveryLossButATail(p, sources, steps);
  }

  lemma {:induction false} NoGapMeansFirstBatchesDecoded(
      p: Params, sources: set<nat>, steps: seq<Step>, cfg: RunDecoder.Config, run: nat,
      turns: seq<DecoderLoop.Turn>, s: nat)
    requires FedBy(cfg, turns, After(p, sources, steps), sources) && s in sources
    requires DecoderLoop.Run(cfg, run, turns).core.check.gaps == 0
    ensures var y := After(p, sources, steps);
            s in y.nodes && Payloads(From(y.feed, s)) <= Batches(y.nodes[s].sender.log.emitted)
  {
    EverySchedule(p, sources, steps);
    DecoderGapsShowEveryLossButATail(p, sources, steps, cfg, run, turns);
    var y := After(p, sources, steps);
    var n := y.nodes[s];
    assert SourceInv(p, n, s, y.received, y.feed);
    ReceivedIsNamed(Ident(s, p.run), n.sender.log.emitted, n.sender.log.ok1, n.decoded, y.feed);
    assert DataNumbers(From(y.feed, s)) <= UpTo(SentBy(y, s));
    PayloadsArePrefix(From(y.feed, s), n.sender.log.emitted);
  }

  /**
   The barrier at the end of the links. In every schedule in which the sources have at most one
   data connection each: once the decoder has seen the end of every expected source, it has ended
   its own stream exactly once, behind every fragment it was given.
   */
  lemma {:induction false} BarrierBehindTheLinks(
      p: Params, sources: set<nat>, steps: seq<Step>, cfg: RunDecoder.Config, run: nat,
      turns: seq<DecoderLoop.Turn>)
    requires FedBy(cfg, turns, After(p, sources, steps), sources)
    requires cfg.expected != {} && cfg.expected <= Laws.Ended(turns)
    ensures var m := DecoderLoop.Run(cfg, run, turns);
            && m.core.buffer.pending == [] && Laws.EndsOnce(m.out)
            && DecoderLoop.Output(m.out[..|m.out| - 1]) == DecoderLoop.Input(turns)
  {
    TurnsOfTheFeed(p, sources, steps, cfg, turns);
    Laws.EndOfStreamIsABarrier(cfg, run, turns);
  }

  // ---------------------------------------------------------------------
  // A second connection counts a gap
  // ---------------------------------------------------------------------

  const DECODER_TAKES_THREE: seq<Step> := [DecoderTake(0), DecoderTake(0), DecoderTake(0)]

  lemma {:induction false} TakeOne(p: Params, y: System, link: seq<RawMessage>, k: nat)
    requires 0 in y.nodes && y.nodes[0].decoded == k < |link| && y.feed == link[..k]
    requires |y.nodes[0].sender.log.ok1| == |y.nodes[0].sender.log.emitted|
    requires link == Wire(Ident(0, p.run), y.nodes[0].sender.log.emitted, y.nodes[0].sender.log.ok1)
    ensures var z := Apply(p, y, DecoderTake(0));
            && 0 in z.nodes && z.nodes[0] == y.nodes[0].(decoded := k + 1) && z.feed == link[..k + 1]
  {
    assert link[..k + 1] == link[..k] + [link[k]];
  }

  lemma {:induction false} ThreeTaken(p: Params, y: System, f: seq<byte>, g: seq<byte>)
    requires 0 in y.nodes && y.nodes[0] == Second.TwoConnections(f, g) && y.feed == []
    ensures Second.ApplyAll(p, y, DECODER_TAKES_THREE).feed
            == Second.BothOnTheLink(Ident(0, p.run), f, g)[..3]
  {
    var link := Second.BothOnTheLink(Ident(0, p.run), f, g);
    Second.LinksOfTwo(Ident(0, p.run), f, g);
    TakeOne(p, y, link, 0);
    var a := Apply(p, y, DecoderTake(0));
    TakeOne(p, a, link, 1);
    var b := Apply(p, a, DecoderTake(0));
    TakeOne(p, b, link, 2);
    ThreeApplied(p, y, DecoderTake(0), DecoderTake(0), DecoderTake(0));
  }

  lemma {:induction false} ThreeApplied(p: Params, y: System, s: Step, t: Step, u: Step)
    ensures Second.ApplyAll(p, y, [s, t, u]) == Apply(p, Apply(p, Apply(p, y, s), t), u)
  {
    assert [s, t, u][1..] == [t, u];
    Second.TwoApplied(p, Apply(p, y, s), t, u);
  }

  /**
   Two connections of the only expected source, everything sent and nothing lost: when the decoder
   has taken the batch and the end of the first and the batch of the second, it has counted a gap.
   */
  lemma {:induction false} SecondConnectionCountsAGap(
      p: Params, f: seq<byte>, g: seq<byte>, cfg: RunDecoder.Config, run: nat,
      a: DecoderLoop.Turn, b: DecoderLoop.Turn, c: DecoderLoop.Turn)
    requires p.capacity > 0 && Second.WholeFrame(p, f) && Second.WholeFrame(p, g)
    requires cfg.expected == {0}
    requires var feed := After(p, {0}, Second.BothConnections(f, g) + DECODER_TAKES_THREE).feed;
             && |feed| == 3 && a.message == Some(feed[0]) && b.message == Some(feed[1])
             && c.message == Some(feed[2])
    ensures var n := Second.TwoConnections(f, g);
            L.NoLoss(n, n.sender.log.ok1)
    ensures DecoderLoop.Run(cfg, run, [a, b, c]).core.check.gaps == 1
  {
    Second.AfterBoth(p, f, g);
    Second.NothingWasLost(f, g);
    ThreeTaken(p, After(p, {0}, Second.BothConnections(f, g)), f, g);
    Second.AfterInTwo(p, {0}, Second.BothConnections(f, g), DECODER_TAKES_THREE);
    Rounds.NumbersThatRunOnCountAGap(cfg, run, a, b, c);
  }
}

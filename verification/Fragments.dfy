/**
 The other half of the data path: the decoder thread, fed by the second link of every source, in
 any schedule of the pipeline and with any turns of its own. The fragments it makes of a source
 are those of the source's streams.
 */
module Fragments {
  import opened Bytes
  import opened Decode
  import opened Drain
  import opened Messages
  import opened Sender
  import opened Links
  import opened RunDecoder
  import opened DecoderLoop
  import Laws = DecoderLaws
  import Pipeline
  import L = Lossless

  /** The messages of a list of turns, in order. */
  function Fed(turns: seq<Turn>): seq<RawMessage> {
    if turns == [] then []
    else
      var n := |turns| - 1;
      Fed(turns[..n]) + if turns[n].message.Some? then [turns[n].message.value] else []
  }

  /** The fragments that came in with the batches of one source. */
  function FragmentsFrom(turns: seq<Turn>, s: nat): seq<Fragment> {
    if turns == [] then []
    else
      var n := |turns| - 1;
      FragmentsFrom(turns[..n], s) + (if IsFrom(turns[n], s) then FragmentsIn(turns[n]) else [])
  }

  predicate IsFrom(t: Turn, s: nat) {
    t.message.Some? && t.message.value.source == s
  }

  function Fragmented(f: seq<byte>): seq<Fragment> {
    if Decoded(f).Some? then [Decoded(f).value] else []
  }

  lemma {:induction false} FragmentsOfSnoc(frames: seq<seq<byte>>, f: seq<byte>)
    ensures FragmentsOf(frames + [f]) == FragmentsOf(frames) + Fragmented(f)
  {
    assert (frames + [f])[..|frames|] == frames;
  }

  lemma {:induction false} FragmentsOfConcat(a: seq<seq<byte>>, b: seq<seq<byte>>)
    ensures FragmentsOf(a + b) == FragmentsOf(a) + FragmentsOf(b)
  {
    if b == [] {
      assert a + b == a;
    } else {
      var n := |b| - 1;
      FragmentsOfConcat(a, b[..n]);
      SplitLast(a, b);
      assert b == b[..n] + [b[n]];
      FragmentsOfSnoc(a + b[..n], b[n]);
      FragmentsOfSnoc(b[..n], b[n]);
      Associate(FragmentsOf(a), FragmentsOf(b[..n]), Fragmented(b[n]));
    }
  }

  /** The frames that were received as data, decoded. */
  function DecodedFrom(ms: seq<RawMessage>, s: nat): seq<Fragment> {
    FragmentsOf(L.FramesOf(Unwire(From(ms, s))))
  }

  /** One message more. */
  lemma {:induction false} OneMessageMore(ms: seq<RawMessage>, m: RawMessage, s: nat)
    ensures DecodedFrom(ms + [m], s)
            == DecodedFrom(ms, s) + if m.source == s && m.Data? then FragmentsOf(m.payload) else []
  {
    FromSnoc(ms, m, s);
    var mine := From(ms, s);
    if m.source == s && m.Data? {
      UnwireSnoc(mine, m);
      L.FramesOfConcatFrames(Unwire(mine), m.payload);
      FragmentsOfConcat(L.FramesOf(Unwire(mine)), m.payload);
    } else if m.source == s {
      L.NoMoreFrames(mine, m);
    }
  }

  /** A source's fragments are those of the frames its link delivered. */
  lemma {:induction false} FragmentsAreDecodedFrames(turns: seq<Turn>, s: nat)
    ensures FragmentsFrom(turns, s) == DecodedFrom(Fed(turns), s)
  {
    if turns != [] {
      var n := |turns| - 1;
      FragmentsAreDecodedFrames(turns[..n], s);
      var before := Fed(turns[..n]);
      assert before + [] == before;
      if turns[n].message.Some? {
        OneMessageMore(before, turns[n].message.value, s);
      }
    }
  }

  /** They keep their order on the way through the decoder. */
  lemma {:induction false} FragmentsKeepTheirOrder(turns: seq<Turn>, s: nat)
    ensures Subsequence(FragmentsFrom(turns, s), Input(turns))
  {
    if turns != [] {
      var n := |turns| - 1;
      var more := FragmentsIn(turns[n]);
      FragmentsKeepTheirOrder(turns[..n], s);
      SubsequenceAppend(FragmentsFrom(turns[..n], s), Input(turns[..n]), more);
      assert FragmentsFrom(turns[..n], s) + [] == FragmentsFrom(turns[..n], s);
    }
  }

  /** The end of stream of a source was seen only if its mark arrived. */
  lemma {:induction false} EndedMeansMarked(turns: seq<Turn>, s: nat)
    requires s in Laws.Ended(turns)
    ensures Marks(Unwire(From(Fed(turns), s))) > 0
  {
    var n := |turns| - 1;
    var before := Fed(turns[..n]);
    assert before + [] == before;
    if turns[n].message.Some? {
      var m := turns[n].message.value;
      FromSnoc(before, m, s);
      L.MarksOfOneMore(From(before, s), m);
    }
    if s in Laws.Ended(turns[..n]) {
      EndedMeansMarked(turns[..n], s);
    }
  }

  /**
   From the streams to the fragments. In every schedule and for every list of turns that is fed
   with what the decoder took off the links: a source without overflow and failed sends gives
   exactly the fragments of a prefix of its streams, complete up to its last mark that arrived;
   with one data connection, once its end of stream was seen, exactly those of its whole stream.
   They are an ordered part of what the thread has sent, abandoned or still holds, and nothing
   else is in there.
   */
  lemma {:induction false} FragmentsOfTheStreams(
      p: Pipeline.Params, sources: set<nat>, steps: seq<Pipeline.Step>, cfg: Config, run: nat,
      turns: seq<Turn>, s: nat)
    requires Fed(turns) == Pipeline.After(p, sources, steps).feed
    requires var nodes := Pipeline.After(p, sources, steps).nodes;
             s in nodes && L.NoLoss(nodes[s], nodes[s].sender.log.ok1)
    ensures var y := Pipeline.After(p, sources, steps);
            var a := Unwire(From(y.feed, s));
            var m := DecoderLoop.Run(cfg, run, turns);
            && L.Prefixed(y.nodes[s], s, a)
            && FragmentsFrom(turns, s) == FragmentsOf(L.FramesOf(a))
            && (s in Laws.Ended(turns) && |L.Streams(y.nodes[s])| <= 1 ==>
                  FragmentsFrom(turns, s) == FragmentsOf(L.FramesIn(L.Streams(y.nodes[s]))))
            && Subsequence(FragmentsFrom(turns, s), Input(turns))
            && Output(m.out) + m.core.buffer.pending == Input(turns)
  {
    Pipeline.EverySchedule(p, sources, steps);
    var y := Pipeline.After(p, sources, steps);
    var n := y.nodes[s];
    assert Pipeline.SourceInv(p, n, s, y.received, y.feed);
    L.ReceivedIsPrefixed(p, Ident(s, p.run), n, n.sender.log.ok1, n.decoded, y.feed);
    FragmentsAreDecodedFrames(turns, s);
    FragmentsKeepTheirOrder(turns, s);
    FragmentsAreConserved(cfg, run, turns);
    if s in Laws.Ended(turns) && |L.Streams(n)| <= 1 {
      EndedMeansMarked(turns, s);
      L.FirstMarkCompletesTheOnlyStream(n, Unwire(From(y.feed, s)));
    }
  }
}

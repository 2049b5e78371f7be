/**
 A whole recording: the writer of a run takes what the links delivered, in any schedule of the
 pipeline, and closes its files. What is then on disk is the split of the sources' streams.
 */
module Recording {
  import opened Bytes
  import opened Messages
  import opened Paths
  import opened GrawWriter
  import opened RunWriter
  import opened WriterLaws
  import opened Pipeline
  import opened Lossless

  /** One clock reading for every frame of every batch. */
  ghost predicate ClockFor(clock: seq<seq<string>>, ms: seq<RawMessage>) {
    && |clock| == |ms|
    && forall i :: 0 <= i < |ms| && ms[i].Data? ==>
                     && |clock[i]| == |ms[i].payload|
                     && forall j :: 0 <= j < |clock[i]| ==> Clean(clock[i][j])
  }

  /** The bytes of the files of a key, in the order of their indices. */
  ghost function OnDiskUnder(w: RunWriter, key: FileKey): seq<byte>
    reads w
  {
    ReadBack(w.disk, ReportsFor(w.closedFiles, key))
  }

  /**
   The writer thread on any messages, from the first one to the closed files. Under every key the
   files, in index order, are byte for byte the frames that belong to the key, of the batches of
   this run up to the last expected end of stream.
   */
  method Record(root: string, run: nat, maxFileBytes: nat, expected: set<nat>, ms: seq<RawMessage>,
                clock: seq<seq<string>>)
    returns (w: RunWriter)
    requires ClockFor(clock, ms)
    ensures w.Finished() && w.Account() == ReceiveAll(expected, run, ms).ledger
    ensures forall key: FileKey ::
              OnDiskUnder(w, key)
              == Flat(RouteFrames(key.cobo, OwnFrames(Heard(ms, run, expected), run, key.cobo), key))
  {
    w := new RunWriter(root, run, maxFileBytes);
    ConsumeUntilDone(w, ms, expected, clock);
    w.Finalize();
    IntakeIsExact(expected, run, ms);
    forall key: FileKey
      ensures OnDiskUnder(w, key) == Flat(Routed(w.writes, key))
    {
      ClosedChainIsLossless(w.cfg.maxFileBytes, w.disk, w.closedFiles, key, Routed(w.writes, key));
    }
  }

  /**
   The writer thread, from its first message to the closed files. Under every key the files, in
   index order, are byte for byte the frames written under the key; and once all expected sources
   have ended, for a source that lost nothing and uses the key on its first data connection only,
   they are byte for byte the frames of its streams that belong to the key.
   */
  method RecordRun(p: Params, ghost sources: set<nat>, ghost steps: seq<Step>, received: seq<RawMessage>,
                   root: string, maxFileBytes: nat, clock: seq<seq<string>>)
    returns (w: RunWriter)
    requires received == After(p, sources, steps).received && ClockFor(clock, received)
    ensures w.Finished() && w.Account() == After(p, sources, steps).intake.ledger
    ensures forall key: FileKey ::
              OnDiskUnder(w, key) == Flat(Routed(After(p, sources, steps).intake.ledger.writes, key))
    ensures forall key: FileKey ::
              var y := After(p, sources, steps);
              key.cobo in p.expected && CleanlyDone(y, key) ==>
                OnDiskUnder(w, key)
                == Flat(RouteFrames(key.cobo, FramesIn(Streams(y.nodes[key.cobo])), key))
  {
    EverySchedule(p, sources, steps);
    w := Record(root, p.run, maxFileBytes, p.expected, received, clock);
    IntakeIsExact(p.expected, p.run, received);
    SplitOfCleanSources(p, sources, steps);
  }

  lemma {:induction false} SplitOfCleanSources(p: Params, sources: set<nat>, steps: seq<Step>)
    ensures forall key: FileKey ::
              var y := After(p, sources, steps);
              key.cobo in p.expected && CleanlyDone(y, key) ==>
                Routed(y.intake.ledger.writes, key)
                == RouteFrames(key.cobo, FramesIn(Streams(y.nodes[key.cobo])), key)
  {
    forall key: FileKey | key.cobo in p.expected && CleanlyDone(After(p, sources, steps), key)
      ensures var y := After(p, sources, steps);
              Routed(y.intake.ledger.writes, key)
              == RouteFrames(key.cobo, FramesIn(Streams(y.nodes[key.cobo])), key)
    {
      SplitIsLossless(p, sources, steps, key);
    }
  }
}

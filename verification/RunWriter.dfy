/**
 The writer object and its thread (src/graw_writer.rs), proved against the chains of
 `GrawWriter`. The ghost field `writes` is the history of frames written, with their keys.
 */
module RunWriter {
  import opened Bytes
  import opened Decode
  import opened Messages
  import opened Paths
  import opened GrawWriter

  /** Routing: the AsAd of a data frame, everything else under ctrl. */
  function KeyOf(source: nat, frame: seq<byte>): FileKey {
    match PeekAsad(frame)
    case Some(asad) => Asad(source, asad)
    case None => Ctrl(source)
  }

  function BatchWrites(source: nat, frames: seq<seq<byte>>): seq<Write> {
    seq(|frames|, i requires 0 <= i < |frames| => Write(KeyOf(source, frames[i]), frames[i]))
  }

  function CtrlWrites(writes: seq<Write>): nat {
    if writes == [] then 0
    else CtrlWrites(writes[..|writes| - 1]) + if writes[|writes| - 1].key.Ctrl? then 1 else 0
  }

  /** The observable account of a writer: what was written and what was counted. */
  datatype Ledger = Ledger(writes: seq<Write>, check: SeqCheck, runMismatches: nat, errored: bool)

  /** One batch. A batch of another run is counted and skipped before its number is looked at. */
  function TakeBatch(l: Ledger, run: nat, source: nat, batchRun: nat, seqNo: nat,
                     frames: seq<seq<byte>>): Ledger
  {
    if batchRun != run then l.(runMismatches := l.runMismatches + 1, errored := true)
    else
      var gap := seqNo != EntryOf(l.check.next, source);
      Ledger(l.writes + BatchWrites(source, frames), Observe(l.check, source, seqNo),
             l.runMismatches, l.errored || gap)
  }

  datatype Intake = Intake(
    ledger: Ledger, eos: set<nat>, done: bool, unexpected: nat, heartbeats: nat)

  const FRESH_LEDGER := Ledger([], FRESH_CHECK, 0, false)
  const FRESH_INTAKE := Intake(FRESH_LEDGER, {}, false, 0, 0)

  /** One message of the thread's loop; after the last expected end of stream it takes no more. */
  function Receive(v: Intake, expected: set<nat>, run: nat, m: RawMessage): Intake {
    if v.done then v
    else
      match m
      case Data(source, batchRun, seqNo, frames) =>
        v.(ledger := TakeBatch(v.ledger, run, source, batchRun, seqNo, frames))
      case EndOfStream(source, eosRun) =>
        if eosRun != run then
          v.(ledger := v.ledger.(runMismatches := v.ledger.runMismatches + 1))
        else if source !in expected then v.(unexpected := v.unexpected + 1)
        else v.(eos := v.eos + {source}, done := expected <= v.eos + {source})
      case Heartbeat(_, _, _) => v.(heartbeats := v.heartbeats + 1)
  }

  function ReceiveAll(expected: set<nat>, run: nat, ms: seq<RawMessage>): Intake {
    if ms == [] then FRESH_INTAKE
    else Receive(ReceiveAll(expected, run, ms[..|ms| - 1]), expected, run, ms[|ms| - 1])
  }

  function Total(m: map<FileKey, nat>, key: FileKey): nat {
    if key in m then m[key] else 0
  }

  class RunWriter {
    const cfg: Config
    var files: map<FileKey, OutputFile>
    var closedFiles: seq<FileReport>
    var disk: map<string, seq<byte>>
    var asadBytes: map<FileKey, nat>
    var asadFrames: map<FileKey, nat>
    var nextSeq: map<nat, nat>
    var seqGaps: nat
    var batches: map<nat, nat>
    var runMismatches: nat
    var ctrlFrames: nat
    var unexpectedSources: nat
    var heartbeatsIn: nat
    var errored: bool
    ghost var writes: seq<Write>

    constructor (root: string, runNumber: nat, maxFileBytes: nat)
      ensures Valid() && Account() == FRESH_LEDGER && unexpectedSources == 0 && heartbeatsIn == 0
      ensures cfg == Config(RunDir(root, runNumber), maxFileBytes)
    {
      cfg := Config(RunDir(root, runNumber), maxFileBytes);
      files, closedFiles, disk, asadBytes, asadFrames := map[], [], map[], map[], map[];
      nextSeq, seqGaps, batches := map[], 0, map[];
      runMismatches, ctrlFrames, errored := 0, 0, false;
      unexpectedSources, heartbeatsIn := 0, 0;
      writes := [];
    }

    function Disk(): Store
      reads this
    {
      Store(files, closedFiles, disk)
    }

    ghost function Account(): Ledger
      reads this
    {
      Ledger(writes, SeqCheck(nextSeq, seqGaps, batches), runMismatches, errored)
    }

    /** Files exist for exactly the keys that were written, and hold exactly their frames. */
    ghost predicate Valid()
      reads this
    {
      && StoreOk(cfg, Disk(), writes)
      && Lazy(files, writes)
      && TotalsOk(asadBytes, asadFrames, ctrlFrames, writes)
    }

    method HandleBatch(source: nat, run: nat, seqNo: nat, frames: seq<seq<byte>>, clock: seq<string>)
      requires Valid()
      requires |clock| == |frames| && forall i :: 0 <= i < |clock| ==> Clean(clock[i])
      modifies this
      ensures Valid()
      ensures Account() == TakeBatch(old(Account()), cfg.dir.run, source, run, seqNo, frames)
      ensures unexpectedSources == old(unexpectedSources) && heartbeatsIn == old(heartbeatsIn)
    {
      if run != cfg.dir.run {
        runMismatches := runMismatches + 1;
        errored := true;
        return;
      }
      CheckSequence(source, seqNo);
      WriteFrames(source, frames, clock);
    }

    method CheckSequence(source: nat, seqNo: nat)
      modifies this`nextSeq, this`seqGaps, this`batches, this`errored
      ensures SeqCheck(nextSeq, seqGaps, batches)
              == Observe(old(SeqCheck(nextSeq, seqGaps, batches)), source, seqNo)
      ensures errored == (old(errored) || seqNo != EntryOf(old(nextSeq), source))
    {
      var expected := EntryOf(nextSeq, source);
      if seqNo != expected {
        seqGaps := seqGaps + 1;
        errored := true;
      }
      nextSeq := nextSeq[source := seqNo + 1];
      batches := batches[source := EntryOf(batches, source) + 1];
    }

    method WriteFrames(source: nat, frames: seq<seq<byte>>, clock: seq<string>)
      requires Valid()
      requires |clock| == |frames| && forall i :: 0 <= i < |clock| ==> Clean(clock[i])
      modifies this`files, this`closedFiles, this`disk, this`asadBytes, this`asadFrames,
               this`ctrlFrames, this`writes
      ensures Valid()
      ensures writes == old(writes) + BatchWrites(source, frames)
    {
      for i := 0 to |frames|
        invariant Valid()
        invariant writes == old(writes) + BatchWrites(source, frames[..i])
      {
        var key := KeyOf(source, frames[i]);
        WriteTo(key, frames[i], clock[i]);
        BatchWritesSnoc(source, frames, i);
      }
      assert frames[..|frames|] == frames;
    }

    method WriteTo(key: FileKey, frame: seq<byte>, ts: string)
      requires Valid() && Clean(ts)
      modifies this`files, this`closedFiles, this`disk, this`asadBytes, this`asadFrames,
               this`ctrlFrames, this`writes
      ensures Valid()
      ensures writes == old(writes) + [Write(key, frame)]
    {
      TotalsAfter(asadBytes, asadFrames, ctrlFrames, writes, key, frame);
      StoreFrame(key, frame, ts);
      LazyAfter(old(files), files, old(writes), key, frame);
      CountFrame(key, |frame|);
    }

    /** Creates the first file of a key when its first frame arrives, and writes the frame. */
    method StoreFrame(key: FileKey, frame: seq<byte>, ts: string)
      requires StoreOk(cfg, Disk(), writes) && Clean(ts)
      modifies this`files, this`closedFiles, this`disk, this`writes
      ensures StoreOk(cfg, Disk(), writes)
      ensures writes == old(writes) + [Write(key, frame)]
      ensures files.Keys == old(files).Keys + {key}
    {
      if key !in files {
        OpeningKeepsChains(cfg, Disk(), writes, key, ts);
        OpenNewFile(key, ts, 0);
      }
      WritingKeepsChains(cfg, Disk(), writes, key, frame);
      WriteAll(key, frame);
      writes := writes + [Write(key, frame)];
    }

    method CountFrame(key: FileKey, size: nat)
      modifies this`asadBytes, this`asadFrames, this`ctrlFrames
      ensures key.Asad? ==>
                && asadBytes == old(asadBytes)[key := Total(old(asadBytes), key) + size]
                && asadFrames == old(asadFrames)[key := Total(old(asadFrames), key) + 1]
                && ctrlFrames == old(ctrlFrames)
      ensures key.Ctrl? ==>
                && asadBytes == old(asadBytes) && asadFrames == old(asadFrames)
                && ctrlFrames == old(ctrlFrames) + 1
    {
      if key.Asad? {
        asadBytes := asadBytes[key := Total(asadBytes, key) + size];
        asadFrames := asadFrames[key := Total(asadFrames, key) + 1];
      } else {
        ctrlFrames := ctrlFrames + 1;
      }
    }

    /** Appends the frame, then rotates if the file is now past the limit. */
    method WriteAll(key: FileKey, frame: seq<byte>)
      requires key in files && files[key].path in disk
      modifies this`files, this`closedFiles, this`disk
      ensures Disk() == Written(cfg, old(Disk()), key, frame)
      ensures files.Keys == old(files).Keys
    {
      var entry := files[key];
      disk := disk[entry.path := disk[entry.path] + frame];
      files := files[key := entry.(curBytes := entry.curBytes + |frame|, frames := entry.frames + 1)];
      if files[key].curBytes > cfg.maxFileBytes {
        Rotate(key);
      }
    }

    method Rotate(key: FileKey)
      requires key in files
      modifies this`files, this`closedFiles, this`disk
      ensures Disk() == Rotated(cfg, old(Disk()), key)
    {
      var finished := files[key];
      closedFiles := closedFiles + [Report(key, finished)];
      OpenNewFile(key, finished.ts, finished.idx + 1);
    }

    method OpenNewFile(key: FileKey, ts: string, idx: nat)
      modifies this`files, this`disk
      ensures Disk() == Opened(cfg, old(Disk()), key, ts, idx)
    {
      var path := Path(cfg.dir, key, ts, idx);
      disk := disk[path := []];
      files := files[key := OutputFile(ts, idx, 0, 0, path)];
    }

    /** Every chain is closed, reported and on disk. */
    ghost predicate Finished()
      reads this
    {
      && files == map[]
      && forall key: FileKey ::
           ChainClosed(cfg.maxFileBytes, disk, closedFiles, key, Routed(writes, key))
    }

    /** Closes every open file, in any order. */
    method Finalize()
      requires Valid()
      modifies this`files, this`closedFiles
      ensures Finished()
    {
      StartClosing(Disk());
      while files != map[]
        invariant Closing(old(Disk()), Disk())
        decreases files.Keys
      {
        var key :| key in files;
        ClosingOne(old(Disk()), Disk(), key);
        closedFiles := closedFiles + [Report(key, files[key])];
        files := files - {key};
      }
      ClosingCloses(cfg, old(Disk()), Disk(), writes);
    }
  }

  /** Between `before` and `now` the file of this key was closed at most once. */
  ghost predicate KeyClosing(before: Store, now: Store, key: FileKey) {
    var first, reports := ReportsFor(before.closed, key), ReportsFor(now.closed, key);
    if key !in before.files then key !in now.files && reports == first
    else if key in now.files then now.files[key] == before.files[key] && reports == first
    else reports == first + [Report(key, before.files[key])]
  }

  ghost predicate Closing(before: Store, now: Store) {
    now.disk == before.disk && forall key: FileKey :: KeyClosing(before, now, key)
  }

  lemma StartClosing(s: Store)
    ensures Closing(s, s)
  {
  }

  function CloseOne(s: Store, key: FileKey): Store
    requires key in s.files
  {
    s.(closed := s.closed + [Report(key, s.files[key])], files := s.files - {key})
  }

  lemma {:induction false} ClosingOneKey(before: Store, now: Store, key: FileKey, k: FileKey)
    requires KeyClosing(before, now, k) && key in now.files
    requires key == k ==> KeyClosing(before, now, key)
    ensures KeyClosing(before, CloseOne(now, key), k)
  {
    ReportsSnoc(now.closed, Report(key, now.files[key]), k);
    assert ReportsFor(now.closed, k) + [] == ReportsFor(now.closed, k);
  }

  lemma {:induction false} ClosingOne(before: Store, now: Store, key: FileKey)
    requires Closing(before, now) && key in now.files
    ensures Closing(before, CloseOne(now, key))
  {
    forall k: FileKey ensures KeyClosing(before, CloseOne(now, key), k) {
      ClosingOneKey(before, now, key, k);
    }
  }

  lemma {:induction false} KeyIsClosed(
      cfg: Config, before: Store, now: Store, writes: seq<Write>, key: FileKey)
    requires KeyOk(cfg, before, writes, key) && KeyClosing(before, now, key)
    requires now.files == map[] && now.disk == before.disk
    requires key in before.files ==> Routed(writes, key) != []
    ensures ChainClosed(cfg.maxFileBytes, now.disk, now.closed, key, Routed(writes, key))
  {
    if key in before.files {
      ClosingCompletesTheChain(cfg, before, key, Chain(Routed(writes, key), cfg.maxFileBytes));
    }
  }

  lemma {:induction false} ClosingCloses(cfg: Config, before: Store, now: Store, writes: seq<Write>)
    requires StoreOk(cfg, before, writes) && Lazy(before.files, writes)
    requires Closing(before, now) && now.files == map[]
    ensures forall key: FileKey ::
              ChainClosed(cfg.maxFileBytes, now.disk, now.closed, key, Routed(writes, key))
  {
    forall key: FileKey
      ensures ChainClosed(cfg.maxFileBytes, now.disk, now.closed, key, Routed(writes, key))
    {
      KeyIsClosed(cfg, before, now, writes, key);
    }
  }

  lemma BatchWritesSnoc(source: nat, frames: seq<seq<byte>>, i: nat)
    requires i < |frames|
    ensures BatchWrites(source, frames[..i + 1])
            == BatchWrites(source, frames[..i]) + [Write(KeyOf(source, frames[i]), frames[i])]
  {
  }

  /** A file exists only for a key that was written. */
  ghost predicate Lazy(files: map<FileKey, OutputFile>, writes: seq<Write>) {
    forall key :: key in files ==> Routed(writes, key) != []
  }

  lemma {:induction false} LazyAfter(
      before: map<FileKey, OutputFile>, files: map<FileKey, OutputFile>, writes: seq<Write>,
      key: FileKey, frame: seq<byte>)
    requires Lazy(before, writes) && files.Keys == before.Keys + {key}
    ensures Lazy(files, writes + [Write(key, frame)])
  {
    forall k | k in files ensures Routed(writes + [Write(key, frame)], k) != [] {
      RoutedSnoc(writes, Write(key, frame), k);
      assert k != key ==> k in before;
    }
  }

  /** The byte and frame counters per AsAd and the ctrl counter equal the contents. */
  ghost predicate TotalsOk(bytes: map<FileKey, nat>, frames: map<FileKey, nat>, ctrl: nat,
                           writes: seq<Write>)
  {
    && ctrl == CtrlWrites(writes)
    && forall key: FileKey :: key.Asad? ==>
                                && Total(frames, key) == |Routed(writes, key)|
                                && Total(bytes, key) == |Flat(Routed(writes, key))|
  }

  lemma {:induction false} TotalsAfter(
      bytes: map<FileKey, nat>, frames: map<FileKey, nat>, ctrl: nat, writes: seq<Write>,
      key: FileKey, frame: seq<byte>)
    requires TotalsOk(bytes, frames, ctrl, writes)
    ensures key.Asad? ==>
              TotalsOk(bytes[key := Total(bytes, key) + |frame|], frames[key := Total(frames, key) + 1],
                       ctrl, writes + [Write(key, frame)])
    ensures key.Ctrl? ==> TotalsOk(bytes, frames, ctrl + 1, writes + [Write(key, frame)])
  {
    assert (writes + [Write(key, frame)])[..|writes|] == writes;
    forall k: FileKey
      ensures |Routed(writes + [Write(key, frame)], k)|
              == |Routed(writes, k)| + (if k == key then 1 else 0)
      ensures |Flat(Routed(writes + [Write(key, frame)], k))|
              == |Flat(Routed(writes, k))| + if k == key then |frame| else 0
    {
      RoutedSnoc(writes, Write(key, frame), k);
      FlatSnoc(Routed(writes, k), frame);
    }
  }

  /** The receive loop: consumes messages until every expected source ended, or until told to stop. */
  method ConsumeUntilDone(w: RunWriter, ms: seq<RawMessage>, expected: set<nat>,
                          clock: seq<seq<string>>)
    requires w.Valid() && w.Account() == FRESH_LEDGER
    requires w.unexpectedSources == 0 && w.heartbeatsIn == 0
    requires |clock| == |ms|
    requires forall i :: 0 <= i < |ms| && ms[i].Data? ==>
                           && |clock[i]| == |ms[i].payload|
                           && forall j :: 0 <= j < |clock[i]| ==> Clean(clock[i][j])
    modifies w
    ensures w.Valid()
    ensures var v := ReceiveAll(expected, w.cfg.dir.run, ms);
            && w.Account() == v.ledger
            && w.unexpectedSources == v.unexpected && w.heartbeatsIn == v.heartbeats
  {
    var run := w.cfg.dir.run;
    var eosReceived := {};
    var done := false;
    var i := 0;
    while i < |ms| && !done
      invariant 0 <= i <= |ms|
      invariant w.Valid()
      invariant ReceiveAll(expected, run, ms[..i])
             == Intake(w.Account(), eosReceived, done, w.unexpectedSources, w.heartbeatsIn)
    {
      assert ms[..i + 1][..i] == ms[..i];
      match ms[i] {
        case Data(source, batchRun, seqNo, frames) =>
          w.HandleBatch(source, batchRun, seqNo, frames, clock[i]);
        case EndOfStream(source, eosRun) =>
          if eosRun != run {
            w.runMismatches := w.runMismatches + 1;
          } else if source !in expected {
            w.unexpectedSources := w.unexpectedSources + 1;
          } else {
            eosReceived := eosReceived + {source};
            done := expected <= eosReceived;
          }
        case Heartbeat(_, _, _) =>
          w.heartbeatsIn := w.heartbeatsIn + 1;
      }
      i := i + 1;
    }
    DoneTakesNoMore(expected, run, ms, i);
  }

  lemma {:induction false} DoneTakesNoMore(expected: set<nat>, run: nat, ms: seq<RawMessage>, i: nat)
    requires i <= |ms|
    requires i < |ms| ==> ReceiveAll(expected, run, ms[..i]).done
    ensures ReceiveAll(expected, run, ms) == ReceiveAll(expected, run, ms[..i])
    decreases |ms|
  {
    if i == |ms| {
      assert ms[..i] == ms;
    } else {
      var n := |ms| - 1;
      assert ms[..n][..i] == ms[..i];
      DoneTakesNoMore(expected, run, ms[..n], i);
    }
  }
}

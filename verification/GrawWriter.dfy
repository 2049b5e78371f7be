/**
 The raw-frame writer (src/graw_writer.rs). Frames are routed to one chain of files per AsAd,
 or to a ctrl chain; a file that has grown past the limit is closed after the write and the
 next index opened at once. The disk is a map from paths to bytes, and creating a file
 truncates whatever had that path, so the chains are only intact because paths are distinct.
 */
module GrawWriter {
  import opened Bytes
  import opened Paths

  datatype OutputFile = OutputFile(ts: string, idx: nat, curBytes: nat, frames: nat, path: string)

  datatype FileReport = FileReport(key: FileKey, idx: nat, path: string, bytes: nat, frames: nat)

  datatype Config = Config(dir: RunDir, maxFileBytes: nat)

  /** The open files, the closed ones in closing order, and the disk. */
  datatype Store = Store(
    files: map<FileKey, OutputFile>, closed: seq<FileReport>, disk: map<string, seq<byte>>)

  function Report(key: FileKey, f: OutputFile): FileReport {
    FileReport(key, f.idx, f.path, f.curBytes, f.frames)
  }

  function Opened(cfg: Config, s: Store, key: FileKey, ts: string, idx: nat): Store {
    var path := Path(cfg.dir, key, ts, idx);
    s.(files := s.files[key := OutputFile(ts, idx, 0, 0, path)], disk := s.disk[path := []])
  }

  function Rotated(cfg: Config, s: Store, key: FileKey): Store
    requires key in s.files
  {
    var f := s.files[key];
    Opened(cfg, s.(closed := s.closed + [Report(key, f)]), key, f.ts, f.idx + 1)
  }

  function Appended(s: Store, key: FileKey, frame: seq<byte>): Store
    requires key in s.files && s.files[key].path in s.disk
  {
    var f := s.files[key];
    s.(files := s.files[key := f.(curBytes := f.curBytes + |frame|, frames := f.frames + 1)],
       disk := s.disk[f.path := s.disk[f.path] + frame])
  }

  /** One frame to an open file, rotating after the write when the limit was passed. */
  function Written(cfg: Config, s: Store, key: FileKey, frame: seq<byte>): Store
    requires key in s.files && s.files[key].path in s.disk
  {
    var t := Appended(s, key, frame);
    if t.files[key].curBytes > cfg.maxFileBytes then Rotated(cfg, t, key) else t
  }

  // ---------------------------------------------------------------------
  // Reference: the chain of files of one key
  // ---------------------------------------------------------------------

  datatype Write = Write(key: FileKey, frame: seq<byte>)

  /** The frames written under one key, in order. */
  function Routed(writes: seq<Write>, key: FileKey): seq<seq<byte>> {
    if writes == [] then []
    else
      var before := Routed(writes[..|writes| - 1], key);
      var last := writes[|writes| - 1];
      if last.key == key then before + [last.frame] else before
  }

  /** The frames of each file of a chain, the open file last. */
  function Chain(frames: seq<seq<byte>>, max: nat): (chain: seq<seq<seq<byte>>>)
    ensures chain != []
  {
    if frames == [] then [[]]
    else
      var chain := Chain(frames[..|frames| - 1], max);
      var open := chain[|chain| - 1] + [frames[|frames| - 1]];
      var grown := chain[..|chain| - 1] + [open];
      if |Flat(open)| > max then grown + [[]] else grown
  }

  function Concat(chain: seq<seq<seq<byte>>>): seq<seq<byte>> {
    if chain == [] then [] else Concat(chain[..|chain| - 1]) + chain[|chain| - 1]
  }

  /** A file that was rotated out: past the limit, but not before its last frame. */
  predicate RotatedAtLimit(file: seq<seq<byte>>, max: nat) {
    file != [] && |Flat(file)| > max && |Flat(file[..|file| - 1])| <= max
  }

  lemma {:induction false} ConcatSnoc(chain: seq<seq<seq<byte>>>, file: seq<seq<byte>>)
    ensures Concat(chain + [file]) == Concat(chain) + file
  {
    assert (chain + [file])[..|chain|] == chain;
  }

  lemma {:induction false} ChainKeepsFrames(frames: seq<seq<byte>>, max: nat)
    ensures Concat(Chain(frames, max)) == frames
  {
    if frames == [] {
      ConcatSnoc([], []);
    } else {
      var before, frame := frames[..|frames| - 1], frames[|frames| - 1];
      ChainKeepsFrames(before, max);
      var chain := Chain(before, max);
      var closed, open := chain[..|chain| - 1], chain[|chain| - 1];
      assert chain == closed + [open];
      ConcatSnoc(closed, open);
      ConcatSnoc(closed, open + [frame]);
      ConcatSnoc(closed + [open + [frame]], []);
      assert Concat(closed) + (open + [frame]) == (Concat(closed) + open) + [frame];
    }
  }

  lemma {:induction false} ChainRotatesAtLimit(frames: seq<seq<byte>>, max: nat)
    ensures var chain := Chain(frames, max);
            && (forall i :: 0 <= i < |chain| - 1 ==> RotatedAtLimit(chain[i], max))
            && |Flat(chain[|chain| - 1])| <= max
  {
    if frames != [] {
      var before, frame := frames[..|frames| - 1], frames[|frames| - 1];
      ChainRotatesAtLimit(before, max);
      var chain := Chain(before, max);
      var open := chain[|chain| - 1];
      assert (open + [frame])[..|open|] == open;
    }
  }

  /**
   Rotation. A chain holds exactly the frames, in order and never split; every file but the
   last was rotated out by the frame that passed the limit, and the last is within it.
   */
  lemma {:induction false} ChainIsAnExactSplit(frames: seq<seq<byte>>, max: nat)
    ensures var chain := Chain(frames, max);
            && Concat(chain) == frames
            && (forall i :: 0 <= i < |chain| - 1 ==> RotatedAtLimit(chain[i], max))
            && |Flat(chain[|chain| - 1])| <= max
  {
    ChainKeepsFrames(frames, max);
    ChainRotatesAtLimit(frames, max);
  }

  /** The bytes of a chain, file after file, are the bytes of its frames. */
  lemma {:induction false} FlatOfConcat(chain: seq<seq<seq<byte>>>)
    ensures Flat(Concat(chain)) == Flat(seq(|chain|, i requires 0 <= i < |chain| => Flat(chain[i])))
  {
    if chain != [] {
      var n := |chain| - 1;
      FlatOfConcat(chain[..n]);
      FlatConcat(Concat(chain[..n]), chain[n]);
      var sizes := seq(|chain|, i requires 0 <= i < |chain| => Flat(chain[i]));
      var before := seq(n, i requires 0 <= i < n => Flat(chain[..n][i]));
      assert sizes == before + [Flat(chain[n])];
      FlatSnoc(before, Flat(chain[n]));
    }
  }

  // ---------------------------------------------------------------------
  // The store holds the chains
  // ---------------------------------------------------------------------

  function ReportsFor(closed: seq<FileReport>, key: FileKey): seq<FileReport> {
    if closed == [] then []
    else
      var before := ReportsFor(closed[..|closed| - 1], key);
      if closed[|closed| - 1].key == key then before + [closed[|closed| - 1]] else before
  }

  /** The report file `i` of a chain must have. */
  function ReportOf(cfg: Config, key: FileKey, ts: string, i: nat, file: seq<seq<byte>>): FileReport {
    FileReport(key, i, Path(cfg.dir, key, ts, i), |Flat(file)|, |file|)
  }

  ghost predicate ReportsMatch(cfg: Config, key: FileKey, ts: string,
                               chain: seq<seq<seq<byte>>>, reports: seq<FileReport>)
  {
    && |reports| == |chain|
    && forall i :: 0 <= i < |chain| ==> reports[i] == ReportOf(cfg, key, ts, i, chain[i])
  }

  /** The chain of `key` is on disk under its own paths. */
  ghost predicate OnDisk(cfg: Config, disk: map<string, seq<byte>>, key: FileKey, ts: string,
                         chain: seq<seq<seq<byte>>>)
  {
    forall i :: 0 <= i < |chain| ==>
                  && Path(cfg.dir, key, ts, i) in disk
                  && disk[Path(cfg.dir, key, ts, i)] == Flat(chain[i])
  }

  /** An open key: its handle, its reports and its bytes on disk are those of the chain. */
  ghost predicate Holds(cfg: Config, s: Store, key: FileKey, chain: seq<seq<seq<byte>>>)
    requires chain != []
  {
    && key in s.files
    && var f := s.files[key];
    && Clean(f.ts)
    && f.idx == |chain| - 1
    && Report(key, f) == ReportOf(cfg, key, f.ts, f.idx, chain[f.idx])
    && ReportsMatch(cfg, key, f.ts, chain[..f.idx], ReportsFor(s.closed, key))
    && OnDisk(cfg, s.disk, key, f.ts, chain)
  }

  ghost predicate KeyOk(cfg: Config, s: Store, writes: seq<Write>, key: FileKey) {
    var frames := Routed(writes, key);
    if key in s.files then Holds(cfg, s, key, Chain(frames, cfg.maxFileBytes))
    else frames == [] && ReportsFor(s.closed, key) == []
  }

  ghost predicate StoreOk(cfg: Config, s: Store, writes: seq<Write>) {
    forall key: FileKey :: KeyOk(cfg, s, writes, key)
  }

  lemma {:induction false} ReportsSnoc(closed: seq<FileReport>, r: FileReport, key: FileKey)
    ensures ReportsFor(closed + [r], key)
            == ReportsFor(closed, key) + if r.key == key then [r] else []
  {
    assert (closed + [r])[..|closed|] == closed;
  }

  lemma {:induction false} RoutedSnoc(writes: seq<Write>, w: Write, key: FileKey)
    ensures Routed(writes + [w], key) == Routed(writes, key) + if w.key == key then [w.frame] else []
  {
    assert (writes + [w])[..|writes|] == writes;
  }

  /** Writing to one path leaves every chain with other paths alone. */
  lemma {:induction false} OtherChainsUntouched(
      cfg: Config, disk: map<string, seq<byte>>, bytes: seq<byte>, key: FileKey, ts: string,
      idx: nat, other: FileKey, us: string, chain: seq<seq<seq<byte>>>)
    requires Clean(ts) && Clean(us)
    requires OnDisk(cfg, disk, other, us, chain)
    requires other == key ==> |chain| <= idx
    ensures OnDisk(cfg, disk[Path(cfg.dir, key, ts, idx) := bytes], other, us, chain)
  {
    forall i | 0 <= i < |chain|
      ensures Path(cfg.dir, other, us, i) != Path(cfg.dir, key, ts, idx)
    {
      if Path(cfg.dir, other, us, i) == Path(cfg.dir, key, ts, idx) {
        PathInjective(cfg.dir, other, us, i, key, ts, idx);
      }
    }
  }

  lemma {:induction false} OnDiskSnoc(
      cfg: Config, disk: map<string, seq<byte>>, key: FileKey, ts: string,
      chain: seq<seq<seq<byte>>>, file: seq<seq<byte>>)
    requires OnDisk(cfg, disk, key, ts, chain)
    requires Path(cfg.dir, key, ts, |chain|) in disk
    requires disk[Path(cfg.dir, key, ts, |chain|)] == Flat(file)
    ensures OnDisk(cfg, disk, key, ts, chain + [file])
  {
    forall i | 0 <= i < |chain| + 1
      ensures Path(cfg.dir, key, ts, i) in disk
      ensures disk[Path(cfg.dir, key, ts, i)] == Flat((chain + [file])[i])
    {
      assert i < |chain| ==> (chain + [file])[i] == chain[i];
    }
  }

  lemma {:induction false} FreshFileIsAChain(cfg: Config, s: Store, key: FileKey, ts: string)
    requires ReportsFor(s.closed, key) == [] && Clean(ts)
    ensures Holds(cfg, Opened(cfg, s, key, ts, 0), key, [[]])
  {
    var chain: seq<seq<seq<byte>>> := [[]];
    assert chain[..0] == [];
    assert ReportsMatch(cfg, key, ts, chain[..0], []);
  }

  lemma {:induction false} OtherKeySurvivesOpening(
      cfg: Config, s: Store, key: FileKey, ts: string, other: FileKey, chain: seq<seq<seq<byte>>>)
    requires chain != [] && Holds(cfg, s, other, chain) && other != key && Clean(ts)
    ensures Holds(cfg, Opened(cfg, s, key, ts, 0), other, chain)
  {
    OtherChainsUntouched(cfg, s.disk, [], key, ts, 0, other, s.files[other].ts, chain);
  }

  /** Opening the first file of a key. */
  lemma {:induction false} OpeningKeepsChains(
      cfg: Config, s: Store, writes: seq<Write>, key: FileKey, ts: string)
    requires StoreOk(cfg, s, writes) && key !in s.files && Clean(ts)
    ensures StoreOk(cfg, Opened(cfg, s, key, ts, 0), writes)
  {
    forall other: FileKey ensures KeyOk(cfg, Opened(cfg, s, key, ts, 0), writes, other) {
      assert KeyOk(cfg, s, writes, other);
      if other == key {
        FreshFileIsAChain(cfg, s, key, ts);
      } else if other in s.files {
        OtherKeySurvivesOpening(cfg, s, key, ts, other,
                                Chain(Routed(writes, other), cfg.maxFileBytes));
      }
    }
  }

  /** Appending a frame extends the last file of the chain. */
  lemma {:induction false} AppendExtendsLast(
      cfg: Config, s: Store, key: FileKey, chain: seq<seq<seq<byte>>>, frame: seq<byte>)
    requires chain != [] && Holds(cfg, s, key, chain)
    ensures s.files[key].path in s.disk
    ensures var n := |chain| - 1;
            Holds(cfg, Appended(s, key, frame), key, chain[..n] + [chain[n] + [frame]])
  {
    var f := s.files[key];
    var n := |chain| - 1;
    var t := Appended(s, key, frame);
    var grown := chain[..n] + [chain[n] + [frame]];
    FlatSnoc(chain[n], frame);
    assert OnDisk(cfg, s.disk, key, f.ts, chain[..n]);
    OtherChainsUntouched(cfg, s.disk, s.disk[f.path] + frame, key, f.ts, n, key, f.ts, chain[..n]);
    assert grown[..n] == chain[..n];
    OnDiskSnoc(cfg, t.disk, key, f.ts, chain[..n], chain[n] + [frame]);
  }

  lemma {:induction false} ReportsMatchSnoc(
      cfg: Config, key: FileKey, ts: string, chain: seq<seq<seq<byte>>>, reports: seq<FileReport>)
    requires chain != [] && ReportsMatch(cfg, key, ts, chain[..|chain| - 1], reports)
    ensures var n := |chain| - 1;
            ReportsMatch(cfg, key, ts, chain, reports + [ReportOf(cfg, key, ts, n, chain[n])])
  {
    var n := |chain| - 1;
    forall i | 0 <= i < |chain|
      ensures (reports + [ReportOf(cfg, key, ts, n, chain[n])])[i] == ReportOf(cfg, key, ts, i, chain[i])
    {
      assert i < n ==> chain[..n][i] == chain[i];
    }
  }

  /** Rotation closes the last file of the chain and opens an empty one behind it. */
  lemma {:induction false} RotationAddsAFile(
      cfg: Config, s: Store, key: FileKey, chain: seq<seq<seq<byte>>>)
    requires chain != [] && Holds(cfg, s, key, chain)
    ensures Holds(cfg, Rotated(cfg, s, key), key, chain + [[]])
  {
    var f := s.files[key];
    var t := Rotated(cfg, s, key);
    ReportsSnoc(s.closed, Report(key, f), key);
    ReportsMatchSnoc(cfg, key, f.ts, chain, ReportsFor(s.closed, key));
    assert (chain + [[]])[..|chain|] == chain;
    OtherChainsUntouched(cfg, s.disk, [], key, f.ts, |chain|, key, f.ts, chain);
    OnDiskSnoc(cfg, t.disk, key, f.ts, chain, []);
  }

  lemma {:induction false} OtherKeySurvivesAppend(
      cfg: Config, s: Store, key: FileKey, frame: seq<byte>, own: seq<seq<seq<byte>>>,
      other: FileKey, chain: seq<seq<seq<byte>>>)
    requires own != [] && Holds(cfg, s, key, own)
    requires chain != [] && Holds(cfg, s, other, chain) && other != key
    ensures Holds(cfg, Appended(s, key, frame), other, chain)
  {
    var f := s.files[key];
    OtherChainsUntouched(cfg, s.disk, s.disk[f.path] + frame, key, f.ts, f.idx,
                         other, s.files[other].ts, chain);
  }

  lemma {:induction false} OtherKeySurvivesRotation(
      cfg: Config, s: Store, key: FileKey, own: seq<seq<seq<byte>>>, other: FileKey,
      chain: seq<seq<seq<byte>>>)
    requires own != [] && Holds(cfg, s, key, own)
    requires chain != [] && Holds(cfg, s, other, chain) && other != key
    ensures Holds(cfg, Rotated(cfg, s, key), other, chain)
  {
    var f := s.files[key];
    ReportsSnoc(s.closed, Report(key, f), other);
    OtherChainsUntouched(cfg, s.disk, [], key, f.ts, f.idx + 1, other, s.files[other].ts, chain);
  }

  /** The chain after one more frame. */
  lemma {:induction false} ChainGrows(frames: seq<seq<byte>>, frame: seq<byte>, max: nat)
    ensures var chain := Chain(frames, max);
            var n := |chain| - 1;
            var grown := chain[..n] + [chain[n] + [frame]];
            Chain(frames + [frame], max) == if |Flat(chain[n] + [frame])| > max then grown + [[]] else grown
  {
    assert (frames + [frame])[..|frames|] == frames;
  }

  lemma {:induction false} GrownChain(
      cfg: Config, s: Store, chain: seq<seq<seq<byte>>>, key: FileKey, frame: seq<byte>)
    requires chain != [] && Holds(cfg, s, key, chain)
    ensures s.files[key].path in s.disk
    ensures var n := |chain| - 1;
            var open := chain[n] + [frame];
            Holds(cfg, Written(cfg, s, key, frame), key,
                  if |Flat(open)| > cfg.maxFileBytes then chain[..n] + [open] + [[]] else chain[..n] + [open])
  {
    var n := |chain| - 1;
    AppendExtendsLast(cfg, s, key, chain, frame);
    var t := Appended(s, key, frame);
    if t.files[key].curBytes > cfg.maxFileBytes {
      RotationAddsAFile(cfg, t, key, chain[..n] + [chain[n] + [frame]]);
    }
  }

  lemma {:induction false} OwnChainAfter(
      cfg: Config, s: Store, frames: seq<seq<byte>>, key: FileKey, frame: seq<byte>)
    requires Holds(cfg, s, key, Chain(frames, cfg.maxFileBytes))
    ensures s.files[key].path in s.disk
    ensures Holds(cfg, Written(cfg, s, key, frame), key, Chain(frames + [frame], cfg.maxFileBytes))
  {
    GrownChain(cfg, s, Chain(frames, cfg.maxFileBytes), key, frame);
    ChainGrows(frames, frame, cfg.maxFileBytes);
  }

  lemma {:induction false} OtherChainAfter(
      cfg: Config, s: Store, own: seq<seq<seq<byte>>>, key: FileKey, frame: seq<byte>,
      other: FileKey, chain: seq<seq<seq<byte>>>)
    requires own != [] && Holds(cfg, s, key, own) && s.files[key].path in s.disk
    requires chain != [] && Holds(cfg, s, other, chain) && other != key
    ensures Holds(cfg, Written(cfg, s, key, frame), other, chain)
  {
    var n := |own| - 1;
    AppendExtendsLast(cfg, s, key, own, frame);
    OtherKeySurvivesAppend(cfg, s, key, frame, own, other, chain);
    var t := Appended(s, key, frame);
    if t.files[key].curBytes > cfg.maxFileBytes {
      OtherKeySurvivesRotation(cfg, t, key, own[..n] + [own[n] + [frame]], other, chain);
    }
  }

  lemma {:induction false} NoFileAfter(
      cfg: Config, s: Store, key: FileKey, frame: seq<byte>, other: FileKey)
    requires key in s.files && s.files[key].path in s.disk && other != key && other !in s.files
    ensures other !in Written(cfg, s, key, frame).files
    ensures ReportsFor(Written(cfg, s, key, frame).closed, other) == ReportsFor(s.closed, other)
  {
    var t := Appended(s, key, frame);
    ReportsSnoc(s.closed, Report(key, t.files[key]), other);
  }

  /** One frame: every chain stays exactly the frames written under its key. */
  lemma {:induction false} WritingKeepsChains(
      cfg: Config, s: Store, writes: seq<Write>, key: FileKey, frame: seq<byte>)
    requires StoreOk(cfg, s, writes) && key in s.files
    ensures s.files[key].path in s.disk
    ensures StoreOk(cfg, Written(cfg, s, key, frame), writes + [Write(key, frame)])
  {
    assert KeyOk(cfg, s, writes, key);
    OwnChainAfter(cfg, s, Routed(writes, key), key, frame);
    forall other: FileKey
      ensures KeyOk(cfg, Written(cfg, s, key, frame), writes + [Write(key, frame)], other)
    {
      RoutedSnoc(writes, Write(key, frame), other);
      if other != key {
        assert KeyOk(cfg, s, writes, other);
        assert Routed(writes, other) + [] == Routed(writes, other);
        if other in s.files {
          OtherChainAfter(cfg, s, Chain(Routed(writes, key), cfg.maxFileBytes), key, frame, other,
                          Chain(Routed(writes, other), cfg.maxFileBytes));
        } else {
          NoFileAfter(cfg, s, key, frame, other);
        }
      }
    }
  }

  /**
   At any time while the files are open: the files of the chain, read from disk in index order,
   are byte for byte the frames written under the key.
   */
  lemma {:induction false} ChainOnDiskIsLossless(
      cfg: Config, s: Store, writes: seq<Write>, key: FileKey)
    requires StoreOk(cfg, s, writes) && key in s.files
    ensures var f := s.files[key];
            && (forall i :: 0 <= i <= f.idx ==> Path(cfg.dir, key, f.ts, i) in s.disk)
            && Flat(Routed(writes, key))
            == Flat(seq(f.idx + 1, i requires 0 <= i <= f.idx
                                      && Path(cfg.dir, key, f.ts, i) in s.disk =>
                                     s.disk[Path(cfg.dir, key, f.ts, i)]))
  {
    assert KeyOk(cfg, s, writes, key);
    var f := s.files[key];
    var chain := Chain(Routed(writes, key), cfg.maxFileBytes);
    ChainIsAnExactSplit(Routed(writes, key), cfg.maxFileBytes);
    FlatOfConcat(chain);
    var parts := seq(|chain|, i requires 0 <= i < |chain| => Flat(chain[i]));
    assert parts == seq(f.idx + 1, i requires 0 <= i <= f.idx
                                     && Path(cfg.dir, key, f.ts, i) in s.disk =>
                                    s.disk[Path(cfg.dir, key, f.ts, i)]);
  }

  // ---------------------------------------------------------------------
  // After closing
  // ---------------------------------------------------------------------

  /** The reports name the files of the chain in index order, and each file holds its frames. */
  ghost predicate FilesMatch(disk: map<string, seq<byte>>, key: FileKey,
                             chain: seq<seq<seq<byte>>>, reports: seq<FileReport>)
  {
    && |reports| == |chain|
    && forall i :: 0 <= i < |chain| ==>
                     && reports[i].key == key && reports[i].idx == i
                     && reports[i].bytes == |Flat(chain[i])| && reports[i].frames == |chain[i]|
                     && reports[i].path in disk && disk[reports[i].path] == Flat(chain[i])
  }

  /** A key that was written has its whole chain reported and on disk; one that was not has no file. */
  ghost predicate ChainClosed(max: nat, disk: map<string, seq<byte>>, closed: seq<FileReport>,
                              key: FileKey, frames: seq<seq<byte>>)
  {
    if frames == [] then ReportsFor(closed, key) == []
    else FilesMatch(disk, key, Chain(frames, max), ReportsFor(closed, key))
  }

  /** Closing the last file of a chain completes its reports. */
  lemma {:induction false} ClosingCompletesTheChain(
      cfg: Config, s: Store, key: FileKey, chain: seq<seq<seq<byte>>>)
    requires chain != [] && Holds(cfg, s, key, chain)
    ensures FilesMatch(s.disk, key, chain, ReportsFor(s.closed, key) + [Report(key, s.files[key])])
  {
    var f := s.files[key];
    var reports := ReportsFor(s.closed, key) + [Report(key, f)];
    forall i | 0 <= i < |chain|
      ensures reports[i] == ReportOf(cfg, key, f.ts, i, chain[i])
    {
      assert i < f.idx ==> chain[..f.idx][i] == chain[i];
    }
  }

  /** The bytes of the reported files, one behind the other. */
  function ReadBack(disk: map<string, seq<byte>>, reports: seq<FileReport>): seq<byte> {
    if reports == [] then []
    else
      var n := |reports| - 1;
      ReadBack(disk, reports[..n])
      + if reports[n].path in disk then disk[reports[n].path] else []
  }

  lemma {:induction false} MatchingFilesReadBack(
      disk: map<string, seq<byte>>, key: FileKey, chain: seq<seq<seq<byte>>>,
      reports: seq<FileReport>)
    requires FilesMatch(disk, key, chain, reports)
    ensures ReadBack(disk, reports) == Flat(Concat(chain))
  {
    if chain != [] {
      var n := |chain| - 1;
      MatchingFilesReadBack(disk, key, chain[..n], reports[..n]);
      FlatConcat(Concat(chain[..n]), chain[n]);
    }
  }

  /**
   The lossless split, for one key: its files, read back from disk in index order, are byte for
   byte the frames written under the key.
   */
  lemma {:induction false} ClosedChainIsLossless(
      max: nat, disk: map<string, seq<byte>>, closed: seq<FileReport>, key: FileKey,
      frames: seq<seq<byte>>)
    requires ChainClosed(max, disk, closed, key, frames)
    ensures ReadBack(disk, ReportsFor(closed, key)) == Flat(frames)
  {
    if frames != [] {
      MatchingFilesReadBack(disk, key, Chain(frames, max), ReportsFor(closed, key));
      ChainKeepsFrames(frames, max);
    }
  }
}

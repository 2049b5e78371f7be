/**
 Replaying several files as one stream (`merge::replay_once`, src/bin/graw_replay.rs): control
 frames at the head of a file go out at once, data frames in order of (event index, file).
 */
module Merge {
  import opened Bytes
  import opened Decode
  import F = Framer

  type Frame = seq<byte>

  // ---------------------------------------------------------------------
  // One file
  // ---------------------------------------------------------------------

  /** What the front of the buffer says about the whole of what is left. */
  lemma {:induction false} FrontDecides(pending: seq<byte>, unread: seq<byte>)
    ensures var c := F.Cut(pending + unread, F.DEFAULT_MAX_FRAME_BYTES);
            match F.HeadOf(pending, F.DEFAULT_MAX_FRAME_BYTES)
            case Complete(f) =>
              && f <= pending
              && c == F.Prepend([f], F.Cut(pending[|f|..] + unread, F.DEFAULT_MAX_FRAME_BYTES))
            case Corrupt => c.corrupt
            case Incomplete => unread == [] ==> c.frames == []
  {
    match F.HeadOf(pending, F.DEFAULT_MAX_FRAME_BYTES)
    case Complete(f) =>
      F.HeadIsStable(pending, unread, F.DEFAULT_MAX_FRAME_BYTES);
      assert (pending + unread)[|f|..] == pending[|f|..] + unread;
    case Corrupt => F.HeadIsStable(pending, unread, F.DEFAULT_MAX_FRAME_BYTES);
    case Incomplete =>
      assert unread == [] ==> pending + unread == pending;
  }

  /** One open file and its framer; a read may return any non-empty part of what is left. */
  class FrameSource {
    ghost const file: seq<byte>
    ghost var delivered: seq<Frame>
    var unread: seq<byte>
    const framer: F.Framer
    var eof: bool

    /** Without a corrupt header, what was delivered and what is left make up the file. */
    ghost predicate Valid()
      reads this, framer
    {
      && framer.Valid() && framer.maxFrameBytes == F.DEFAULT_MAX_FRAME_BYTES && (eof ==> unread == [])
      && var c := F.Cut(file, F.DEFAULT_MAX_FRAME_BYTES);
         !c.corrupt ==> c == F.Prepend(delivered, F.Cut(framer.Pending() + unread, F.DEFAULT_MAX_FRAME_BYTES))
    }

    /** Bytes still to come. */
    ghost function Size(): nat
      reads this, framer
      requires framer.Valid()
    {
      |framer.Pending()| + |unread|
    }

    /** Every frame of the file was delivered, if the file has no corrupt header. */
    ghost predicate Exhausted()
      reads this
    {
      var c := F.Cut(file, F.DEFAULT_MAX_FRAME_BYTES);
      !c.corrupt ==> delivered == c.frames
    }

    constructor (file: seq<byte>)
      ensures Valid() && delivered == [] && this.file == file && fresh(framer)
    {
      this.file := file;
      delivered := [];
      unread, eof := file, false;
      framer := new F.Framer(F.DEFAULT_MAX_FRAME_BYTES);
      new;
      assert [] + file == file;
      ghost var frames := F.Cut(file, F.DEFAULT_MAX_FRAME_BYTES).frames;
      assert [] + frames == frames;
    }

    /** One read: at least one byte of what is left goes to the framer. */
    method ReadSome()
      requires Valid() && unread != []
      modifies this`unread, framer
      ensures Valid() && |unread| < |old(unread)| && Size() == old(Size())
    {
      var n :| 0 < n <= |unread|;
      ghost var pending, chunk := framer.Pending(), unread[..n];
      assert unread == chunk + unread[n..];
      framer.Push(unread[..n]);
      unread := unread[n..];
      Associate(pending, chunk, unread);
    }

    /** The next frame of the file; none only at its end. */
    method NextFrame() returns (r: Option<Frame>)
      requires Valid()
      modifies this, framer
      ensures Valid()
      ensures r.Some? ==> delivered == old(delivered) + [r.value] && Size() < old(Size())
      ensures r.None? ==> delivered == old(delivered) && Size() <= old(Size()) && Exhausted()
    {
      while true
        invariant Valid() && delivered == old(delivered) && Size() <= old(Size())
        decreases |unread|, !eof
      {
        r := TakeBuffered();
        if r.Some? {
          return;
        }
        if eof {
          return;
        }
        if unread == [] {
          eof := true;
        } else {
          ReadSome();
        }
      }
    }

    /** Asks the framer; a frame it returns is the next one of the file. */
    method TakeBuffered() returns (r: Option<Frame>)
      requires Valid()
      modifies this`delivered, framer
      ensures Valid()
      ensures r.Some? ==> delivered == old(delivered) + [r.value] && Size() < old(Size())
      ensures r.None? ==>
                && delivered == old(delivered) && Size() <= old(Size()) && (eof ==> Exhausted())
    {
      ghost var pending := framer.Pending();
      FrontDecides(pending, unread);
      r := framer.Next();
      if r.Some? {
        assert pending[|r.value|..] == framer.Pending();
        F.PrependTwice(delivered, [r.value], F.Cut(framer.Pending() + unread, F.DEFAULT_MAX_FRAME_BYTES));
        delivered := delivered + [r.value];
      } else {
        assert delivered + [] == delivered;
      }
    }
  }

  // ---------------------------------------------------------------------
  // The merge
  // ---------------------------------------------------------------------

  /** A frame on its way out, with the file it came from. */
  datatype Tagged = Tagged(file: nat, frame: Frame)

  /** The frames of one file, in the order they went out. */
  function OfFile(out: seq<Tagged>, file: nat): seq<Frame> {
    if out == [] then []
    else
      OfFile(out[..|out| - 1], file)
      + if out[|out| - 1].file == file then [out[|out| - 1].frame] else []
  }

  lemma {:induction false} OfFileSnoc(out: seq<Tagged>, t: Tagged, file: nat)
    ensures OfFile(out + [t], file) == OfFile(out, file) + if t.file == file then [t.frame] else []
  {
    assert (out + [t])[..|out|] == out;
  }

  predicate IsEvent(f: Frame) {
    PeekEventIdx(f).Some?
  }

  function EventIdx(f: Frame): nat
    requires IsEvent(f)
  {
    PeekEventIdx(f).value
  }

  /** (event index, file) order. */
  predicate NotAfter(a: Frame, i: nat, b: Frame, j: nat)
    requires IsEvent(a) && IsEvent(b)
  {
    EventIdx(a) < EventIdx(b) || (EventIdx(a) == EventIdx(b) && i <= j)
  }

  /** The data frames of a file come with non-decreasing event index. */
  ghost predicate FileSorted(file: seq<Frame>) {
    forall p, q :: 0 <= p < q < |file| && IsEvent(file[p]) && IsEvent(file[q]) ==>
                     EventIdx(file[p]) <= EventIdx(file[q])
  }

  ghost predicate OutSorted(out: seq<Tagged>) {
    forall p, q :: 0 <= p < q < |out| && IsEvent(out[p].frame) && IsEvent(out[q].frame) ==>
                     NotAfter(out[p].frame, out[p].file, out[q].frame, out[q].file)
  }

  // ---------------------------------------------------------------------
  // Choosing a head
  // ---------------------------------------------------------------------

  type Heads = seq<Option<Frame>>

  /** The choice of the loop: the first control head, else the least data head. */
  ghost predicate IsPick(heads: Heads, i: nat) {
    && i < |heads| && heads[i].Some?
    && if !IsEvent(heads[i].value) then
         forall j :: 0 <= j < i && heads[j].Some? ==> IsEvent(heads[j].value)
       else
         forall j :: 0 <= j < |heads| && heads[j].Some? ==>
                       IsEvent(heads[j].value) && NotAfter(heads[i].value, i, heads[j].value, j)
  }

  method FirstControl(heads: Heads) returns (r: Option<nat>)
    ensures r.Some? ==> IsPick(heads, r.value) && !IsEvent(heads[r.value].value)
    ensures r.None? ==> forall j :: 0 <= j < |heads| && heads[j].Some? ==> IsEvent(heads[j].value)
  {
    for i := 0 to |heads|
      invariant forall j :: 0 <= j < i && heads[j].Some? ==> IsEvent(heads[j].value)
    {
      if heads[i].Some? && !IsEvent(heads[i].value) {
        return Some(i);
      }
    }
    return None;
  }

  predicate NoHeads(heads: Heads) {
    forall j :: 0 <= j < |heads| ==> heads[j].None?
  }

  method Pick(heads: Heads) returns (r: Option<nat>)
    ensures match r
            case Some(i) => IsPick(heads, i)
            case None => NoHeads(heads)
  {
    r := FirstControl(heads);
    if r.Some? {
      return;
    }
    for i := 0 to |heads|
      invariant r.None? ==> forall j :: 0 <= j < i ==> heads[j].None?
      invariant r.Some? ==> r.value < i && heads[r.value].Some?
      invariant r.Some? ==> forall j :: 0 <= j < i && heads[j].Some? ==>
                                          NotAfter(heads[r.value].value, r.value, heads[j].value, j)
    {
      if heads[i].Some?
         && (r.None? || EventIdx(heads[i].value) < EventIdx(heads[r.value].value)) {
        r := Some(i);
      }
    }
  }

  // ---------------------------------------------------------------------
  // Frames that went out, heads, and what the files delivered
  // ---------------------------------------------------------------------

  function HeadFrames(head: Option<Frame>): seq<Frame> {
    if head.Some? then [head.value] else []
  }

  /** What a file delivered went out, in order, except for its head. */
  ghost predicate Split(got: seq<seq<Frame>>, out: seq<Tagged>, heads: Heads) {
    && |heads| == |got|
    && (forall i :: 0 <= i < |got| ==> OfFile(out, i) + HeadFrames(heads[i]) == got[i])
    && (forall p :: 0 <= p < |out| ==> out[p].file < |got|)
  }

  ghost predicate AllSorted(files: seq<seq<Frame>>) {
    forall i :: 0 <= i < |files| ==> FileSorted(files[i])
  }

  /** File `j` has delivered a data frame that does not belong in front of `t`. */
  ghost predicate Reached(delivered: seq<Frame>, j: nat, t: Tagged)
    requires IsEvent(t.frame)
  {
    exists q :: 0 <= q < |delivered| && IsEvent(delivered[q])
                && NotAfter(t.frame, t.file, delivered[q], j)
  }

  /** Every data frame that went out was reached by every file that still has a head. */
  ghost predicate Passed(got: seq<seq<Frame>>, out: seq<Tagged>, heads: Heads)
    requires |got| == |heads|
  {
    forall p, j :: 0 <= p < |out| && 0 <= j < |heads| && IsEvent(out[p].frame) && heads[j].Some? ==>
                     Reached(got[j], j, out[p])
  }

  ghost predicate OrderOk(got: seq<seq<Frame>>, out: seq<Tagged>, heads: Heads)
    requires |got| == |heads|
  {
    AllSorted(got) ==> OutSorted(out) && Passed(got, out, heads)
  }

  lemma {:induction false} HeadIsLast(got: seq<seq<Frame>>, out: seq<Tagged>, heads: Heads, i: nat)
    requires Split(got, out, heads) && i < |heads| && heads[i].Some?
    ensures got[i] != [] && got[i][|got[i]| - 1] == heads[i].value
  {
    assert OfFile(out, i) + HeadFrames(heads[i]) == got[i];
  }

  /** The next head of a file lengthens what it delivered. */
  function Delivered(got: seq<seq<Frame>>, i: nat, next: Option<Frame>): seq<seq<Frame>>
    requires i < |got|
  {
    got[i := got[i] + HeadFrames(next)]
  }

  lemma {:induction false} StepKeepsSplit(
      got: seq<seq<Frame>>, out: seq<Tagged>, heads: Heads, i: nat, next: Option<Frame>)
    requires Split(got, out, heads) && i < |heads| && heads[i].Some?
    ensures Split(Delivered(got, i, next), out + [Tagged(i, heads[i].value)], heads[i := next])
  {
    forall j | 0 <= j < |got|
      ensures OfFile(out + [Tagged(i, heads[i].value)], j) + HeadFrames(heads[i := next][j])
              == Delivered(got, i, next)[j]
    {
      OfFileSnoc(out, Tagged(i, heads[i].value), j);
      assert OfFile(out, j) + HeadFrames(heads[j]) == got[j];
      assert OfFile(out, j) + [] == OfFile(out, j);
    }
  }

  lemma {:induction false} EarlierIsSorted(got: seq<seq<Frame>>, i: nat, next: Option<Frame>)
    requires i < |got| && AllSorted(Delivered(got, i, next))
    ensures AllSorted(got)
  {
    var after := Delivered(got, i, next);
    forall j | 0 <= j < |got| ensures FileSorted(got[j]) {
      assert FileSorted(after[j]);
      assert forall p :: 0 <= p < |got[j]| ==> after[j][p] == got[j][p];
    }
  }

  /** What was reached stays reached, and the picked frame is reached by every head. */
  lemma {:induction false} StepKeepsPassed(
      got: seq<seq<Frame>>, out: seq<Tagged>, heads: Heads, i: nat, next: Option<Frame>)
    requires Split(got, out, heads) && IsPick(heads, i) && Passed(got, out, heads)
    ensures Passed(Delivered(got, i, next), out + [Tagged(i, heads[i].value)], heads[i := next])
  {
    var t := Tagged(i, heads[i].value);
    var after := Delivered(got, i, next);
    forall p, j | 0 <= p < |out| + 1 && 0 <= j < |heads| && IsEvent((out + [t])[p].frame)
                  && heads[i := next][j].Some?
      ensures Reached(after[j], j, (out + [t])[p])
    {
      if p < |out| {
        assert Reached(got[j], j, out[p]);
        var q :| 0 <= q < |got[j]| && IsEvent(got[j][q])
                 && NotAfter(out[p].frame, out[p].file, got[j][q], j);
        assert after[j][q] == got[j][q];
      } else {
        HeadIsLast(got, out, heads, j);
        assert after[j][|got[j]| - 1] == heads[j].value;
      }
    }
  }

  /** The picked frame belongs behind everything that went out. */
  lemma {:induction false} StepKeepsSorted(got: seq<seq<Frame>>, out: seq<Tagged>, heads: Heads, i: nat)
    requires Split(got, out, heads) && IsPick(heads, i)
    requires AllSorted(got) && OutSorted(out) && Passed(got, out, heads)
    ensures OutSorted(out + [Tagged(i, heads[i].value)])
  {
    var head := heads[i].value;
    HeadIsLast(got, out, heads, i);
    forall p | 0 <= p < |out| && IsEvent(out[p].frame) && IsEvent(head)
      ensures NotAfter(out[p].frame, out[p].file, head, i)
    {
      assert Reached(got[i], i, out[p]);
      var q :| 0 <= q < |got[i]| && IsEvent(got[i][q])
               && NotAfter(out[p].frame, out[p].file, got[i][q], i);
      assert FileSorted(got[i]);
    }
  }

  lemma {:induction false} StepKeepsOrder(
      got: seq<seq<Frame>>, out: seq<Tagged>, heads: Heads, i: nat, next: Option<Frame>)
    requires Split(got, out, heads) && IsPick(heads, i) && OrderOk(got, out, heads)
    ensures OrderOk(Delivered(got, i, next), out + [Tagged(i, heads[i].value)], heads[i := next])
  {
    if AllSorted(Delivered(got, i, next)) {
      EarlierIsSorted(got, i, next);
      StepKeepsPassed(got, out, heads, i, next);
      StepKeepsSorted(got, out, heads, i);
    }
  }

  // ---------------------------------------------------------------------
  // The merge has no choice
  // ---------------------------------------------------------------------

  /** The heads of the files when `out` has gone out. */
  function HeadsAt(got: seq<seq<Frame>>, out: seq<Tagged>): Heads {
    seq(|got|, i requires 0 <= i < |got| => HeadOfFile(got[i], |OfFile(out, i)|))
  }

  function HeadOfFile(file: seq<Frame>, k: nat): Option<Frame> {
    if k < |file| then Some(file[k]) else None
  }

  /** The frame at place `p` was the head that was to be picked. */
  ghost predicate PickedAt(got: seq<seq<Frame>>, out: seq<Tagged>, p: nat)
    requires p < |out|
  {
    var heads := HeadsAt(got, out[..p]);
    IsPick(heads, out[p].file) && heads[out[p].file] == Some(out[p].frame)
  }

  ghost predicate Picked(got: seq<seq<Frame>>, out: seq<Tagged>) {
    forall p :: 0 <= p < |out| ==> PickedAt(got, out, p)
  }

  lemma {:induction false} HeadsAreAt(got: seq<seq<Frame>>, out: seq<Tagged>, heads: Heads)
    requires Split(got, out, heads)
    ensures HeadsAt(got, out) == heads
  {
    forall i | 0 <= i < |got| ensures HeadsAt(got, out)[i] == heads[i] {
      assert OfFile(out, i) + HeadFrames(heads[i]) == got[i];
    }
  }

  lemma {:induction false} OfFileGrows(out: seq<Tagged>, p: nat, file: nat)
    requires p <= |out|
    ensures |OfFile(out[..p], file)| <= |OfFile(out, file)|
  {
    if p == |out| {
      assert out[..p] == out;
    } else {
      var n := |out| - 1;
      assert out[..n][..p] == out[..p];
      OfFileGrows(out[..n], p, file);
    }
  }

  /** A later delivery does not change the heads of earlier turns. */
  lemma {:induction false} EarlierHeadsStay(
      got: seq<seq<Frame>>, out: seq<Tagged>, heads: Heads, i: nat, next: Option<Frame>, p: nat)
    requires Split(got, out, heads) && i < |heads| && heads[i].Some? && p <= |out|
    ensures HeadsAt(Delivered(got, i, next), out[..p]) == HeadsAt(got, out[..p])
  {
    assert OfFile(out, i) + HeadFrames(heads[i]) == got[i];
    OfFileGrows(out, p, i);
  }

  lemma {:induction false} StepKeepsPicked(
      got: seq<seq<Frame>>, out: seq<Tagged>, heads: Heads, i: nat, next: Option<Frame>)
    requires Split(got, out, heads) && IsPick(heads, i) && Picked(got, out)
    ensures Picked(Delivered(got, i, next), out + [Tagged(i, heads[i].value)])
  {
    var grown := out + [Tagged(i, heads[i].value)];
    forall p | 0 <= p < |grown| ensures PickedAt(Delivered(got, i, next), grown, p) {
      assert grown[..p] == out[..p];
      EarlierHeadsStay(got, out, heads, i, next, p);
      if p < |out| {
        assert PickedAt(got, out, p);
      } else {
        assert out[..p] == out;
        HeadsAreAt(got, out, heads);
      }
    }
  }

  /**
   What goes out next, frame by frame: the control frame of the first file whose next frame is
   one; only if there is none, the data frame with the least (event index, file).
   */
  lemma {:induction false} NextOut(got: seq<seq<Frame>>, out: seq<Tagged>, p: nat)
    requires Picked(got, out) && p < |out|
    ensures var i, f := out[p].file, out[p].frame;
            var next := HeadsAt(got, out[..p]);
            && i < |got| && next[i] == Some(f)
            && forall j :: 0 <= j < |next| && next[j].Some? ==>
                             var g := next[j].value;
                             if !IsEvent(f) then IsEvent(g) || i <= j
                             else IsEvent(g) && (EventIdx(f) < EventIdx(g)
                                                 || (EventIdx(f) == EventIdx(g) && i <= j))
  {
    assert PickedAt(got, out, p);
  }

  /** Everything of the files is out. */
  ghost predicate Complete(got: seq<seq<Frame>>, out: seq<Tagged>) {
    && (forall i :: 0 <= i < |got| ==> OfFile(out, i) == got[i])
    && (forall p :: 0 <= p < |out| ==> out[p].file < |got|)
  }

  lemma PickIsUnique(heads: Heads, i: nat, j: nat)
    requires IsPick(heads, i) && IsPick(heads, j)
    ensures i == j
  {
  }

  lemma {:induction false} SamePrefix(got: seq<seq<Frame>>, a: seq<Tagged>, b: seq<Tagged>, p: nat)
    requires Picked(got, a) && Picked(got, b) && p <= |a| && p <= |b|
    ensures a[..p] == b[..p]
  {
    if p > 0 {
      SamePrefix(got, a, b, p - 1);
      assert PickedAt(got, a, p - 1) && PickedAt(got, b, p - 1);
      PickIsUnique(HeadsAt(got, a[..p - 1]), a[p - 1].file, b[p - 1].file);
      assert a[p - 1] == b[p - 1];
      assert a[..p] == a[..p - 1] + [a[p - 1]] && b[..p] == b[..p - 1] + [b[p - 1]];
    }
  }

  lemma {:induction false} NoHeadsWhenComplete(got: seq<seq<Frame>>, out: seq<Tagged>)
    requires Complete(got, out)
    ensures NoHeads(HeadsAt(got, out))
  {
    forall i | 0 <= i < |got| ensures HeadsAt(got, out)[i].None? {
      assert OfFile(out, i) == got[i];
    }
  }

  lemma {:induction false} HeadsWhilePicking(got: seq<seq<Frame>>, out: seq<Tagged>, p: nat)
    requires Picked(got, out) && p < |out|
    ensures !NoHeads(HeadsAt(got, out[..p]))
  {
    assert PickedAt(got, out, p);
  }

  lemma {:induction false} NotLonger(got: seq<seq<Frame>>, a: seq<Tagged>, b: seq<Tagged>)
    requires Picked(got, a) && Picked(got, b) && Complete(got, a)
    ensures |b| <= |a|
  {
    if |a| < |b| {
      HeadsWhilePicking(got, b, |a|);
      SamePrefix(got, a, b, |a|);
      assert a[..|a|] == a;
      NoHeadsWhenComplete(got, a);
    }
  }

  /** The same files always give the same output. */
  lemma {:induction false} MergeIsUnique(got: seq<seq<Frame>>, a: seq<Tagged>, b: seq<Tagged>)
    requires Picked(got, a) && Complete(got, a) && Picked(got, b) && Complete(got, b)
    ensures a == b
  {
    NotLonger(got, a, b);
    NotLonger(got, b, a);
    SamePrefix(got, a, b, |a|);
    assert a[..|a|] == a && b[..|b|] == b;
  }

  // ---------------------------------------------------------------------
  // The loop
  // ---------------------------------------------------------------------

  function Sum(sizes: seq<nat>): nat {
    if sizes == [] then 0 else Sum(sizes[..|sizes| - 1]) + sizes[|sizes| - 1]
  }

  lemma {:induction false} SumDrops(sizes: seq<nat>, i: nat, v: nat)
    requires i < |sizes| && v < sizes[i]
    ensures Sum(sizes[i := v]) < Sum(sizes)
  {
    var n := |sizes| - 1;
    if i == n {
      assert sizes[i := v][..n] == sizes[..n];
    } else {
      assert sizes[i := v][..n] == sizes[..n][i := v];
      SumDrops(sizes[..n], i, v);
    }
  }

  /** Sources share no state. */
  ghost predicate Apart(sources: seq<FrameSource>) {
    forall i, j :: 0 <= i < j < |sources| ==>
                     sources[i] != sources[j] && sources[i].framer != sources[j].framer
  }

  function Mass(head: Option<Frame>): nat {
    if head.Some? then 1 else 0
  }

  /** What is known of one source and its head: its history, its size, and when it is at its end. */
  ghost predicate At(source: FrameSource, got: seq<Frame>, head: Option<Frame>, size: nat)
    reads source, source.framer
  {
    && source.Valid() && source.delivered == got
    && size == source.Size() + Mass(head)
    && (head.None? ==> source.Exhausted())
  }

  ghost function Footprint(sources: seq<FrameSource>): set<object>
  {
    (set s: FrameSource | s in sources :: s as object)
    + (set s: FrameSource | s in sources :: s.framer as object)
  }

  /** All sources, as far as `heads` reaches. */
  ghost predicate AllAt(sources: seq<FrameSource>, got: seq<seq<Frame>>, heads: Heads, sizes: seq<nat>)
    reads *
  {
    && |got| == |heads| == |sizes| <= |sources|
    && forall i :: 0 <= i < |heads| ==> At(sources[i], got[i], heads[i], sizes[i])
  }

  ghost predicate Unopened(sources: seq<FrameSource>, n: nat)
    reads *
  {
    forall i :: n <= i < |sources| ==> sources[i].Valid() && sources[i].delivered == []
  }

  /** Opens source `n`. */
  method OpenNext(sources: seq<FrameSource>, heads: Heads, ghost got: seq<seq<Frame>>,
                  ghost sizes: seq<nat>)
    returns (next: Option<Frame>, ghost size: nat)
    requires Apart(sources) && |heads| < |sources|
    requires AllAt(sources, got, heads, sizes) && Unopened(sources, |heads|)
    modifies sources[|heads|], sources[|heads|].framer
    ensures AllAt(sources, got + [HeadFrames(next)], heads + [next], sizes + [size])
    ensures Unopened(sources, |heads| + 1)
  {
    next := sources[|heads|].NextFrame();
    size := sources[|heads|].Size() + Mass(next);
    assert [] + HeadFrames(next) == HeadFrames(next);
  }

  /** The first head of every source. */
  method OpenAll(sources: seq<FrameSource>)
    returns (heads: Heads, ghost got: seq<seq<Frame>>, ghost sizes: seq<nat>)
    requires Apart(sources) && Unopened(sources, 0)
    modifies Footprint(sources)
    ensures LoopOk(sources, got, sizes, heads, [], 0)
  {
    heads, got, sizes := [], [], [];
    while |heads| < |sources|
      invariant |heads| <= |sources|
      invariant AllAt(sources, got, heads, sizes) && Unopened(sources, |heads|)
      invariant Split(got, [], heads)
    {
      var next;
      ghost var size;
      next, size := OpenNext(sources, heads, got, sizes);
      SplitSnoc(got, heads, next);
      heads, got, sizes := heads + [next], got + [HeadFrames(next)], sizes + [size];
    }
    NothingOut(got, heads);
  }

  lemma {:induction false} SplitSnoc(got: seq<seq<Frame>>, heads: Heads, next: Option<Frame>)
    requires Split(got, [], heads)
    ensures Split(got + [HeadFrames(next)], [], heads + [next])
  {
    forall i | 0 <= i < |got| + 1
      ensures OfFile([], i) + HeadFrames((heads + [next])[i]) == (got + [HeadFrames(next)])[i]
    {
      assert i < |got| ==> OfFile([], i) + HeadFrames(heads[i]) == got[i];
    }
  }

  /** The next head of source `i`; the other sources stand still. */
  method Refill(sources: seq<FrameSource>, heads: Heads, i: nat, ghost got: seq<seq<Frame>>,
                ghost sizes: seq<nat>)
    returns (next: Option<Frame>, ghost size: nat)
    requires Apart(sources) && AllAt(sources, got, heads, sizes)
    requires i < |heads| && heads[i].Some?
    modifies sources[i], sources[i].framer
    ensures AllAt(sources, Delivered(got, i, next), heads[i := next], sizes[i := size])
    ensures size < sizes[i]
  {
    assert At(sources[i], got[i], heads[i], sizes[i]);
    next := sources[i].NextFrame();
    size := sources[i].Size() + Mass(next);
    assert got[i] + [] == got[i];
    assert At(sources[i], got[i] + HeadFrames(next), next, size);
  }

  /** What the loop keeps, apart from the sources. */
  ghost predicate Merged(got: seq<seq<Frame>>, heads: Heads, out: seq<Tagged>, total: nat) {
    && Split(got, out, heads) && OrderOk(got, out, heads) && Picked(got, out)
    && total == |Flat(Frames(out))|
  }

  lemma {:induction false} StepKeepsMerged(
      got: seq<seq<Frame>>, heads: Heads, out: seq<Tagged>, total: nat, i: nat, next: Option<Frame>)
    requires Merged(got, heads, out, total) && IsPick(heads, i)
    ensures Merged(Delivered(got, i, next), heads[i := next], out + [Tagged(i, heads[i].value)],
                   total + |heads[i].value|)
  {
    StepKeepsSplit(got, out, heads, i, next);
    StepKeepsOrder(got, out, heads, i, next);
    StepKeepsPicked(got, out, heads, i, next);
    FramesSnoc(out, Tagged(i, heads[i].value));
  }

  ghost predicate LoopOk(sources: seq<FrameSource>, got: seq<seq<Frame>>, sizes: seq<nat>,
                         heads: Heads, out: seq<Tagged>, total: nat)
    reads *
  {
    AllAt(sources, got, heads, sizes) && |heads| == |sources| && Merged(got, heads, out, total)
  }

  /** One turn: the picked head goes out, and its source gets a new head. */
  method Turn(sources: seq<FrameSource>, heads: Heads, i: nat, out: seq<Tagged>, total: nat,
              ghost got: seq<seq<Frame>>, ghost sizes: seq<nat>)
    returns (after: Heads, grown: seq<Tagged>, newTotal: nat, ghost gotNow: seq<seq<Frame>>,
             ghost smaller: seq<nat>)
    requires Apart(sources) && LoopOk(sources, got, sizes, heads, out, total) && IsPick(heads, i)
    modifies Footprint(sources)
    ensures LoopOk(sources, gotNow, smaller, after, grown, newTotal)
    ensures Sum(smaller) < Sum(sizes)
  {
    var head := heads[i].value;
    var next;
    ghost var size;
    next, size := Refill(sources, heads, i, got, sizes);
    SumDrops(sizes, i, size);
    smaller := sizes[i := size];
    StepKeepsMerged(got, heads, out, total, i, next);
    grown, newTotal := out + [Tagged(i, head)], total + |head|;
    after, gotNow := heads[i := next], Delivered(got, i, next);
  }

  /** What the files have delivered. */
  ghost function DeliveredBy(sources: seq<FrameSource>): seq<seq<Frame>>
    reads *
  {
    seq(|sources|, i requires 0 <= i < |sources| reads * => sources[i].delivered)
  }

  /** The output of a merge: complete, picked turn by turn, and sorted if the files are. */
  ghost predicate IsMerge(files: seq<seq<Frame>>, out: seq<Tagged>) {
    Complete(files, out) && Picked(files, out) && (AllSorted(files) ==> OutSorted(out))
  }

  ghost predicate MergedWell(sources: seq<FrameSource>, out: seq<Tagged>, total: nat)
    reads *
  {
    && IsMerge(DeliveredBy(sources), out)
    && (forall i :: 0 <= i < |sources| ==> sources[i].Exhausted())
    && total == |Flat(Frames(out))|
  }

  /**
   The merge. It is an interleaving: each file's frames go out in their order and none is lost.
   If the data frames of each file come in event order, those of the output come in order of
   (event index, file), wherever the control frames stand. The same frames always come in the
   same order (`MergeIsUnique`). It ends because every turn takes bytes or a head away.
   */
  method ReplayOnce(sources: seq<FrameSource>) returns (out: seq<Tagged>, total: nat)
    requires Apart(sources) && Unopened(sources, 0)
    modifies Footprint(sources)
    ensures MergedWell(sources, out, total)
  {
    var heads;
    ghost var got, sizes;
    heads, got, sizes := OpenAll(sources);
    out, total := [], 0;
    var pick := Pick(heads);
    while pick.Some?
      invariant LoopOk(sources, got, sizes, heads, out, total)
      invariant match pick
                case Some(i) => IsPick(heads, i)
                case None => NoHeads(heads)
      decreases Sum(sizes)
    {
      heads, out, total, got, sizes := Turn(sources, heads, pick.value, out, total, got, sizes);
      pick := Pick(heads);
    }
    AllOut(sources, got, heads, sizes, out, total);
  }

  lemma NothingOut(got: seq<seq<Frame>>, heads: Heads)
    requires Split(got, [], heads)
    ensures Merged(got, heads, [], 0)
  {
  }

  lemma {:induction false} AllOut(
      sources: seq<FrameSource>, got: seq<seq<Frame>>, heads: Heads, sizes: seq<nat>,
      out: seq<Tagged>, total: nat)
    requires LoopOk(sources, got, sizes, heads, out, total)
    requires NoHeads(heads)
    ensures MergedWell(sources, out, total)
  {
    forall i | 0 <= i < |sources|
      ensures OfFile(out, i) == got[i] == sources[i].delivered && sources[i].Exhausted()
    {
      assert At(sources[i], got[i], heads[i], sizes[i]);
      assert OfFile(out, i) + HeadFrames(heads[i]) == got[i];
      assert OfFile(out, i) + [] == OfFile(out, i);
    }
    assert DeliveredBy(sources) == got;
  }

  lemma {:induction false} FramesSnoc(out: seq<Tagged>, t: Tagged)
    ensures |Flat(Frames(out + [t]))| == |Flat(Frames(out))| + |t.frame|
  {
    assert Frames(out + [t]) == Frames(out) + [t.frame];
    FlatSnoc(Frames(out), t.frame);
  }

  function Frames(out: seq<Tagged>): seq<Frame> {
    seq(|out|, i requires 0 <= i < |out| => out[i].frame)
  }

  // ---------------------------------------------------------------------
  // Files
  // ---------------------------------------------------------------------

  /** The frames of the files. */
  function FramesOfFiles(files: seq<seq<byte>>): seq<seq<Frame>> {
    seq(|files|, i requires 0 <= i < |files| => F.Cut(files[i], F.DEFAULT_MAX_FRAME_BYTES).frames)
  }

  ghost predicate NoneCorrupt(files: seq<seq<byte>>) {
    forall i :: 0 <= i < |files| ==> !F.Cut(files[i], F.DEFAULT_MAX_FRAME_BYTES).corrupt
  }

  ghost predicate Opened(sources: seq<FrameSource>, files: seq<seq<byte>>)
    reads *
  {
    && Apart(sources) && Unopened(sources, 0) && |sources| == |files|
    && forall i :: 0 <= i < |files| ==> sources[i].file == files[i]
  }

  lemma {:induction false} FootprintSnoc(sources: seq<FrameSource>, source: FrameSource)
    ensures Footprint(sources + [source]) == Footprint(sources) + {source, source.framer}
  {
    var grown := sources + [source];
    assert forall s :: s in grown <==> s in sources || s == source;
    forall o | o in Footprint(sources) + {source, source.framer} ensures o in Footprint(grown) {
      assert source in grown;
    }
  }

  /** Opens one more file. */
  method OpenFile(sources: seq<FrameSource>, ghost files: seq<seq<byte>>, file: seq<byte>)
    returns (source: FrameSource)
    requires Opened(sources, files)
    ensures Opened(sources + [source], files + [file]) && fresh({source, source.framer})
  {
    source := new FrameSource(file);
    forall i | 0 <= i < |sources|
      ensures sources[i] != source && sources[i].framer != source.framer
    {
      assert sources[i].Valid();
    }
  }

  /** Opens all files. */
  method OpenFiles(files: seq<seq<byte>>) returns (sources: seq<FrameSource>)
    ensures Opened(sources, files) && fresh(Footprint(sources))
  {
    sources := [];
    for i := 0 to |files|
      invariant Opened(sources, files[..i]) && fresh(Footprint(sources))
    {
      var source := OpenFile(sources, files[..i], files[i]);
      FootprintSnoc(sources, source);
      assert files[..i + 1] == files[..i] + [files[i]];
      sources := sources + [source];
    }
    assert files[..|files|] == files;
  }

  /** Opens the files and merges them once. */
  method ReplayFiles(files: seq<seq<byte>>) returns (out: seq<Tagged>)
    ensures NoneCorrupt(files) ==> IsMerge(FramesOfFiles(files), out)
  {
    var sources := OpenFiles(files);
    var total;
    out, total := ReplayOnce(sources);
    if NoneCorrupt(files) {
      assert DeliveredBy(sources) == FramesOfFiles(files);
    }
  }
}

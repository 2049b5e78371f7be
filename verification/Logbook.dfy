/**
 The logbook (src/logbook.rs): an append-only file of one record per line, written by one
 process that may crash in the middle of a line and recovers its sequence number from the
 file when it opens it again.

 A record is a short string of glyphs, and a line parses iff it is exactly one whole record.
 */
module Logbook {
  import opened Bytes

  datatype Glyph = Open | SeqNo(n: nat) | Body(record: string) | Close | Newline

  datatype Line = Line(seqNo: nat, record: string)

  function Encoded(l: Line): seq<Glyph> {
    [Open, SeqNo(l.seqNo), Body(l.record), Close]
  }

  function Parse(text: seq<Glyph>): Option<Line> {
    if |text| == 4 && text[0].Open? && text[1].SeqNo? && text[2].Body? && text[3].Close?
    then Some(Line(text[1].n, text[2].record)) else None
  }

  /** What one append writes. */
  function Written(l: Line): seq<Glyph> {
    Encoded(l) + [Newline]
  }

  // ---------------------------------------------------------------------
  // Lines of a file
  // ---------------------------------------------------------------------

  /** The terminated lines, and what follows the last newline. */
  datatype Book = Book(done: seq<seq<Glyph>>, tail: seq<Glyph>)

  function Split(content: seq<Glyph>): Book {
    if content == [] then Book([], [])
    else
      var b := Split(content[..|content| - 1]);
      var g := content[|content| - 1];
      if g.Newline? then Book(b.done + [b.tail], []) else b.(tail := b.tail + [g])
  }

  /** `str::lines`: an unterminated last line counts, an empty one does not. */
  function LinesOf(b: Book): seq<seq<Glyph>> {
    b.done + if b.tail == [] then [] else [b.tail]
  }

  function Lines(content: seq<Glyph>): seq<seq<Glyph>> {
    LinesOf(Split(content))
  }

  lemma {:induction false} SplitGlyph(content: seq<Glyph>, g: Glyph)
    ensures var b := Split(content);
            Split(content + [g])
            == if g.Newline? then Book(b.done + [b.tail], []) else b.(tail := b.tail + [g])
  {
    assert (content + [g])[..|content|] == content;
  }

  /** Text without a newline extends the tail. */
  lemma {:induction false} SplitText(content: seq<Glyph>, text: seq<Glyph>)
    requires forall i :: 0 <= i < |text| ==> !text[i].Newline?
    ensures Split(content + text) == Split(content).(tail := Split(content).tail + text)
  {
    if text == [] {
      assert content + text == content;
      assert Split(content).tail + [] == Split(content).tail;
    } else {
      var n := |text| - 1;
      SplitText(content, text[..n]);
      SplitLast(content, text);
      SplitLast(Split(content).tail, text);
      SplitGlyph(content + text[..n], text[n]);
    }
  }

  /** A whole append terminates the tail. */
  lemma {:induction false} SplitWritten(content: seq<Glyph>, l: Line)
    ensures var b := Split(content);
            Split(content + Written(l)) == Book(b.done + [b.tail + Encoded(l)], [])
  {
    SplitText(content, Encoded(l));
    SplitGlyph(content + Encoded(l), Newline);
    Associate(content, Encoded(l), [Newline]);
  }

  // ---------------------------------------------------------------------
  // Recovery and the writer
  // ---------------------------------------------------------------------

  /** One past the last parseable line, or 1. */
  function NextAfter(lines: seq<seq<Glyph>>): nat {
    if lines == [] then 1
    else
      match Parse(lines[|lines| - 1])
      case Some(l) => l.seqNo + 1
      case None => NextAfter(lines[..|lines| - 1])
  }

  /** The backward scan; `skipped` is the number of unparseable lines behind the last good one. */
  method RecoverNextSeq(content: seq<Glyph>) returns (next: nat, skipped: nat)
    ensures next == NextAfter(Lines(content))
    ensures skipped <= |Lines(content)|
    ensures forall i :: |Lines(content)| - skipped <= i < |Lines(content)| ==> Parse(Lines(content)[i]).None?
    ensures skipped < |Lines(content)| ==> Parse(Lines(content)[|Lines(content)| - skipped - 1]).Some?
  {
    var lines := Lines(content);
    skipped := 0;
    var i := |lines|;
    assert lines[..i] == lines;
    while i > 0
      invariant 0 <= i <= |lines| && skipped == |lines| - i
      invariant NextAfter(lines) == NextAfter(lines[..i])
      invariant forall j :: i <= j < |lines| ==> Parse(lines[j]).None?
    {
      assert lines[..i][..i - 1] == lines[..i - 1];
      var parsed := Parse(lines[i - 1]);
      if parsed.Some? {
        return parsed.value.seqNo + 1, skipped;
      }
      skipped := skipped + 1;
      i := i - 1;
    }
    next := 1;
  }

  class LogbookWriter {
    var file: seq<Glyph>
    var nextSeq: nat

    /** Opening for append recovers the sequence number from the file. */
    constructor (content: seq<Glyph>)
      ensures file == content && nextSeq == NextAfter(Lines(content))
    {
      file := content;
      var next, _ := RecoverNextSeq(content);
      nextSeq := next;
    }

    /**
     Appends one line. When only the first `stored` glyphs reach the file the call fails, the
     number is not used up, and the fragment stays.
     */
    method Append(record: string, stored: nat) returns (r: Option<nat>)
      modifies this
      ensures var line := Written(Line(old(nextSeq), record));
              if stored >= |line| then
                r == Some(old(nextSeq)) && file == old(file) + line && nextSeq == old(nextSeq) + 1
              else
                r == None && file == old(file) + line[..stored] && nextSeq == old(nextSeq)
    {
      var seqNo := nextSeq;
      var line := Written(Line(seqNo, record));
      if stored < |line| {
        file := file + line[..stored];
        return None;
      }
      file := file + line;
      nextSeq := nextSeq + 1;
      return Some(seqNo);
    }
  }

  // ---------------------------------------------------------------------
  // Histories with crashes
  // ---------------------------------------------------------------------

  datatype Event =
    | Reopen
    | Appended(record: string)
    | AppendFailed(record: string, stored: nat)
    | Crashed(record: string, stored: nat)

  /** The file, and the number the writer would use next if one is running. */
  datatype State = State(content: seq<Glyph>, writer: Option<nat>)

  /** The part of a line that reached the file. */
  function Fragment(l: Line, stored: nat): seq<Glyph> {
    if stored < |Written(l)| then Written(l)[..stored] else Written(l)
  }

  function Step(s: State, e: Event): State {
    match e
    case Reopen => s.(writer := Some(NextAfter(Lines(s.content))))
    case Appended(record) =>
      if s.writer.None? then s
      else State(s.content + Written(Line(s.writer.value, record)), Some(s.writer.value + 1))
    case AppendFailed(record, stored) =>
      if s.writer.None? || stored >= 5 then s
      else s.(content := s.content + Fragment(Line(s.writer.value, record), stored))
    case Crashed(record, stored) =>
      if s.writer.None? then s
      else State(s.content + Fragment(Line(s.writer.value, record), stored), None)
  }

  function After(events: seq<Event>): State {
    if events == [] then State([], None)
    else Step(After(events[..|events| - 1]), events[|events| - 1])
  }

  /** The sequence numbers of the lines that parse, in file order. */
  function SeqNos(lines: seq<seq<Glyph>>): seq<nat> {
    if lines == [] then []
    else
      SeqNos(lines[..|lines| - 1])
      + match Parse(lines[|lines| - 1])
        case Some(l) => [l.seqNo]
        case None => []
  }

  lemma {:induction false} SeqNosSnoc(lines: seq<seq<Glyph>>, line: seq<Glyph>)
    ensures SeqNos(lines + [line])
            == SeqNos(lines) + if Parse(line).Some? then [Parse(line).value.seqNo] else []
  {
    assert (lines + [line])[..|lines|] == lines;
  }

  ghost predicate Increasing(ns: seq<nat>) {
    forall i, j :: 0 <= i < j < |ns| ==> ns[i] < ns[j]
  }

  ghost predicate AllBelow(ns: seq<nat>, n: nat) {
    forall i :: 0 <= i < |ns| ==> ns[i] < n
  }

  lemma {:induction false} NextIsAboveAll(lines: seq<seq<Glyph>>)
    requires Increasing(SeqNos(lines))
    ensures AllBelow(SeqNos(lines), NextAfter(lines))
  {
    if lines != [] {
      var n := |lines| - 1;
      var before := SeqNos(lines[..n]);
      if Parse(lines[n]).Some? {
        assert SeqNos(lines)[|before|] == Parse(lines[n]).value.seqNo;
      } else {
        assert SeqNos(lines) == before;
        NextIsAboveAll(lines[..n]);
      }
    }
  }

  /** The running writer is above every terminated line, and not below a whole tail. */
  ghost predicate WriterAbove(b: Book, next: nat) {
    && AllBelow(SeqNos(b.done), next)
    && (Parse(b.tail).Some? ==> Parse(b.tail).value.seqNo <= next)
  }

  ghost predicate Sound(s: State) {
    && Increasing(SeqNos(Lines(s.content)))
    && (s.writer.Some? ==> WriterAbove(Split(s.content), s.writer.value))
  }

  lemma {:induction false} DoneIsIncreasing(b: Book)
    requires Increasing(SeqNos(LinesOf(b)))
    ensures Increasing(SeqNos(b.done))
    ensures Parse(b.tail).Some? ==> AllBelow(SeqNos(b.done), Parse(b.tail).value.seqNo)
  {
    if b.tail == [] {
      assert LinesOf(b) == b.done;
    } else {
      SeqNosSnoc(b.done, b.tail);
      var all, done := SeqNos(LinesOf(b)), SeqNos(b.done);
      assert forall i :: 0 <= i < |done| ==> all[i] == done[i];
      assert Parse(b.tail).Some? ==> all[|done|] == Parse(b.tail).value.seqNo;
    }
  }

  lemma {:induction false} TailJoins(b: Book)
    requires Increasing(SeqNos(b.done))
    requires Parse(b.tail).Some? ==> AllBelow(SeqNos(b.done), Parse(b.tail).value.seqNo)
    ensures Increasing(SeqNos(LinesOf(b)))
  {
    if b.tail == [] {
      assert LinesOf(b) == b.done;
    } else {
      SeqNosSnoc(b.done, b.tail);
    }
  }

  /** A record glued behind a fragment never parses. */
  lemma {:induction false} GluedNeverParses(tail: seq<Glyph>, l: Line, stored: nat)
    requires tail != [] && 0 < stored <= 4
    ensures Parse(tail + Encoded(l)[..stored]).None?
  {
    var text := tail + Encoded(l)[..stored];
    assert text[|tail|] == Open;
  }

  lemma {:induction false} ReopenIsSound(s: State)
    requires Sound(s)
    ensures Sound(Step(s, Reopen))
  {
    var b := Split(s.content);
    var next := NextAfter(Lines(s.content));
    NextIsAboveAll(Lines(s.content));
    if b.tail == [] {
      assert LinesOf(b) == b.done;
    } else {
      SeqNosSnoc(b.done, b.tail);
      var all, done := SeqNos(Lines(s.content)), SeqNos(b.done);
      assert forall i :: 0 <= i < |done| ==> all[i] == done[i];
      if Parse(b.tail).Some? {
        assert all[|done|] == Parse(b.tail).value.seqNo;
      }
    }
  }

  /** A whole record parses on a line of its own, and only there. */
  lemma {:induction false} WholeRecord(tail: seq<Glyph>, l: Line)
    ensures Parse(tail + Encoded(l)) == if tail == [] then Some(l) else None
  {
    if tail == [] {
      assert tail + Encoded(l) == Encoded(l);
    } else {
      GluedNeverParses(tail, l, 4);
      assert Encoded(l)[..4] == Encoded(l);
    }
  }

  lemma {:induction false} AppendToLines(done: seq<seq<Glyph>>, tail: seq<Glyph>, l: Line)
    requires Increasing(SeqNos(done)) && AllBelow(SeqNos(done), l.seqNo)
    ensures Increasing(SeqNos(done + [tail + Encoded(l)]))
    ensures AllBelow(SeqNos(done + [tail + Encoded(l)]), l.seqNo + 1)
  {
    WholeRecord(tail, l);
    SeqNosSnoc(done, tail + Encoded(l));
  }

  lemma {:induction false} AppendIsSound(s: State, record: string)
    requires Sound(s) && s.writer.Some?
    ensures Sound(Step(s, Appended(record)))
  {
    var l := Line(s.writer.value, record);
    var b := Split(s.content);
    SplitWritten(s.content, l);
    DoneIsIncreasing(b);
    AppendToLines(b.done, b.tail, l);
    TailJoins(Book(b.done + [b.tail + Encoded(l)], []));
  }

  /** What a fragment of a record does to the tail: it parses only as a whole line of its own. */
  lemma {:induction false} FragmentInTail(tail: seq<Glyph>, l: Line, stored: nat)
    requires stored <= 4
    ensures var text := tail + Encoded(l)[..stored];
            && (stored == 0 ==> text == tail)
            && (stored > 0 ==>
                  Parse(text) == if tail == [] && stored == 4 then Some(l) else None)
  {
    if tail != [] && stored > 0 {
      GluedNeverParses(tail, l, stored);
    } else {
      assert tail + Encoded(l)[..stored] == if tail == [] then Encoded(l)[..stored] else tail;
      assert Encoded(l)[..4] == Encoded(l);
    }
  }

  /** A fragment of a line is written, with or without the writer surviving. */
  lemma {:induction false} FragmentIsSound(s: State, record: string, stored: nat)
    requires Sound(s) && s.writer.Some? && stored < 5
    ensures Sound(s.(content := s.content + Fragment(Line(s.writer.value, record), stored)))
  {
    var l := Line(s.writer.value, record);
    var b := Split(s.content);
    var text := Encoded(l)[..stored];
    assert Fragment(l, stored) == text;
    SplitText(s.content, text);
    DoneIsIncreasing(b);
    FragmentInTail(b.tail, l, stored);
    TailJoins(b.(tail := b.tail + text));
  }

  lemma {:induction false} StepIsSound(s: State, e: Event)
    requires Sound(s)
    ensures Sound(Step(s, e))
  {
    match e {
      case Reopen => ReopenIsSound(s);
      case Appended(record) =>
        if s.writer.Some? {
          AppendIsSound(s, record);
        }
      case AppendFailed(record, stored) =>
        if s.writer.Some? && stored < 5 {
          FragmentIsSound(s, record, stored);
        }
      case Crashed(record, stored) =>
        if s.writer.Some? {
          if stored < 5 {
            FragmentIsSound(s, record, stored);
          } else {
            AppendIsSound(s, record);
          }
        }
    }
  }

  /**
   Over every history of opens, appends, failed appends and crashes, also with records glued
   onto a torn tail: the numbers of the lines that parse strictly increase down the file, and
   the number recovered from the file is above them all.
   */
  lemma {:induction false} SequenceNumbersIncrease(events: seq<Event>)
    ensures var lines := Lines(After(events).content);
            && Increasing(SeqNos(lines))
            && AllBelow(SeqNos(lines), NextAfter(lines))
    ensures Sound(After(events))
  {
    if events != [] {
      SequenceNumbersIncrease(events[..|events| - 1]);
      StepIsSound(After(events[..|events| - 1]), events[|events| - 1]);
    }
    NextIsAboveAll(Lines(After(events).content));
  }

  predicate Orderly(e: Event) {
    e.Reopen? || e.Appended?
  }

  predicate Appends(e: Event) {
    e.Appended?
  }

  /** Opened first, and from then on only opened again and appended to. */
  predicate CleanHistory(events: seq<Event>) {
    events != [] && events[0].Reopen? && forall i :: 0 <= i < |events| ==> Orderly(events[i])
  }

  /** Every line parses, and they are numbered from one. */
  ghost predicate Numbered(lines: seq<seq<Glyph>>) {
    forall i :: 0 <= i < |lines| ==> Parse(lines[i]).Some? && Parse(lines[i]).value.seqNo == i + 1
  }

  lemma {:induction false} AppendStaysNumbered(b: Book, l: Line)
    requires Numbered(b.done) && b.tail == [] && l.seqNo == |b.done| + 1
    ensures Numbered(b.done + [b.tail + Encoded(l)])
  {
    WholeRecord(b.tail, l);
  }

  /** While nothing fails, the lines of the file are numbered 1, 2, 3, ..., one for each append. */
  lemma {:induction false} CleanHistoriesCount(events: seq<Event>)
    requires CleanHistory(events)
    ensures var s := After(events);
            var n := CountIf(events, Appends);
            && Numbered(Lines(s.content)) && |Lines(s.content)| == n
            && Split(s.content).tail == [] && s.writer == Some(n + 1)
  {
    var k := |events| - 1;
    if k == 0 {
      assert events[..0] == [] && Lines([]) == [];
    } else {
      CleanHistoriesCount(events[..k]);
      CleanStep(After(events[..k]), events[k]);
    }
  }

  lemma {:induction false} CleanStep(s: State, e: Event)
    requires Numbered(Lines(s.content)) && Split(s.content).tail == [] && Orderly(e)
    requires s.writer == Some(|Lines(s.content)| + 1)
    ensures var t := Step(s, e);
            var n := |Lines(s.content)| + if Appends(e) then 1 else 0;
            && Numbered(Lines(t.content)) && |Lines(t.content)| == n
            && Split(t.content).tail == [] && t.writer == Some(n + 1)
  {
    var b := Split(s.content);
    assert LinesOf(b) == b.done;
    if e.Appended? {
      var l := Line(s.writer.value, e.record);
      SplitWritten(s.content, l);
      AppendStaysNumbered(b, l);
      assert LinesOf(Split(s.content + Written(l))) == b.done + [b.tail + Encoded(l)];
    }
  }

  // ---------------------------------------------------------------------
  // The reader
  // ---------------------------------------------------------------------

  datatype ReadResult = Records(records: seq<Line>, tailCorrupt: bool) | CorruptLine(number: nat)

  /** The parseable lines with a number above `since`, in file order. */
  function Later(lines: seq<seq<Glyph>>, since: nat): seq<Line> {
    if lines == [] then []
    else
      var last := Parse(lines[|lines| - 1]);
      Later(lines[..|lines| - 1], since)
      + if last.Some? && last.value.seqNo > since then [last.value] else []
  }

  /** A line other than the last does not parse. */
  ghost predicate Corrupted(lines: seq<seq<Glyph>>) {
    exists i :: 0 <= i < |lines| - 1 && Parse(lines[i]).None?
  }

  /** Fails iff a line other than the last does not parse, and then names the first such line. */
  method ReadSince(content: seq<Glyph>, since: nat) returns (r: ReadResult)
    ensures r.CorruptLine? <==> Corrupted(Lines(content))
    ensures r.CorruptLine? ==>
              && 0 < r.number < |Lines(content)| && Parse(Lines(content)[r.number - 1]).None?
              && forall i :: 0 <= i < r.number - 1 ==> Parse(Lines(content)[i]).Some?
    ensures r.Records? ==>
              var lines := Lines(content);
              && r.records == Later(lines, since)
              && (r.tailCorrupt <==> lines != [] && Parse(lines[|lines| - 1]).None?)
  {
    var lines := Lines(content);
    var records := [];
    var tailCorrupt := false;
    for i := 0 to |lines|
      invariant records == Later(lines[..i], since)
      invariant forall j :: 0 <= j < i && j < |lines| - 1 ==> Parse(lines[j]).Some?
      invariant tailCorrupt <==> i == |lines| && lines != [] && Parse(lines[|lines| - 1]).None?
    {
      assert lines[..i + 1][..i] == lines[..i];
      var parsed := Parse(lines[i]);
      if parsed.Some? {
        if parsed.value.seqNo > since {
          records := records + [parsed.value];
        }
      } else if i + 1 == |lines| {
        tailCorrupt := true;
      } else {
        return CorruptLine(i + 1);
      }
    }
    assert lines[..|lines|] == lines;
    return Records(records, tailCorrupt);
  }

  /** A reader gets nothing it has seen, and every later record that is there. */
  lemma {:induction false} LaterIff(lines: seq<seq<Glyph>>, since: nat, l: Line)
    ensures l in Later(lines, since)
            <==> l.seqNo > since && exists i :: 0 <= i < |lines| && Parse(lines[i]) == Some(l)
  {
    if lines != [] {
      var n := |lines| - 1;
      LaterIff(lines[..n], since, l);
      if i :| 0 <= i < |lines| && Parse(lines[i]) == Some(l) {
        assert i < n ==> lines[..n][i] == lines[i];
      }
    }
  }

  /**
   Polling. Where the numbers increase, as they do in every history, a reader that goes on from a
   number it has reached gets exactly what it has not had yet.
   */
  lemma {:induction false} PollingMissesNothing(lines: seq<seq<Glyph>>, since: nat, reached: nat)
    returns (seen: seq<Line>)
    requires Increasing(SeqNos(lines)) && since <= reached
    ensures Later(lines, since) == seen + Later(lines, reached)
    ensures forall i :: 0 <= i < |seen| ==> since < seen[i].seqNo <= reached
    ensures forall i :: 0 <= i < |Later(lines, reached)| ==> reached < Later(lines, reached)[i].seqNo
  {
    if lines == [] {
      return [];
    }
    var n := |lines| - 1;
    IncreasingBefore(lines);
    seen := PollingMissesNothing(lines[..n], since, reached);
    LaterSnoc(lines, since);
    LaterSnoc(lines, reached);
    var last := Parse(lines[n]);
    if last.Some? && last.value.seqNo <= reached {
      NothingLater(lines, reached);
      if since < last.value.seqNo {
        seen := seen + [last.value];
      }
    }
  }

  lemma {:induction false} IncreasingBefore(lines: seq<seq<Glyph>>)
    requires lines != [] && Increasing(SeqNos(lines))
    ensures Increasing(SeqNos(lines[..|lines| - 1]))
  {
    var before := SeqNos(lines[..|lines| - 1]);
    assert forall i :: 0 <= i < |before| ==> SeqNos(lines)[i] == before[i];
  }

  lemma {:induction false} LaterSnoc(lines: seq<seq<Glyph>>, since: nat)
    requires lines != []
    ensures var n := |lines| - 1;
            var last := Parse(lines[n]);
            var before := Later(lines[..n], since);
            Later(lines, since)
            == if last.Some? && last.value.seqNo > since then before + [last.value] else before
  {
    assert Later(lines[..|lines| - 1], since) + [] == Later(lines[..|lines| - 1], since);
  }

  /** Behind a last record that has been reached there is nothing later. */
  lemma {:induction false} NothingLater(lines: seq<seq<Glyph>>, reached: nat)
    requires Increasing(SeqNos(lines)) && lines != [] && Parse(lines[|lines| - 1]).Some?
    requires Parse(lines[|lines| - 1]).value.seqNo <= reached
    ensures Later(lines, reached) == []
  {
    var numbers := SeqNos(lines);
    assert numbers[|numbers| - 1] == Parse(lines[|lines| - 1]).value.seqNo;
    AllSeen(lines, reached);
  }

  lemma {:induction false} AllSeen(lines: seq<seq<Glyph>>, reached: nat)
    requires forall i :: 0 <= i < |SeqNos(lines)| ==> SeqNos(lines)[i] <= reached
    ensures Later(lines, reached) == []
  {
    if lines != [] {
      var n := |lines| - 1;
      var before := SeqNos(lines[..n]);
      assert forall i :: 0 <= i < |before| ==> SeqNos(lines)[i] == before[i];
      AllSeen(lines[..n], reached);
      if Parse(lines[n]).Some? {
        assert SeqNos(lines)[|before|] == Parse(lines[n]).value.seqNo;
      }
    }
  }

  /** The file only grows, and terminated lines stay where they are. */
  lemma {:induction false} TerminatedLinesStay(content: seq<Glyph>, more: seq<Glyph>)
    ensures Split(content).done <= Split(content + more).done
    ensures |Lines(content)| <= |Lines(content + more)|
  {
    if more == [] {
      assert content + more == content;
    } else {
      var n := |more| - 1;
      TerminatedLinesStay(content, more[..n]);
      assert (content + more)[..|content + more| - 1] == content + more[..n];
    }
  }

  /** Once a reader fails on the file, every later reader does, whatever is appended. */
  lemma {:induction false} CorruptionIsPermanent(content: seq<Glyph>, more: seq<Glyph>)
    requires Corrupted(Lines(content))
    ensures Corrupted(Lines(content + more))
  {
    TerminatedLinesStay(content, more);
    var i :| 0 <= i < |Lines(content)| - 1 && Parse(Lines(content)[i]).None?;
    var b, c := Split(content), Split(content + more);
    assert i < |b.done| && b.done[i] == c.done[i];
    assert Lines(content + more)[i] == c.done[i];
  }

  /**
   A torn tail is tolerated only until work goes on: after two more records the reader fails,
   and by `CorruptionIsPermanent` for good. The documentation allows only the last line of the
   file to be corrupt; the writer does not keep to that, since it does not end a torn line.
   */
  lemma {:induction false} TornTailBreaksTheReader(content: seq<Glyph>, l: Line, m: Line)
    ensures Corrupted(Lines((content + Written(l)) + Written(m)))
            <==> Split(content).tail != []
                 || exists i :: 0 <= i < |Split(content).done| && Parse(Split(content).done[i]).None?
  {
    var b := Split(content);
    SplitWritten(content, l);
    SplitWritten(content + Written(l), m);
    var lines := Lines((content + Written(l)) + Written(m));
    var first := b.tail + Encoded(l);
    assert lines == b.done + [first] + [[] + Encoded(m)];
    WholeRecord(b.tail, l);
    CorruptedSnoc(b.done + [first], [] + Encoded(m));
    assert forall i :: 0 <= i < |b.done| ==> (b.done + [first])[i] == b.done[i];
    assert (b.done + [first])[|b.done|] == first;
  }

  /** One more event of a history. */
  lemma {:induction false} AfterSnoc(events: seq<Event>, e: Event)
    ensures After(events + [e]) == Step(After(events), e)
  {
    assert (events + [e])[..|events|] == events;
  }

  /** After a crash inside the first line, and a restart. */
  lemma {:induction false} AfterTheCrash(a: string, stored: nat)
    requires 0 < stored < 5
    ensures var s := After([Reopen] + [Crashed(a, stored)] + [Reopen]);
            s.writer.Some? && s.content == Encoded(Line(1, a))[..stored]
  {
    AfterSnoc([], Reopen);
    assert [] + [Reopen] == [Reopen];
    assert Lines([]) == [] && NextAfter([]) == 1;
    AfterSnoc([Reopen], Crashed(a, stored));
    var text := Fragment(Line(1, a), stored);
    assert [] + text == text == Encoded(Line(1, a))[..stored];
    AfterSnoc([Reopen] + [Crashed(a, stored)], Reopen);
  }

  lemma {:induction false} TwoAppends(events: seq<Event>, b: string, c: string)
    requires After(events).writer.Some?
    ensures var s := After(events);
            var n := s.writer.value;
            After(events + [Appended(b)] + [Appended(c)]).content
            == (s.content + Written(Line(n, b))) + Written(Line(n + 1, c))
  {
    AfterSnoc(events, Appended(b));
    AfterSnoc(events + [Appended(b)], Appended(c));
  }

  lemma {:induction false} TornTail(l: Line, stored: nat)
    requires 0 < stored < 5
    ensures Split(Encoded(l)[..stored]).tail != []
  {
    var torn := Encoded(l)[..stored];
    SplitText([], torn);
    assert [] + torn == torn;
  }

  /**
   A history that does it: the program crashes inside its first line, is started again, and
   appends two records. No reader can read the file any more.
   */
  lemma {:induction false} CrashThenTwoAppends(a: string, stored: nat, b: string, c: string)
    requires 0 < stored < 5
    ensures var events := [Reopen] + [Crashed(a, stored)] + [Reopen];
            Corrupted(Lines(After(events + [Appended(b)] + [Appended(c)]).content))
  {
    var events := [Reopen] + [Crashed(a, stored)] + [Reopen];
    AfterTheCrash(a, stored);
    TwoAppends(events, b, c);
    TornTail(Line(1, a), stored);
    var n := After(events).writer.value;
    TornTailBreaksTheReader(After(events).content, Line(n, b), Line(n + 1, c));
  }

  lemma {:induction false} CorruptedSnoc(lines: seq<seq<Glyph>>, last: seq<Glyph>)
    ensures Corrupted(lines + [last]) <==> exists i :: 0 <= i < |lines| && Parse(lines[i]).None?
  {
    var all := lines + [last];
    if Corrupted(all) {
      var i :| 0 <= i < |all| - 1 && Parse(all[i]).None?;
      assert lines[i] == all[i];
    }
    if exists i :: 0 <= i < |lines| && Parse(lines[i]).None? {
      var i :| 0 <= i < |lines| && Parse(lines[i]).None?;
      assert all[i] == lines[i];
    }
  }
}

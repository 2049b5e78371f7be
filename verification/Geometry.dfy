/**
 The channel map (src/geometry.rs): a dense table indexed by (cobo, asad, aget, raw channel),
 built once from the lines of a geometry file. `Naive` is the reference: search the lines in
 file order, first one wins. Lines are taken after token parsing.
 */
module Geometry {
  import opened Bytes

  const AGETS_PER_ASAD: nat := 4
  const RAW_PER_AGET: nat := 68
  const SIGNALS_PER_AGET: nat := 64
  const FPN_RAW_CHANNELS: seq<nat> := [11, 22, 45, 56]

  /** Signal channel to raw channel, row by row as the source writes the table. */
  const REORDER: seq<nat> :=
    [0, 1, 2, 3, 4, 5, 6, 7, 8, 9, 10, 12, 13, 14, 15, 16, 17, 18, 19, 20, 21, 23, 24, 25, 26, 27] +
    [28, 29, 30, 31, 32, 33, 34, 35, 36, 37, 38, 39, 40, 41, 42, 43, 44, 46, 47, 48, 49, 50, 51, 52] +
    [53, 54, 55, 57, 58, 59, 60, 61, 62, 63, 64, 65, 66, 67]

  datatype Plane = U | V | W

  datatype Role =
    | Strip(plane: Plane, section: nat, strip: nat)
    | Fpn(index: nat)
    | Aux(name: string)
    | Unmapped

  /** What a line can say of its channel. */
  type NamedRole = r: Role | r.Strip? || r.Aux? witness Aux("")

  datatype Key = Key(cobo: u32, asad: u32, aget: u32, raw: u32)

  // ---------------------------------------------------------------------
  // The reorder table
  // ---------------------------------------------------------------------

  /** How many fixed-pattern channels lie at or below the raw channel of signal `s`. */
  function Skipped(s: nat): nat {
    if s < 11 then 0 else if s < 21 then 1 else if s < 43 then 2 else if s < 53 then 3 else 4
  }

  lemma ReorderClosedForm(s: nat)
    requires s < SIGNALS_PER_AGET
    ensures |REORDER| == SIGNALS_PER_AGET && REORDER[s] == s + Skipped(s)
  {
  }

  /** The loop the table was computed from, kept in the tests of the source. */
  method Normal2Raw(channel: nat) returns (raw: nat)
    requires channel < SIGNALS_PER_AGET
    ensures raw == REORDER[channel]
  {
    raw := channel;
    for i := 0 to |FPN_RAW_CHANNELS|
      invariant raw == channel + (if i > 0 && channel >= 11 then 1 else 0)
                       + (if i > 1 && channel >= 21 then 1 else 0)
                       + (if i > 2 && channel >= 43 then 1 else 0)
                       + (if i > 3 && channel >= 53 then 1 else 0)
    {
      var fpn := FPN_RAW_CHANNELS[i];
      if fpn < raw {
        raw := raw + 1;
      }
      if fpn == raw {
        raw := raw + 1;
      }
    }
    ReorderClosedForm(channel);
  }

  /** The signal channel of a raw channel that is no fixed-pattern channel. */
  function Signal(raw: nat): int {
    raw - (if raw < 11 then 0 else if raw < 22 then 1 else if raw < 45 then 2
           else if raw < 56 then 3 else 4)
  }

  /** The table is increasing and misses exactly the fixed-pattern channels. */
  lemma {:induction false} ReorderSkipsExactlyFpn()
    ensures forall s, t :: 0 <= s < t < SIGNALS_PER_AGET ==> REORDER[s] < REORDER[t]
    ensures forall r: nat :: r < RAW_PER_AGET ==> (r in REORDER <==> r !in FPN_RAW_CHANNELS)
  {
    forall s, t | 0 <= s < t < SIGNALS_PER_AGET ensures REORDER[s] < REORDER[t] {
      ReorderClosedForm(s);
      ReorderClosedForm(t);
    }
    forall r: nat | r < RAW_PER_AGET ensures r in REORDER <==> r !in FPN_RAW_CHANNELS {
      SignalOrFpn(r);
    }
  }

  lemma {:induction false} SignalOrFpn(r: nat)
    requires r < RAW_PER_AGET
    ensures r in REORDER <==> r !in FPN_RAW_CHANNELS
  {
    if r in REORDER {
      var s :| 0 <= s < |REORDER| && REORDER[s] == r;
      ReorderClosedForm(s);
    }
    if r !in FPN_RAW_CHANNELS {
      assert r != FPN_RAW_CHANNELS[0] && r != FPN_RAW_CHANNELS[1];
      assert r != FPN_RAW_CHANNELS[2] && r != FPN_RAW_CHANNELS[3];
      ReorderClosedForm(Signal(r));
    }
  }

  // ---------------------------------------------------------------------
  // Dense indices
  // ---------------------------------------------------------------------

  /** AsAds of the first `c` CoBos. */
  function Before(counts: seq<nat>, c: nat): nat
    requires c <= |counts|
  {
    if c == 0 then 0 else Before(counts, c - 1) + counts[c - 1]
  }

  function TableSize(counts: seq<nat>): nat {
    Before(counts, |counts|) * AGETS_PER_ASAD * RAW_PER_AGET
  }

  predicate InRange(counts: seq<nat>, k: Key) {
    && k.cobo < |counts| && k.asad < counts[k.cobo]
    && k.aget < AGETS_PER_ASAD && k.raw < RAW_PER_AGET
  }

  function ComputeIndex(offsets: seq<nat>, counts: seq<nat>, k: Key): Option<nat>
    requires |offsets| == |counts|
  {
    if k.cobo >= |offsets| || k.asad >= counts[k.cobo] then None
    else if k.aget >= AGETS_PER_ASAD || k.raw >= RAW_PER_AGET then None
    else Some(((offsets[k.cobo] + k.asad) * AGETS_PER_ASAD + k.aget) * RAW_PER_AGET + k.raw)
  }

  predicate OffsetsOf(offsets: seq<nat>, counts: seq<nat>) {
    |offsets| == |counts| && forall c :: 0 <= c < |counts| ==> offsets[c] == Before(counts, c)
  }

  /** The position of a key in the table. */
  function Index(counts: seq<nat>, k: Key): nat
    requires InRange(counts, k)
  {
    ((Before(counts, k.cobo) + k.asad) * AGETS_PER_ASAD + k.aget) * RAW_PER_AGET + k.raw
  }

  predicate LexLess(k: Key, l: Key) {
    || k.cobo < l.cobo
    || (k.cobo == l.cobo && k.asad < l.asad)
    || (k.cobo == l.cobo && k.asad == l.asad && k.aget < l.aget)
    || (k.cobo == l.cobo && k.asad == l.asad && k.aget == l.aget && k.raw < l.raw)
  }

  lemma {:induction false} BeforeMonotone(counts: seq<nat>, c: nat, d: nat)
    requires c <= d <= |counts|
    ensures Before(counts, c) <= Before(counts, d)
    decreases d
  {
    if c < d {
      BeforeMonotone(counts, c, d - 1);
    }
  }

  lemma {:induction false} IndexInTable(counts: seq<nat>, k: Key)
    requires InRange(counts, k)
    ensures Index(counts, k) < TableSize(counts)
  {
    BeforeMonotone(counts, k.cobo + 1, |counts|);
    assert Before(counts, k.cobo + 1) == Before(counts, k.cobo) + counts[k.cobo];
  }

  /** Table order is lexicographic order. */
  lemma {:induction false} IndexOrder(counts: seq<nat>, k: Key, l: Key)
    requires InRange(counts, k) && InRange(counts, l)
    ensures LexLess(k, l) <==> Index(counts, k) < Index(counts, l)
  {
    IndexRises(counts, k, l);
    IndexRises(counts, l, k);
    assert !LexLess(k, l) && !LexLess(l, k) ==> k == l;
  }

  lemma {:induction false} IndexRises(counts: seq<nat>, k: Key, l: Key)
    requires InRange(counts, k) && InRange(counts, l)
    ensures LexLess(k, l) ==> Index(counts, k) < Index(counts, l)
  {
    if k.cobo < l.cobo {
      BeforeMonotone(counts, k.cobo + 1, l.cobo);
      assert Before(counts, k.cobo + 1) == Before(counts, k.cobo) + counts[k.cobo];
    }
  }

  lemma {:induction false} FindCobo(counts: seq<nat>, n: nat, g: nat) returns (c: nat)
    requires n <= |counts| && g < Before(counts, n)
    ensures c < n && Before(counts, c) <= g < Before(counts, c) + counts[c]
  {
    if Before(counts, n - 1) <= g {
      c := n - 1;
    } else {
      c := FindCobo(counts, n - 1, g);
    }
  }

  /** Every slot of the table belongs to a key (and by `IndexOrder` to only one). */
  lemma {:induction false} IndexIsOnto(counts: seq<nat>, i: nat) returns (k: Key)
    requires i < TableSize(counts)
    requires |counts| <= U32_LIMIT && forall c :: 0 <= c < |counts| ==> counts[c] <= U32_LIMIT
    ensures InRange(counts, k) && Index(counts, k) == i
  {
    var asad := i / 272;
    assert asad < Before(counts, |counts|);
    var c := FindCobo(counts, |counts|, asad);
    k := Key(c, asad - Before(counts, c), i / 68 % 4, i % 68);
  }

  // ---------------------------------------------------------------------
  // Lines and the naive map
  // ---------------------------------------------------------------------

  /** One line of the file: its token count fits no format, or it names a channel. */
  datatype Line = Ignored | Broken | Channel(cobo: u32, asad: u32, aget: u32, signal: u32, role: NamedRole)

  datatype Entry = Entry(key: Key, role: Role, line: nat)

  /** A line that names an existing chip and signal channel. */
  predicate Usable(l: Line) {
    l.Channel? && l.aget < AGETS_PER_ASAD && l.signal < SIGNALS_PER_AGET
  }

  function EntryOf(l: Line, number: nat): Entry
    requires Usable(l)
  {
    ReorderClosedForm(l.signal);
    Entry(Key(l.cobo, l.asad, l.aget, REORDER[l.signal]), l.role, number)
  }

  function Entries(lines: seq<Line>): seq<Entry> {
    if lines == [] then []
    else
      var n := |lines| - 1;
      Entries(lines[..n]) + if Usable(lines[n]) then [EntryOf(lines[n], n + 1)] else []
  }

  function MalformedLines(lines: seq<Line>): seq<nat> {
    if lines == [] then []
    else
      var n := |lines| - 1;
      MalformedLines(lines[..n]) + if !lines[n].Ignored? && !Usable(lines[n]) then [n + 1] else []
  }

  /** One AGET chip. */
  datatype Chip = Chip(cobo: u32, asad: u32, aget: u32)

  function ChipOf(k: Key): Chip {
    Chip(k.cobo, k.asad, k.aget)
  }

  function Chips(es: seq<Entry>): set<Chip> {
    set e | e in es :: ChipOf(e.key)
  }

  function FpnIndex(raw: nat): nat {
    if raw == 11 then 1 else if raw == 22 then 2 else if raw == 45 then 3
    else if raw == 56 then 4 else 0
  }

  function FirstRole(es: seq<Entry>, k: Key): Role {
    if es == [] then Unmapped else if es[0].key == k then es[0].role else FirstRole(es[1..], k)
  }

  /** A fixed-pattern channel of a chip that occurs, else the first line that names the key. */
  function Naive(es: seq<Entry>, chips: set<Chip>, k: Key): Role {
    if FpnIndex(k.raw) != 0 && ChipOf(k) in chips then Fpn(FpnIndex(k.raw)) else FirstRole(es, k)
  }

  /** What parsing guarantees about every entry. */
  predicate EntryOk(e: Entry) {
    && e.key.aget < AGETS_PER_ASAD && e.key.raw < RAW_PER_AGET && FpnIndex(e.key.raw) == 0
    && (e.role.Strip? || e.role.Aux?)
  }

  lemma {:induction false} ParsedEntriesOk(lines: seq<Line>)
    ensures forall i :: 0 <= i < |Entries(lines)| ==> EntryOk(Entries(lines)[i])
  {
    if lines != [] {
      var n := |lines| - 1;
      ParsedEntriesOk(lines[..n]);
      if Usable(lines[n]) {
        ReorderClosedForm(lines[n].signal);
      }
    }
  }

  /** The line loop of `parse`, after tokenising. */
  method ParseLines(lines: seq<Line>) returns (es: seq<Entry>, chips: set<Chip>, malformed: seq<nat>)
    ensures es == Entries(lines) && malformed == MalformedLines(lines) && chips == Chips(es)
  {
    es, chips, malformed := [], {}, [];
    for i := 0 to |lines|
      invariant es == Entries(lines[..i]) && malformed == MalformedLines(lines[..i])
      invariant chips == Chips(es)
    {
      var l := lines[i];
      assert lines[..i + 1][..i] == lines[..i];
      if l.Broken? || (l.Channel? && l.aget >= AGETS_PER_ASAD) {
        malformed := malformed + [i + 1];
      } else if l.Channel? {
        if l.signal >= |REORDER| {
          malformed := malformed + [i + 1];
        } else {
          var e := EntryOf(l, i + 1);
          chips := chips + {ChipOf(e.key)};
          assert forall x :: x in es + [e] <==> x in es || x == e;
          es := es + [e];
        }
      }
    }
    assert lines[..|lines|] == lines;
  }

  // ---------------------------------------------------------------------
  // Building the table
  // ---------------------------------------------------------------------

  /** An AsAd number whose successor still fits 32 bits; the largest one wraps to zero. */
  predicate Fits(asad: u32) {
    asad + 1 < U32_LIMIT
  }

  function Fitting(es: seq<Entry>): seq<Entry> {
    if es == [] then []
    else
      var n := |es| - 1;
      Fitting(es[..n]) + if Fits(es[n].key.asad) then [es[n]] else []
  }

  function Unfitting(es: seq<Entry>): seq<nat> {
    if es == [] then []
    else
      var n := |es| - 1;
      Unfitting(es[..n]) + if Fits(es[n].key.asad) then [] else [es[n].line]
  }

  /** The later lines of a key, in file order. */
  function Duplicates(es: seq<Entry>): seq<Entry> {
    if es == [] then []
    else
      var n := |es| - 1;
      Duplicates(es[..n]) + if FirstRole(es[..n], es[n].key) != Unmapped then [es[n]] else []
  }

  /** Large enough for every chip, and no larger than needed. */
  ghost predicate CountsOk(counts: seq<nat>, chips: set<Chip>) {
    && (forall c :: c in chips ==> c.cobo < |counts| && (Fits(c.asad) ==> c.asad < counts[c.cobo]))
    && (|counts| > 0 ==> exists c :: c in chips && c.cobo == |counts| - 1)
    && (forall i :: 0 <= i < |counts| ==>
                      && counts[i] < U32_LIMIT
                      && (counts[i] > 0 ==> exists c :: c in chips && c.cobo == i && c.asad == counts[i] - 1))
  }

  method CountCobos(chips: set<Chip>) returns (n: nat)
    ensures forall c :: c in chips ==> c.cobo < n
    ensures n > 0 ==> exists c :: c in chips && c.cobo == n - 1
  {
    n := 0;
    var rest := chips;
    while rest != {}
      invariant rest <= chips
      invariant forall c :: c in chips && c !in rest ==> c.cobo < n
      invariant n > 0 ==> exists c :: c in chips && c.cobo == n - 1
      decreases rest
    {
      var c :| c in rest;
      if c.cobo >= n {
        n := c.cobo + 1;
        assert c in chips && c.cobo == n - 1;
      }
      rest := rest - {c};
    }
  }

  method CountAsads(chips: set<Chip>) returns (counts: seq<nat>)
    ensures CountsOk(counts, chips)
  {
    var n := CountCobos(chips);
    counts := seq(n, i => 0);
    var rest := chips;
    while rest != {}
      invariant rest <= chips && |counts| == n
      invariant forall c :: c in chips && c !in rest && Fits(c.asad) ==> c.asad < counts[c.cobo]
      invariant forall i :: 0 <= i < n ==>
                              && counts[i] < U32_LIMIT
                              && (counts[i] > 0 ==>
                                    exists c :: c in chips && c.cobo == i && c.asad == counts[i] - 1)
      decreases rest
    {
      var c :| c in rest;
      var next := (c.asad + 1) % U32_LIMIT;
      if next > counts[c.cobo] {
        counts := counts[c.cobo := next];
        assert c in chips && c.asad == counts[c.cobo] - 1;
      }
      rest := rest - {c};
    }
  }

  /** Offsets as the build computes them, in 32 bits. */
  predicate WrappedOffsets(offsets: seq<nat>, counts: seq<nat>) {
    && |offsets| == |counts|
    && forall c :: 0 <= c < |counts| ==> offsets[c] == Before(counts, c) % U32_LIMIT
  }

  lemma WrapAdd(a: nat, b: nat)
    ensures (a % U32_LIMIT + b) % U32_LIMIT == (a + b) % U32_LIMIT
  {
  }

  /** The running total is a 32-bit number, and wraps. */
  method RunningOffsets(counts: seq<nat>) returns (offsets: seq<nat>, total: nat)
    ensures WrappedOffsets(offsets, counts)
    ensures total == Before(counts, |counts|) % U32_LIMIT
  {
    offsets := [];
    total := 0;
    for c := 0 to |counts|
      invariant |offsets| == c && total == Before(counts, c) % U32_LIMIT
      invariant forall d :: 0 <= d < c ==> offsets[d] == Before(counts, d) % U32_LIMIT
    {
      offsets := offsets + [total];
      WrapAdd(Before(counts, c), counts[c]);
      total := (total + counts[c]) % U32_LIMIT;
    }
  }

  /** More AsAds than 32 bits can count. */
  predicate Overflows(counts: seq<nat>) {
    Before(counts, |counts|) >= U32_LIMIT
  }

  lemma {:induction false} NothingWraps(counts: seq<nat>, offsets: seq<nat>)
    requires WrappedOffsets(offsets, counts) && !Overflows(counts)
    ensures OffsetsOf(offsets, counts)
    ensures Before(counts, |counts|) % U32_LIMIT == Before(counts, |counts|)
  {
    forall c | 0 <= c < |counts| ensures offsets[c] == Before(counts, c) {
      BeforeMonotone(counts, c, |counts|);
    }
  }

  /** A chip that has a number, but one at or behind the end of the table. */
  predicate Outside(counts: seq<nat>, offsets: seq<nat>, total: nat, chip: Chip)
    requires |offsets| == |counts|
  {
    && chip.cobo < |counts| && chip.asad < counts[chip.cobo] && chip.aget < AGETS_PER_ASAD
    && offsets[chip.cobo] + chip.asad >= total
  }

  lemma {:induction false} FirstOverflow(counts: seq<nat>, n: nat) returns (c: nat)
    requires n <= |counts| && Before(counts, n) >= U32_LIMIT
    ensures c < n && Before(counts, c) < U32_LIMIT <= Before(counts, c) + counts[c]
  {
    if Before(counts, n - 1) < U32_LIMIT {
      c := n - 1;
    } else {
      c := FirstOverflow(counts, n - 1);
    }
  }

  /** When the total wraps, some chip lies outside the table that is allocated. */
  lemma {:induction false} OverflowLeavesAChipOutside(
      counts: seq<nat>, offsets: seq<nat>, total: nat, chips: set<Chip>)
    returns (chip: Chip)
    requires CountsOk(counts, chips) && WrappedOffsets(offsets, counts) && Overflows(counts)
    requires total < U32_LIMIT && forall c :: c in chips ==> c.aget < AGETS_PER_ASAD
    ensures chip in chips && Outside(counts, offsets, total, chip)
  {
    var c := FirstOverflow(counts, |counts|);
    assert counts[c] > 0;
    chip :| chip in chips && chip.cobo == c && chip.asad == counts[c] - 1;
  }

  lemma {:induction false} NoChipOutside(counts: seq<nat>, offsets: seq<nat>, chip: Chip)
    requires OffsetsOf(offsets, counts)
    ensures !Outside(counts, offsets, Before(counts, |counts|), chip)
  {
    if chip.cobo < |counts| && chip.asad < counts[chip.cobo] {
      BeforeMonotone(counts, chip.cobo + 1, |counts|);
      assert Before(counts, chip.cobo + 1) == Before(counts, chip.cobo) + counts[chip.cobo];
    }
  }

  /** The table shows the naive map. */
  ghost predicate Shows(counts: seq<nat>, channels: seq<Role>, es: seq<Entry>, chips: set<Chip>) {
    && |channels| == TableSize(counts)
    && forall k: Key :: InRange(counts, k) ==>
                          Index(counts, k) < |channels| && channels[Index(counts, k)] == Naive(es, chips, k)
  }

  /** Changing one slot changes one key. */
  lemma {:induction false} OneSlot(counts: seq<nat>, k: Key, l: Key)
    requires InRange(counts, k) && InRange(counts, l)
    ensures Index(counts, k) == Index(counts, l) <==> k == l
  {
    IndexOrder(counts, k, l);
    IndexOrder(counts, l, k);
  }

  lemma {:induction false} ChipShows(
      counts: seq<nat>, channels: seq<Role>, out: seq<Role>, chips: set<Chip>, chip: Chip)
    requires Shows(counts, channels, [], chips) && ChipPlaced(counts, channels, out, chip, 4)
    ensures Shows(counts, out, [], chips + {chip})
  {
    forall k: Key | InRange(counts, k)
      ensures out[Index(counts, k)] == Naive([], chips + {chip}, k)
    {
      assert channels[Index(counts, k)] == Naive([], chips, k);
    }
  }

  /** A slot number is inside the table iff its AsAd is. */
  lemma SlotInside(g: nat, aget: nat, raw: nat, total: nat)
    requires aget < AGETS_PER_ASAD && raw < RAW_PER_AGET
    ensures (g * AGETS_PER_ASAD + aget) * RAW_PER_AGET + raw < total * AGETS_PER_ASAD * RAW_PER_AGET
            <==> g < total
  {
  }

  /** What placing a chip means for the table, when nothing wrapped. */
  ghost predicate ChipPlaced(counts: seq<nat>, channels: seq<Role>, out: seq<Role>, chip: Chip, n: nat)
  {
    && |out| == |channels|
    && forall k: Key :: InRange(counts, k) ==>
                          && Index(counts, k) < |out|
                          && out[Index(counts, k)]
                          == if ChipOf(k) == chip && 0 < FpnIndex(k.raw) <= n then Fpn(FpnIndex(k.raw))
                             else channels[Index(counts, k)]
  }

  lemma {:induction false} SlotPlaced(
      counts: seq<nat>, channels: seq<Role>, out: seq<Role>, chip: Chip, i: nat, key: Key)
    requires ChipPlaced(counts, channels, out, chip, i) && i < 4
    requires ChipOf(key) == chip && key.raw == FPN_RAW_CHANNELS[i]
    ensures InRange(counts, key) ==>
              && Index(counts, key) < |out|
              && ChipPlaced(counts, channels, out[Index(counts, key) := Fpn(i + 1)], chip, i + 1)
    ensures !InRange(counts, key) ==> ChipPlaced(counts, channels, out, chip, i + 1)
  {
    if InRange(counts, key) {
      forall k: Key | InRange(counts, k) ensures Index(counts, k) == Index(counts, key) <==> k == key {
        OneSlot(counts, k, key);
      }
    }
  }

  /** The four fixed-pattern channels of one chip; a slot outside the table ends the program. */
  method PlaceChip(counts: seq<nat>, offsets: seq<nat>, total: nat, channels: seq<Role>, chip: Chip)
    returns (r: Option<seq<Role>>)
    requires |offsets| == |counts| && |channels| == total * AGETS_PER_ASAD * RAW_PER_AGET
    ensures r.None? <==> Outside(counts, offsets, total, chip)
    ensures r.Some? ==> |r.value| == |channels|
    ensures r.Some? && OffsetsOf(offsets, counts) && total == Before(counts, |counts|) ==>
              ChipPlaced(counts, channels, r.value, chip, 4)
  {
    ghost var exact := OffsetsOf(offsets, counts) && total == Before(counts, |counts|);
    var out := channels;
    if exact {
      NothingPlaced(counts, channels, chip);
    }
    for i := 0 to 4
      invariant |out| == |channels|
      invariant i > 0 ==> !Outside(counts, offsets, total, chip)
      invariant exact ==> ChipPlaced(counts, channels, out, chip, i)
    {
      var key := Key(chip.cobo, chip.asad, chip.aget, FPN_RAW_CHANNELS[i]);
      if exact {
        SlotPlaced(counts, channels, out, chip, i, key);
      }
      var idx := ComputeIndex(offsets, counts, key);
      if idx.Some? {
        SlotInside(offsets[chip.cobo] + chip.asad, chip.aget, key.raw, total);
        if idx.value >= |out| {
          return None;
        }
        out := out[idx.value := Fpn(i + 1)];
      }
    }
    return Some(out);
  }

  lemma {:induction false} NothingPlaced(counts: seq<nat>, channels: seq<Role>, chip: Chip)
    requires |channels| == TableSize(counts)
    ensures ChipPlaced(counts, channels, channels, chip, 0)
  {
    forall k: Key | InRange(counts, k) ensures Index(counts, k) < |channels| {
      IndexInTable(counts, k);
    }
  }

  lemma {:induction false} BlankShows(counts: seq<nat>, blank: seq<Role>)
    requires |blank| == TableSize(counts) && forall i :: 0 <= i < |blank| ==> blank[i] == Unmapped
    ensures Shows(counts, blank, [], {})
  {
    forall k: Key | InRange(counts, k) ensures Index(counts, k) < |blank| {
      IndexInTable(counts, k);
    }
  }

  /** Fails iff there are more AsAds than 32 bits can count; else the table shows all chips. */
  method PlaceChips(counts: seq<nat>, offsets: seq<nat>, total: nat, chips: set<Chip>)
    returns (r: Option<seq<Role>>)
    requires CountsOk(counts, chips) && WrappedOffsets(offsets, counts)
    requires total == Before(counts, |counts|) % U32_LIMIT
    requires forall c :: c in chips ==> c.aget < AGETS_PER_ASAD
    ensures r.None? <==> Overflows(counts)
    ensures r.Some? ==> Shows(counts, r.value, [], chips)
  {
    var channels := seq(total * AGETS_PER_ASAD * RAW_PER_AGET, i => Unmapped);
    ghost var culprit: Chip;
    if Overflows(counts) {
      culprit := OverflowLeavesAChipOutside(counts, offsets, total, chips);
    } else {
      NothingWraps(counts, offsets);
      BlankShows(counts, channels);
    }
    var rest := chips;
    assert chips - rest == {};
    while rest != {}
      invariant rest <= chips && |channels| == total * AGETS_PER_ASAD * RAW_PER_AGET
      invariant Overflows(counts) ==> culprit in rest
      invariant !Overflows(counts) ==> Shows(counts, channels, [], chips - rest)
      decreases rest
    {
      var chip :| chip in rest;
      var out := PlaceChip(counts, offsets, total, channels, chip);
      if out.None? {
        if !Overflows(counts) {
          NoChipOutside(counts, offsets, chip);
        }
        return None;
      }
      if !Overflows(counts) {
        ChipShows(counts, channels, out.value, chips - rest, chip);
        assert (chips - rest) + {chip} == chips - (rest - {chip});
      }
      channels := out.value;
      rest := rest - {chip};
    }
    assert chips - rest == chips;
    return Some(channels);
  }

  lemma {:induction false} FirstRoleSnoc(es: seq<Entry>, e: Entry, k: Key)
    requires forall i :: 0 <= i < |es| ==> es[i].role != Unmapped
    ensures FirstRole(es + [e], k)
            == if FirstRole(es, k) != Unmapped then FirstRole(es, k)
               else if e.key == k then e.role else Unmapped
  {
    if es != [] {
      assert (es + [e])[1..] == es[1..] + [e];
      FirstRoleSnoc(es[1..], e, k);
    } else {
      assert (es + [e])[1..] == [];
    }
  }

  /** One entry: an empty slot takes it, a taken slot makes it a duplicate. */
  lemma {:induction false} EntryShows(
      counts: seq<nat>, channels: seq<Role>, es: seq<Entry>, chips: set<Chip>, e: Entry)
    requires Shows(counts, channels, es, chips) && InRange(counts, e.key) && EntryOk(e)
    requires forall i :: 0 <= i < |es| ==> EntryOk(es[i])
    ensures Index(counts, e.key) < |channels|
    ensures var i := Index(counts, e.key);
            && channels[i] == FirstRole(es, e.key)
            && Shows(counts, if channels[i] == Unmapped then channels[i := e.role] else channels,
                     es + [e], chips)
  {
    var i := Index(counts, e.key);
    assert channels[i] == Naive(es, chips, e.key);
    var out := if channels[i] == Unmapped then channels[i := e.role] else channels;
    forall k: Key | InRange(counts, k)
      ensures Index(counts, k) < |out| && out[Index(counts, k)] == Naive(es + [e], chips, k)
    {
      OneSlot(counts, k, e.key);
      FirstRoleSnoc(es, e, k);
      assert channels[Index(counts, k)] == Naive(es, chips, k);
    }
  }

  datatype Table = Table(counts: seq<nat>, offsets: seq<nat>, channels: seq<Role>)

  ghost predicate TableOk(t: Table, es: seq<Entry>, chips: set<Chip>) {
    OffsetsOf(t.offsets, t.counts) && CountsOk(t.counts, chips)
    && Shows(t.counts, t.channels, Fitting(es), chips)
  }

  /** What has been done with the entries so far. */
  datatype Placed = Placed(channels: seq<Role>, duplicates: seq<Entry>, malformed: seq<nat>)

  ghost predicate PlacedOk(counts: seq<nat>, p: Placed, es: seq<Entry>, chips: set<Chip>) {
    && Shows(counts, p.channels, Fitting(es), chips)
    && p.duplicates == Duplicates(Fitting(es)) && p.malformed == Unfitting(es)
  }

  /** One STRIP or AUX line: an empty slot takes it, a taken one makes it a duplicate. */
  method PlaceOne(counts: seq<nat>, offsets: seq<nat>, p: Placed, e: Entry, ghost es: seq<Entry>,
                  ghost chips: set<Chip>)
    returns (q: Placed)
    requires OffsetsOf(offsets, counts) && PlacedOk(counts, p, es, chips)
    requires EntryOk(e) && (InRange(counts, e.key) <==> Fits(e.key.asad))
    requires forall i :: 0 <= i < |es| ==> EntryOk(es[i])
    ensures PlacedOk(counts, q, es + [e], chips)
  {
    ghost var before := Fitting(es);
    FittingSnoc(es, e);
    q := p;
    var idx := ComputeIndex(offsets, counts, e.key);
    if idx.Some? {
      FittingOk(es);
      EntryShows(counts, p.channels, before, chips, e);
      DuplicatesSnoc(before, e);
      if p.channels[idx.value] == Unmapped {
        q := p.(channels := p.channels[idx.value := e.role]);
      } else {
        q := p.(duplicates := p.duplicates + [e]);
      }
    } else {
      q := p.(malformed := p.malformed + [e.line]);
    }
  }

  lemma {:induction false} FittingSnoc(es: seq<Entry>, e: Entry)
    ensures Fits(e.key.asad) ==>
              Fitting(es + [e]) == Fitting(es) + [e] && Unfitting(es + [e]) == Unfitting(es)
    ensures !Fits(e.key.asad) ==>
              Fitting(es + [e]) == Fitting(es) && Unfitting(es + [e]) == Unfitting(es) + [e.line]
  {
    assert (es + [e])[..|es|] == es;
    assert Fitting(es) + [] == Fitting(es) && Unfitting(es) + [] == Unfitting(es);
  }

  /** STRIP and AUX lines in file order, first one wins. */
  method PlaceEntries(counts: seq<nat>, offsets: seq<nat>, blank: seq<Role>, es: seq<Entry>,
                      ghost chips: set<Chip>)
    returns (p: Placed)
    requires OffsetsOf(offsets, counts) && CountsOk(counts, chips)
    requires chips == Chips(es) && Shows(counts, blank, [], chips)
    requires forall i :: 0 <= i < |es| ==> EntryOk(es[i])
    ensures PlacedOk(counts, p, es, chips)
  {
    p := Placed(blank, [], []);
    for i := 0 to |es|
      invariant PlacedOk(counts, p, es[..i], chips)
    {
      EntryHasASlot(counts, chips, es, i);
      p := PlaceOne(counts, offsets, p, es[i], es[..i], chips);
      assert es[..i + 1] == es[..i] + [es[i]];
    }
    assert es[..|es|] == es;
  }

  lemma {:induction false} DuplicatesSnoc(es: seq<Entry>, e: Entry)
    ensures Duplicates(es + [e])
            == Duplicates(es) + if FirstRole(es, e.key) != Unmapped then [e] else []
  {
    assert (es + [e])[..|es|] == es;
  }

  /** Exactly the entries whose AsAd number wraps have no slot. */
  lemma {:induction false} EntryHasASlot(counts: seq<nat>, chips: set<Chip>, es: seq<Entry>, i: nat)
    requires CountsOk(counts, chips) && chips == Chips(es) && i < |es| && EntryOk(es[i])
    ensures InRange(counts, es[i].key) <==> Fits(es[i].key.asad)
  {
    assert es[i] in es;
    assert ChipOf(es[i].key) in chips;
  }

  lemma {:induction false} FittingOk(es: seq<Entry>)
    requires forall i :: 0 <= i < |es| ==> EntryOk(es[i])
    ensures forall i :: 0 <= i < |Fitting(es)| ==> EntryOk(Fitting(es)[i])
  {
    if es != [] {
      FittingOk(es[..|es| - 1]);
    }
  }

  datatype Built = Built(table: Table, duplicates: seq<Entry>, malformed: seq<nat>)

  /** The chips need more AsAds than 32 bits can count. */
  ghost predicate TooManyAsads(chips: set<Chip>) {
    exists counts :: CountsOk(counts, chips) && Overflows(counts)
  }

  lemma {:induction false} CountsAreUnique(a: seq<nat>, b: seq<nat>, chips: set<Chip>)
    requires CountsOk(a, chips) && CountsOk(b, chips)
    ensures a == b
  {
    assert |a| <= |b| && |b| <= |a|;
    forall i | 0 <= i < |a| ensures a[i] == b[i] {
      NoMoreThanNeeded(a, b, chips, i);
      NoMoreThanNeeded(b, a, chips, i);
    }
  }

  lemma {:induction false} NoMoreThanNeeded(a: seq<nat>, b: seq<nat>, chips: set<Chip>, i: nat)
    requires CountsOk(a, chips) && CountsOk(b, chips) && i < |a| && i < |b|
    ensures a[i] <= b[i]
  {
    if a[i] > 0 {
      var c :| c in chips && c.cobo == i && c.asad == a[i] - 1;
      assert Fits(c.asad);
    }
  }

  lemma {:induction false} OverflowIsTooMany(counts: seq<nat>, chips: set<Chip>)
    requires CountsOk(counts, chips)
    ensures TooManyAsads(chips) <==> Overflows(counts)
  {
    if TooManyAsads(chips) {
      var other :| CountsOk(other, chips) && Overflows(other);
      CountsAreUnique(counts, other, chips);
    }
  }

  /** `None` is the panic of an index outside the table. */
  method Build(es: seq<Entry>, chips: set<Chip>) returns (r: Option<Built>)
    requires chips == Chips(es) && forall i :: 0 <= i < |es| ==> EntryOk(es[i])
    ensures r.None? <==> TooManyAsads(chips)
    ensures r.Some? ==>
              && TableOk(r.value.table, es, chips)
              && r.value.duplicates == Duplicates(Fitting(es)) && r.value.malformed == Unfitting(es)
  {
    var counts := CountAsads(chips);
    OverflowIsTooMany(counts, chips);
    var offsets, total := RunningOffsets(counts);
    var blank := PlaceChips(counts, offsets, total, chips);
    if blank.None? {
      return None;
    }
    NothingWraps(counts, offsets);
    var p := PlaceEntries(counts, offsets, blank.value, es, chips);
    return Some(Built(Table(counts, offsets, p.channels), p.duplicates, p.malformed));
  }

  lemma {:induction false} TwoEntries(a: Line, b: Line)
    requires Usable(a) && Usable(b)
    ensures Entries([a, b]) == [EntryOf(a, 1), EntryOf(b, 2)] && MalformedLines([a, b]) == []
  {
    assert [a, b][..1] == [a] && [a][..0] == [];
    assert Entries([a]) == [EntryOf(a, 1)] && MalformedLines([a]) == [];
  }

  lemma {:induction false} TwoFit(e: Entry, f: Entry)
    requires Fits(e.key.asad) && Fits(f.key.asad)
    ensures Unfitting([e, f]) == []
  {
    assert [e, f][..1] == [e] && [e][..0] == [];
    assert Unfitting([e]) == [];
  }

  lemma {:induction false} TwoChips(c: Chip, d: Chip, chips: set<Chip>)
    requires chips == {c, d} && c.cobo == 0 && d.cobo == 1 && c.asad == d.asad == 0x7FFF_FFFF
    ensures TooManyAsads(chips)
  {
    var counts := [0x8000_0000, 0x8000_0000];
    assert c in chips && d in chips;
    assert CountsOk(counts, chips);
    assert Before(counts, 1) == 0x8000_0000;
  }

  /** Two lines are enough: two CoBos with 2^31 AsAds each, and every line well formed. */
  lemma {:induction false} TwoLinesAreTooMany(a: Line, b: Line)
    requires Usable(a) && Usable(b) && a.cobo == 0 && b.cobo == 1 && a.asad == b.asad == 0x7FFF_FFFF
    ensures TooManyAsads(Chips(Entries([a, b])))
    ensures MalformedLines([a, b]) == [] && Unfitting(Entries([a, b])) == []
  {
    TwoEntries(a, b);
    var e, f := EntryOf(a, 1), EntryOf(b, 2);
    TwoFit(e, f);
    assert Chips([e, f]) == {ChipOf(e.key), ChipOf(f.key)};
    TwoChips(ChipOf(e.key), ChipOf(f.key), Chips([e, f]));
  }

  // ---------------------------------------------------------------------
  // Looking up
  // ---------------------------------------------------------------------

  function Find(t: Table, k: Key): Role
    requires OffsetsOf(t.offsets, t.counts) && |t.channels| == TableSize(t.counts)
  {
    match ComputeIndex(t.offsets, t.counts, k)
    case None => Unmapped
    case Some(i) =>
      assert i == Index(t.counts, k) && i < |t.channels| by { IndexInTable(t.counts, k); }
      t.channels[i]
  }

  lemma {:induction false} FindInTable(t: Table, k: Key)
    requires OffsetsOf(t.offsets, t.counts) && |t.channels| == TableSize(t.counts)
    ensures InRange(t.counts, k) ==>
              Index(t.counts, k) < |t.channels| && Find(t, k) == t.channels[Index(t.counts, k)]
    ensures !InRange(t.counts, k) ==> Find(t, k) == Unmapped
  {
    if InRange(t.counts, k) {
      IndexInTable(t.counts, k);
    }
  }

  lemma {:induction false} FirstRoleNeedsAnEntry(es: seq<Entry>, k: Key)
    requires forall i :: 0 <= i < |es| ==> es[i].key != k
    ensures FirstRole(es, k) == Unmapped
  {
    if es != [] {
      FirstRoleNeedsAnEntry(es[1..], k);
    }
  }

  lemma {:induction false} FittingIsAPart(es: seq<Entry>, i: nat)
    requires i < |Fitting(es)|
    ensures Fitting(es)[i] in es && Fits(Fitting(es)[i].key.asad)
  {
    var n := |es| - 1;
    if i < |Fitting(es[..n])| {
      FittingIsAPart(es[..n], i);
    }
  }

  lemma {:induction false} ChipsAreInRange(counts: seq<nat>, es: seq<Entry>, chips: set<Chip>, k: Key)
    requires CountsOk(counts, chips) && chips == Chips(es)
    requires forall i :: 0 <= i < |es| ==> EntryOk(es[i])
    requires ChipOf(k) in chips && k.raw < RAW_PER_AGET && Fits(k.asad)
    ensures InRange(counts, k)
  {
    var e :| e in es && ChipOf(e.key) == ChipOf(k);
    var j :| 0 <= j < |es| && es[j] == e;
    assert EntryOk(es[j]);
    assert ChipOf(k).cobo == k.cobo && ChipOf(k).asad == k.asad;
  }

  lemma {:induction false} FittingKeyHasASlot(
      counts: seq<nat>, es: seq<Entry>, chips: set<Chip>, i: nat)
    requires CountsOk(counts, chips) && chips == Chips(es) && i < |Fitting(es)|
    requires forall i :: 0 <= i < |es| ==> EntryOk(es[i])
    ensures InRange(counts, Fitting(es)[i].key)
  {
    FittingIsAPart(es, i);
    var j :| 0 <= j < |es| && es[j] == Fitting(es)[i];
    EntryHasASlot(counts, chips, es, j);
  }

  lemma {:induction false} FpnOutsideIsUnnamed(
      counts: seq<nat>, es: seq<Entry>, chips: set<Chip>, k: Key)
    requires CountsOk(counts, chips) && chips == Chips(es)
    requires forall i :: 0 <= i < |es| ==> EntryOk(es[i])
    requires !InRange(counts, k) && Fits(k.asad)
    ensures FpnIndex(k.raw) != 0 ==> ChipOf(k) !in chips
  {
    if ChipOf(k) in chips && FpnIndex(k.raw) != 0 {
      ChipsAreInRange(counts, es, chips, k);
    }
  }

  lemma {:induction false} KeysOutsideAreUnnamed(
      counts: seq<nat>, es: seq<Entry>, chips: set<Chip>, k: Key)
    requires CountsOk(counts, chips) && chips == Chips(es)
    requires forall i :: 0 <= i < |es| ==> EntryOk(es[i])
    requires !InRange(counts, k) && Fits(k.asad)
    ensures Naive(Fitting(es), chips, k) == Unmapped
  {
    forall i | 0 <= i < |Fitting(es)| ensures Fitting(es)[i].key != k {
      FittingKeyHasASlot(counts, es, chips, i);
    }
    FirstRoleNeedsAnEntry(Fitting(es), k);
    FpnOutsideIsUnnamed(counts, es, chips, k);
  }

  /**
   The dense table refines the naive list: whatever the key, in or out of range, a lookup
   returns the fixed-pattern role of a chip that occurs, else the role of the first line that
   names the key, else `Unmapped`.
   */
  lemma {:induction false} LookupIsFirstLine(t: Table, es: seq<Entry>, chips: set<Chip>, k: Key)
    requires TableOk(t, es, chips) && chips == Chips(es)
    requires forall i :: 0 <= i < |es| ==> EntryOk(es[i])
    requires Fits(k.asad)
    ensures Find(t, k) == Naive(Fitting(es), chips, k)
  {
    FindInTable(t, k);
    if !InRange(t.counts, k) {
      KeysOutsideAreUnnamed(t.counts, es, chips, k);
    } else {
      assert t.channels[Index(t.counts, k)] == Naive(Fitting(es), chips, k);
    }
  }

  /**
   The one AsAd number the table cannot hold is 2^32 - 1, whose count wraps to zero: its lines
   are reported as malformed by the build, its channels stay unmapped, and no other line is.
   */
  lemma {:induction false} OnlyTheLargestAsadIsLost(t: Table, es: seq<Entry>, chips: set<Chip>, k: Key)
    requires TableOk(t, es, chips)
    ensures Unfitting(es) == [] <==> forall i :: 0 <= i < |es| ==> Fits(es[i].key.asad)
    ensures Unfitting(es) == [] ==> Fitting(es) == es
    ensures !Fits(k.asad) ==> Find(t, k) == Unmapped
  {
    UnfittingIff(es);
    LargestAsadHasNoSlot(t.counts, chips, k);
    FindInTable(t, k);
  }

  lemma LargestAsadHasNoSlot(counts: seq<nat>, chips: set<Chip>, k: Key)
    requires CountsOk(counts, chips)
    ensures !Fits(k.asad) ==> !InRange(counts, k)
  {
  }

  lemma {:induction false} UnfittingIff(es: seq<Entry>)
    ensures Unfitting(es) == [] <==> forall i :: 0 <= i < |es| ==> Fits(es[i].key.asad)
    ensures Unfitting(es) == [] ==> Fitting(es) == es
  {
    if forall i :: 0 <= i < |es| ==> Fits(es[i].key.asad) {
      AllFitting(es);
    } else {
      var i :| 0 <= i < |es| && !Fits(es[i].key.asad);
      UnfittingShows(es, i);
    }
  }

  lemma {:induction false} AllFitting(es: seq<Entry>)
    requires forall i :: 0 <= i < |es| ==> Fits(es[i].key.asad)
    ensures Unfitting(es) == [] && Fitting(es) == es
  {
    if es != [] {
      AllFitting(es[..|es| - 1]);
    }
  }

  lemma {:induction false} UnfittingShows(es: seq<Entry>, i: nat)
    requires i < |es| && !Fits(es[i].key.asad)
    ensures Unfitting(es) != []
  {
    if i < |es| - 1 {
      UnfittingShows(es[..|es| - 1], i);
    }
  }

  // ---------------------------------------------------------------------
  // What a lookup means for the lines
  // ---------------------------------------------------------------------

  /** A line that names a signal of a chip. */
  predicate NamesSignal(l: Line) {
    l.Channel? && l.aget < 4 && l.signal < 64
  }

  /** The same, and with an AsAd number that 32 bits can count. */
  predicate Counted(l: Line) {
    NamesSignal(l) && l.asad < 0xFFFF_FFFF
  }

  /** How many of the fixed-pattern channels 11, 22, 45 and 56 lie below a raw channel. */
  function FpnBelow(raw: nat): nat {
    (if raw > 11 then 1 else 0) + (if raw > 22 then 1 else 0) + (if raw > 45 then 1 else 0)
    + if raw > 56 then 1 else 0
  }

  /** The line names this raw channel: its signal counts the channels that are not fixed-pattern. */
  predicate NamesChannel(l: Line, k: Key) {
    && Counted(l) && l.cobo == k.cobo && l.asad == k.asad && l.aget == k.aget
    && k.raw !in {11, 22, 45, 56} && k.raw == l.signal + FpnBelow(k.raw)
  }

  /** What the first line says that names the channel. */
  function FirstNamed(lines: seq<Line>, k: Key): Role {
    if lines == [] then Unmapped
    else
      var n := |lines| - 1;
      var before := FirstNamed(lines[..n], k);
      if before != Unmapped then before
      else if NamesChannel(lines[n], k) then lines[n].role else Unmapped
  }

  /** Some line names a signal of the chip of this channel. */
  predicate ChipOccurs(lines: seq<Line>, k: Key) {
    exists i :: 0 <= i < |lines| && Counted(lines[i]) && lines[i].cobo == k.cobo
                && lines[i].asad == k.asad && lines[i].aget == k.aget
  }

  /** The role of a channel, searched for in the lines. */
  function RoleInLines(lines: seq<Line>, k: Key): Role {
    if k.raw == 11 then if ChipOccurs(lines, k) then Fpn(1) else Unmapped
    else if k.raw == 22 then if ChipOccurs(lines, k) then Fpn(2) else Unmapped
    else if k.raw == 45 then if ChipOccurs(lines, k) then Fpn(3) else Unmapped
    else if k.raw == 56 then if ChipOccurs(lines, k) then Fpn(4) else Unmapped
    else FirstNamed(lines, k)
  }

  /** The numbers of the lines that are broken, or name no chip or no signal. */
  function BadLines(lines: seq<Line>): seq<nat> {
    if lines == [] then []
    else
      var n := |lines| - 1;
      BadLines(lines[..n])
      + if lines[n].Broken? || (lines[n].Channel? && !NamesSignal(lines[n])) then [n + 1] else []
  }

  /** The numbers of the lines whose AsAd number is too large to be counted. */
  function LostLines(lines: seq<Line>): seq<nat> {
    if lines == [] then []
    else
      var n := |lines| - 1;
      LostLines(lines[..n]) + if NamesSignal(lines[n]) && !Counted(lines[n]) then [n + 1] else []
  }

  predicate SameSignal(l: Line, m: Line) {
    Counted(l) && Counted(m) && l.(role := m.role) == m
  }

  /** One of the lines has named the signal of this one. */
  predicate NamedAmong(lines: seq<Line>, l: Line) {
    exists i :: 0 <= i < |lines| && SameSignal(lines[i], l)
  }

  /** The numbers of the lines that name a signal an earlier line has named. */
  function RepeatedLines(lines: seq<Line>): seq<nat> {
    if lines == [] then []
    else
      var n := |lines| - 1;
      RepeatedLines(lines[..n])
      + if NamedAmong(lines[..n], lines[n]) then [n + 1] else []
  }

  /** All chips that the lines name. */
  function LineChips(lines: seq<Line>): set<Chip> {
    set i | 0 <= i < |lines| && NamesSignal(lines[i]) ::
      Chip(lines[i].cobo, lines[i].asad, lines[i].aget)
  }

  lemma {:induction false} EntryNames(l: Line, number: nat, k: Key)
    requires Usable(l) && Fits(l.asad)
    ensures EntryOf(l, number).key == k <==> NamesChannel(l, k)
  {
    ReorderClosedForm(l.signal);
  }

  lemma {:induction false} EntriesSnoc(lines: seq<Line>)
    requires lines != []
    ensures var n := |lines| - 1;
            Entries(lines)
            == Entries(lines[..n]) + if Usable(lines[n]) then [EntryOf(lines[n], n + 1)] else []
  {
  }

  /** The first entry of a key is the first line that names the channel. */
  lemma {:induction false} FirstRoleIsFirstNamed(lines: seq<Line>, k: Key)
    ensures FirstRole(Fitting(Entries(lines)), k) == FirstNamed(lines, k)
  {
    if lines != [] {
      var n := |lines| - 1;
      var before := Entries(lines[..n]);
      FirstRoleIsFirstNamed(lines[..n], k);
      ParsedEntriesOk(lines[..n]);
      FittingOk(before);
      assert before + [] == before;
      if Usable(lines[n]) {
        var e := EntryOf(lines[n], n + 1);
        FittingSnoc(before, e);
        if Fits(lines[n].asad) {
          FirstRoleSnoc(Fitting(before), e, k);
          EntryNames(lines[n], n + 1, k);
        }
      }
    }
  }

  lemma {:induction false} EntryOfLine(lines: seq<Line>, i: nat) returns (j: nat)
    requires i < |lines| && Usable(lines[i])
    ensures j < |Entries(lines)| && Entries(lines)[j] == EntryOf(lines[i], i + 1)
  {
    var n := |lines| - 1;
    if i < n {
      j := EntryOfLine(lines[..n], i);
    } else {
      j := |Entries(lines[..n])|;
    }
  }

  lemma {:induction false} LineOfEntry(lines: seq<Line>, j: nat) returns (i: nat)
    requires j < |Entries(lines)|
    ensures i < |lines| && Usable(lines[i]) && Entries(lines)[j] == EntryOf(lines[i], i + 1)
  {
    var n := |lines| - 1;
    if j < |Entries(lines[..n])| {
      i := LineOfEntry(lines[..n], j);
    } else {
      i := n;
    }
  }

  lemma {:induction false} ChipsAreLineChips(lines: seq<Line>)
    ensures Chips(Entries(lines)) == LineChips(lines)
  {
    var es := Entries(lines);
    forall c | c in Chips(es) ensures c in LineChips(lines) {
      var e :| e in es && ChipOf(e.key) == c;
      var j :| 0 <= j < |es| && es[j] == e;
      var i := LineOfEntry(lines, j);
      assert NamesSignal(lines[i]);
    }
    forall c | c in LineChips(lines) ensures c in Chips(es) {
      var i :| 0 <= i < |lines| && NamesSignal(lines[i])
               && c == Chip(lines[i].cobo, lines[i].asad, lines[i].aget);
      var j := EntryOfLine(lines, i);
      assert es[j] in es && ChipOf(es[j].key) == c;
    }
  }

  lemma {:induction false} ChipOccursIff(lines: seq<Line>, k: Key)
    requires Fits(k.asad)
    ensures ChipOf(k) in LineChips(lines) <==> ChipOccurs(lines, k)
  {
    if ChipOf(k) in LineChips(lines) {
      var i :| 0 <= i < |lines| && NamesSignal(lines[i])
               && ChipOf(k) == Chip(lines[i].cobo, lines[i].asad, lines[i].aget);
      assert Counted(lines[i]);
    }
  }

  lemma {:induction false} NaiveIsInLines(lines: seq<Line>, k: Key)
    requires Fits(k.asad)
    ensures Naive(Fitting(Entries(lines)), Chips(Entries(lines)), k) == RoleInLines(lines, k)
  {
    FirstRoleIsFirstNamed(lines, k);
    ChipsAreLineChips(lines);
    ChipOccursIff(lines, k);
    if FpnIndex(k.raw) != 0 {
      FpnIsNamedByNone(lines, k);
    }
  }

  /** No line names a fixed-pattern channel, and none with the largest AsAd number counts. */
  lemma {:induction false} FpnIsNamedByNone(lines: seq<Line>, k: Key)
    requires k.raw in {11, 22, 45, 56} || !Fits(k.asad)
    ensures FirstNamed(lines, k) == Unmapped
  {
    if lines != [] {
      FpnIsNamedByNone(lines[..|lines| - 1], k);
    }
  }

  /** Whatever the channel, a lookup in the built table is the search through the lines. */
  lemma {:induction false} LookupIsInLines(t: Table, lines: seq<Line>, k: Key)
    requires TableOk(t, Entries(lines), Chips(Entries(lines)))
    ensures Find(t, k) == RoleInLines(lines, k)
  {
    ParsedEntriesOk(lines);
    if Fits(k.asad) {
      LookupIsFirstLine(t, Entries(lines), Chips(Entries(lines)), k);
      NaiveIsInLines(lines, k);
    } else {
      OnlyTheLargestAsadIsLost(t, Entries(lines), Chips(Entries(lines)), k);
      FpnIsNamedByNone(lines, k);
    }
  }

  lemma {:induction false} BadAndLost(lines: seq<Line>)
    ensures MalformedLines(lines) == BadLines(lines) && Unfitting(Entries(lines)) == LostLines(lines)
  {
    if lines != [] {
      var n := |lines| - 1;
      BadAndLost(lines[..n]);
      var before := Entries(lines[..n]);
      assert before + [] == before;
      if Usable(lines[n]) {
        FittingSnoc(before, EntryOf(lines[n], n + 1));
      }
    }
  }

  function NumbersOf(es: seq<Entry>): seq<nat> {
    seq(|es|, i requires 0 <= i < |es| => es[i].line)
  }

  lemma {:induction false} AmongSnoc(lines: seq<Line>, m: Line, l: Line)
    ensures NamedAmong(lines + [m], l) <==> NamedAmong(lines, l) || SameSignal(m, l)
  {
    var grown := lines + [m];
    assert grown[|lines|] == m;
    if NamedAmong(lines, l) {
      var i :| 0 <= i < |lines| && SameSignal(lines[i], l);
      assert grown[i] == lines[i];
    }
  }

  lemma {:induction false} NamedBefore(lines: seq<Line>, l: Line)
    requires Counted(l)
    ensures FirstNamed(lines, EntryOf(l, 0).key) != Unmapped <==> NamedAmong(lines, l)
  {
    if lines != [] {
      var n := |lines| - 1;
      NamedBefore(lines[..n], l);
      SameSignalSameKey(lines[n], l);
      AmongSnoc(lines[..n], lines[n], l);
      assert lines == lines[..n] + [lines[n]];
    }
  }

  lemma {:induction false} SameSignalSameKey(l: Line, m: Line)
    requires Counted(m)
    ensures NamesChannel(l, EntryOf(m, 0).key) <==> SameSignal(l, m)
  {
    ReorderClosedForm(m.signal);
    if Counted(l) {
      EntryNames(l, 0, EntryOf(m, 0).key);
      ReorderClosedForm(l.signal);
      SignalsApart(l.signal, m.signal);
    }
  }

  lemma {:induction false} SignalsApart(s: nat, t: nat)
    requires s < SIGNALS_PER_AGET && t < SIGNALS_PER_AGET
    ensures REORDER[s] == REORDER[t] ==> s == t
  {
    ReorderClosedForm(s);
    ReorderClosedForm(t);
  }

  lemma {:induction false} RepeatedIff(lines: seq<Line>, l: Line, e: Entry)
    requires Counted(l) && e.key == EntryOf(l, 0).key
    ensures FirstRole(Fitting(Entries(lines)), e.key) != Unmapped
            <==> NamedAmong(lines, l)
  {
    FirstRoleIsFirstNamed(lines, e.key);
    NamedBefore(lines, l);
  }

  lemma {:induction false} NumbersSnoc(es: seq<Entry>, e: Entry)
    ensures NumbersOf(Duplicates(Fitting(es + [e])))
            == NumbersOf(Duplicates(Fitting(es)))
               + if Fits(e.key.asad) && FirstRole(Fitting(es), e.key) != Unmapped then [e.line] else []
  {
    FittingSnoc(es, e);
    DuplicatesSnoc(Fitting(es), e);
  }

  lemma {:induction false} DuplicatesAreRepeated(lines: seq<Line>)
    ensures NumbersOf(Duplicates(Fitting(Entries(lines)))) == RepeatedLines(lines)
  {
    if lines != [] {
      var n := |lines| - 1;
      var before := Entries(lines[..n]);
      DuplicatesAreRepeated(lines[..n]);
      EntriesSnoc(lines);
      if Usable(lines[n]) {
        var e := EntryOf(lines[n], n + 1);
        NumbersSnoc(before, e);
        if Fits(lines[n].asad) {
          RepeatedIff(lines[..n], lines[n], e);
        }
      } else {
        assert before + [] == before;
      }
    }
  }

  /** The table and the reports say of every channel and every line what the lines say. */
  ghost predicate BuiltFrom(b: Built, lines: seq<Line>) {
    && TableOk(b.table, Entries(lines), LineChips(lines))
    && b.malformed == BadLines(lines) + LostLines(lines)
    && NumbersOf(b.duplicates) == RepeatedLines(lines)
    && forall k: Key :: Find(b.table, k) == RoleInLines(lines, k)
  }

  /**
   The whole of `parse`: the line loop, then the build; its malformed lines come behind. Every
   lookup in the result is the search through the lines themselves.
   */
  method Parse(lines: seq<Line>) returns (r: Option<Built>)
    ensures r.None? <==> TooManyAsads(LineChips(lines))
    ensures r.Some? ==> BuiltFrom(r.value, lines)
  {
    var es, chips, broken := ParseLines(lines);
    ParsedEntriesOk(lines);
    ChipsAreLineChips(lines);
    r := Build(es, chips);
    if r.Some? {
      r := Some(r.value.(malformed := broken + r.value.malformed));
      BadAndLost(lines);
      DuplicatesAreRepeated(lines);
      forall k: Key ensures Find(r.value.table, k) == RoleInLines(lines, k) {
        LookupIsInLines(r.value.table, lines, k);
      }
    }
  }

  /** Lookups count how often they end in `Unmapped`; dumping the table does not. */
  class Geometry {
    const table: Table
    var unmappedHits: nat

    constructor (table: Table)
      ensures this.table == table && unmappedHits == 0
    {
      this.table := table;
      unmappedHits := 0;
    }

    method Lookup(k: Key) returns (role: Role)
      requires OffsetsOf(table.offsets, table.counts) && |table.channels| == TableSize(table.counts)
      modifies this
      ensures role == Find(table, k)
      ensures unmappedHits == old(unmappedHits) + if role == Unmapped then 1 else 0
    {
      role := Find(table, k);
      if role == Unmapped {
        unmappedHits := unmappedHits + 1;
      }
    }
  }

  /** The nested loops of the dump visit every slot once, in table order. */
  method DumpKeys(counts: seq<nat>) returns (keys: seq<Key>)
    requires |counts| <= U32_LIMIT && forall c :: 0 <= c < |counts| ==> counts[c] <= U32_LIMIT
    ensures |keys| == TableSize(counts)
    ensures forall i :: 0 <= i < |keys| ==> InRange(counts, keys[i]) && Index(counts, keys[i]) == i
  {
    keys := [];
    for cobo := 0 to |counts|
      invariant |keys| == Before(counts, cobo) * 272
      invariant forall i :: 0 <= i < |keys| ==> InRange(counts, keys[i]) && Index(counts, keys[i]) == i
    {
      for asad := 0 to counts[cobo]
        invariant |keys| == (Before(counts, cobo) + asad) * 272
        invariant forall i :: 0 <= i < |keys| ==> InRange(counts, keys[i]) && Index(counts, keys[i]) == i
      {
        for chip := 0 to 4
          invariant |keys| == ((Before(counts, cobo) + asad) * 4 + chip) * 68
          invariant forall i :: 0 <= i < |keys| ==> InRange(counts, keys[i]) && Index(counts, keys[i]) == i
        {
          for raw := 0 to 68
            invariant |keys| == ((Before(counts, cobo) + asad) * 4 + chip) * 68 + raw
            invariant forall i :: 0 <= i < |keys| ==> InRange(counts, keys[i]) && Index(counts, keys[i]) == i
          {
            keys := keys + [Key(cobo, asad, chip, raw)];
          }
        }
      }
    }
  }
}

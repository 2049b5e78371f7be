/**
 Item decoding (`decode_items`, src/decode.rs) and the independent reader of the same items
 in macros/graw2root.C. Compact items carry neither channel nor bucket; both programs recover
 them with four cursors. `Sample` is the closed form both are compared with.
 */
module Cursors {
  import opened Bytes
  import opened Items

  const RAW_CH_PER_AGET: nat := 68
  const COMPACT_BUCKETS: nat := 512
  const MAX_AGETS: nat := 4
  const ITEMS_PER_AGET: nat := 34816 // 68 * 512

  /** The `size`-byte words of an item area, as `chunks_exact` and `read_uint` deliver them. */
  function Words(b: seq<byte>, size: nat, little: bool): (ws: seq<nat>)
    requires size == 2 || size == 4
    ensures |ws| == |b| / size
    ensures forall i :: 0 <= i < |ws| ==> ws[i] < Pow256(size)
  {
    if |b| < size then []
    else
      UintBound(b[..size], little);
      [Uint(b[..size], little)] + Words(b[size..], size, little)
  }

  type Word16 = w: int | 0 <= w < 0x1_0000

  // ---------------------------------------------------------------------
  // Closed form of the compact layout
  // ---------------------------------------------------------------------

  function Aget(w: Word16): nat {
    w / 0x4000
  }

  function Adc(w: Word16): nat {
    w % 0x1000
  }

  /** How many of the words belong to AGET `a`. */
  function Count(ws: seq<Word16>, a: nat): (c: nat)
    ensures c <= |ws|
  {
    if ws == [] then 0
    else Count(ws[..|ws| - 1], a) + if Aget(ws[|ws| - 1]) == a then 1 else 0
  }

  /** The position of word `i` among the words of its own AGET. */
  function Rank(ws: seq<Word16>, i: nat): nat
    requires i < |ws|
  {
    Count(ws[..i], Aget(ws[i]))
  }

  /** The k-th item of an AGET is channel k mod 68 of bucket k div 68. */
  function Sample(ws: seq<Word16>, i: nat): Item
    requires i < |ws|
  {
    var k := Rank(ws, i);
    Item(Aget(ws[i]), k % RAW_CH_PER_AGET, k / RAW_CH_PER_AGET, Adc(ws[i]))
  }

  /** Some AGET has more items than it has cells. */
  predicate Overfull(ws: seq<Word16>) {
    exists a :: 0 <= a < MAX_AGETS && Count(ws, a) > ITEMS_PER_AGET
  }

  lemma {:induction false} CountPrefix(ws: seq<Word16>, i: nat, a: nat)
    requires i < |ws|
    ensures Count(ws[..i + 1], a) == Count(ws[..i], a) + if Aget(ws[i]) == a then 1 else 0
  {
    assert ws[..i + 1][..i] == ws[..i];
  }

  lemma {:induction false} CountMonotone(ws: seq<Word16>, i: nat, j: nat, a: nat)
    requires i <= j <= |ws|
    ensures Count(ws[..i], a) <= Count(ws[..j], a)
    decreases j
  {
    if i < j {
      CountPrefix(ws, j - 1, a);
      CountMonotone(ws, i, j - 1, a);
    }
  }

  lemma {:induction false} CountWhole(ws: seq<Word16>, i: nat, a: nat)
    requires i <= |ws|
    ensures Count(ws[..i], a) <= Count(ws, a)
  {
    CountMonotone(ws, i, |ws|, a);
    assert ws[..|ws|] == ws;
  }

  lemma {:induction false} SampleFits(ws: seq<Word16>, i: nat)
    requires i < |ws| && !Overfull(ws)
    ensures FieldsFit(Sample(ws, i))
  {
    var a := Aget(ws[i]);
    CountPrefix(ws, i, a);
    CountWhole(ws, i + 1, a);
    assert Count(ws, a) <= ITEMS_PER_AGET;
  }

  // ---------------------------------------------------------------------
  // decode_items
  // ---------------------------------------------------------------------

  /** The cursors of an AGET that has seen `k` items. */
  predicate CursorsAt(chan: nat, bucket: nat, k: nat) {
    && chan <= RAW_CH_PER_AGET
    && RAW_CH_PER_AGET * bucket + chan == k
    && (chan == 0 ==> bucket == 0)
  }

  lemma CursorsAreDivMod(chan: nat, bucket: nat, k: nat)
    requires chan < RAW_CH_PER_AGET && RAW_CH_PER_AGET * bucket + chan == k
    ensures chan == k % RAW_CH_PER_AGET && bucket == k / RAW_CH_PER_AGET
  {
  }

  /** The packed words of a compact frame in closed form. */
  function CompactWords(ws: seq<Word16>): (out: seq<u32>)
    requires !Overfull(ws)
  {
    seq(|ws|, i requires 0 <= i < |ws| => PackedSample(ws, i))
  }

  function PackedSample(ws: seq<Word16>, i: nat): u32
    requires !Overfull(ws) && i < |ws|
  {
    SampleFits(ws, i);
    PackItem(Sample(ws, i)).value
  }

  /** A frameType 1 word keeps everything but its two reserved bits. */
  function Cleared(w: u32): u32 {
    w - ReservedBits(w) * RESERVED_UNIT
  }

  /** Clearing takes bits 5 and 4 of the third byte from the top and nothing else. */
  lemma {:induction false} ClearedBytes(a: byte, b: byte, c: byte, d: byte)
    ensures var w := UintBig([a, b, c, d]);
            w < U32_LIMIT && Cleared(w) == UintBig([a, b, c - c / 16 % 4 * 16, d])
  {
    FourByteUint(a, b, c, d);
    FourByteUint(a, b, c - c / 16 % 4 * 16, d);
    var w := UintBig([a, b, c, d]);
    assert w / 0x1000 == 0x1000 * a + 16 * b + c / 16;
  }

  function ClearedWords(ws: seq<u32>): seq<u32> {
    seq(|ws|, i requires 0 <= i < |ws| => Cleared(ws[i]))
  }

  /** Unpacking the words of a compact frame gives the closed form. */
  lemma {:induction false} CompactWordsUnpack(ws: seq<Word16>, i: nat)
    requires !Overfull(ws) && i < |ws|
    ensures UnpackItem(CompactWords(ws)[i]) == Sample(ws, i)
  {
    SampleFits(ws, i);
    UnpackAfterPack(Sample(ws, i));
  }

  /** The packed closed forms of the first words. */
  ghost predicate PackedSoFar(ws: seq<Word16>, words: seq<u32>) {
    |words| <= |ws| && forall j :: 0 <= j < |words| ==> PackItem(Sample(ws, j)) == Some(words[j])
  }

  lemma {:induction false} AllPacked(ws: seq<Word16>, words: seq<u32>)
    requires PackedSoFar(ws, words) && |words| == |ws| && !Overfull(ws)
    ensures words == CompactWords(ws)
  {
    forall i | 0 <= i < |ws| ensures words[i] == CompactWords(ws)[i] {
      assert PackItem(Sample(ws, i)) == Some(words[i]);
    }
  }

  /**
   The compact branch, on the words of the item area. It fails exactly on an overfull AGET;
   otherwise it returns the closed form. The cursors stay far inside 16 bits.
   */
  method DecodeCompact(ws: seq<Word16>) returns (r: Option<seq<byte>>)
    ensures r.None? <==> Overfull(ws)
    ensures r.Some? ==> r.value == ItemBytes(CompactWords(ws))
  {
    var out: seq<byte> := [];
    ghost var words: seq<u32> := [];
    var chanCur, buckCur := [0, 0, 0, 0], [0, 0, 0, 0];
    for i := 0 to |ws|
      invariant |words| == i && out == ItemBytes(words) && PackedSoFar(ws, words)
      invariant CursorsValid(chanCur, buckCur, CountsOf(ws[..i]))
    {
      CountsPrefix(ws, i);
      var packed;
      packed, chanCur, buckCur := PlaceItem(ws[i], chanCur, buckCur, CountsOf(ws[..i]));
      assert packed == PackItem(Sample(ws, i));
      if packed.None? {
        RejectedIsOverfull(ws, i);
        return None;
      }
      ItemBytesSnoc(words, packed.value);
      out := out + PutLittle(packed.value, 4);
      words := words + [packed.value];
    }
    assert ws[..|ws|] == ws;
    InsideIsNotOverfull(ws, chanCur, buckCur);
    AllPacked(ws, words);
    return Some(out);
  }

  lemma {:induction false} RejectedIsOverfull(ws: seq<Word16>, i: nat)
    requires i < |ws| && Rank(ws, i) >= ITEMS_PER_AGET
    ensures Overfull(ws)
  {
    var a := Aget(ws[i]);
    CountPrefix(ws, i, a);
    CountWhole(ws, i + 1, a);
    assert Count(ws, a) > ITEMS_PER_AGET;
  }

  lemma {:induction false} InsideIsNotOverfull(ws: seq<Word16>, chanCur: seq<int>, buckCur: seq<int>)
    requires CursorsValid(chanCur, buckCur, CountsOf(ws))
    ensures !Overfull(ws)
  {
    forall a | 0 <= a < MAX_AGETS ensures Count(ws, a) <= ITEMS_PER_AGET {
      assert CountsOf(ws)[a] == Count(ws, a);
    }
  }

  ghost function CountsOf(ws: seq<Word16>): seq<nat> {
    [Count(ws, 0), Count(ws, 1), Count(ws, 2), Count(ws, 3)]
  }

  lemma {:induction false} CountsPrefix(ws: seq<Word16>, i: nat)
    requires i < |ws|
    ensures var before := CountsOf(ws[..i]);
            CountsOf(ws[..i + 1]) == before[Aget(ws[i]) := before[Aget(ws[i])] + 1]
  {
    CountPrefix(ws, i, 0);
    CountPrefix(ws, i, 1);
    CountPrefix(ws, i, 2);
    CountPrefix(ws, i, 3);
  }

  /** Cursors of all four AGETs that have seen `seen` items and are still inside the buckets. */
  ghost predicate CursorsValid(chanCur: seq<int>, buckCur: seq<int>, seen: seq<nat>) {
    && |chanCur| == |buckCur| == |seen| == MAX_AGETS
    && forall a :: 0 <= a < MAX_AGETS ==>
                     && 0 <= chanCur[a] && 0 <= buckCur[a] < COMPACT_BUCKETS
                     && CursorsAt(chanCur[a], buckCur[a], seen[a])
  }

  /** One turn of the compact loop: wrap the channel, pack, advance. */
  method PlaceItem(w: Word16, chanIn: seq<int>, buckIn: seq<int>, ghost seen: seq<nat>)
    returns (packed: Option<u32>, chanCur: seq<int>, buckCur: seq<int>)
    requires CursorsValid(chanIn, buckIn, seen)
    ensures var k := seen[Aget(w)];
            && packed == PackItem(Item(Aget(w), k % RAW_CH_PER_AGET, k / RAW_CH_PER_AGET, Adc(w)))
            && (packed.None? ==> k >= ITEMS_PER_AGET)
            && (packed.Some? ==> CursorsValid(chanCur, buckCur, seen[Aget(w) := k + 1]))
  {
    var aget := Aget(w);
    chanCur, buckCur := chanIn, buckIn;
    if chanCur[aget] >= RAW_CH_PER_AGET {
      chanCur := chanCur[aget := 0];
      buckCur := buckCur[aget := buckCur[aget] + 1];
    }
    CursorsAreDivMod(chanCur[aget], buckCur[aget], seen[aget]);
    packed := PackItem(Item(aget, chanCur[aget], buckCur[aget], Adc(w)));
    chanCur := chanCur[aget := chanCur[aget] + 1];
  }

  /** The frameType 1 branch: every field is explicit and only the reserved bits are cleared. */
  method DecodePartial(ws: seq<u32>) returns (out: seq<byte>)
    ensures out == ItemBytes(ClearedWords(ws))
  {
    out := [];
    for i := 0 to |ws|
      invariant out == ItemBytes(ClearedWords(ws[..i]))
    {
      PackAfterUnpack(ws[i]);
      var packed := PackItem(UnpackItem(ws[i]));
      out := out + PutLittle(packed.value, 4);
      ItemBytesSnoc(ClearedWords(ws[..i]), packed.value);
      assert ClearedWords(ws[..i + 1]) == ClearedWords(ws[..i]) + [packed.value];
    }
    assert ws[..|ws|] == ws;
  }

  // ---------------------------------------------------------------------
  // The decoded samples form a partial bijection onto cells
  // ---------------------------------------------------------------------

  predicate SameCell(x: Item, y: Item) {
    x.aget == y.aget && x.chan == y.chan && x.bucket == y.bucket
  }

  /** No two items of a frame land on the same cell, whatever the interleaving. */
  lemma {:induction false} CellsAreDistinct(ws: seq<Word16>, i: nat, j: nat)
    requires i < j < |ws|
    ensures !SameCell(Sample(ws, i), Sample(ws, j))
  {
    var a := Aget(ws[i]);
    if a == Aget(ws[j]) {
      CountPrefix(ws, i, a);
      CountMonotone(ws, i + 1, j, a);
      assert Rank(ws, i) < Rank(ws, j);
    }
  }

  /** Every rank below the count is taken by some item. */
  lemma {:induction false} EveryRankIsTaken(ws: seq<Word16>, a: nat, k: nat) returns (i: nat)
    requires k < Count(ws, a)
    ensures i < |ws| && Aget(ws[i]) == a && Rank(ws, i) == k
  {
    var n := |ws| - 1;
    if Aget(ws[n]) == a && Count(ws[..n], a) == k {
      i := n;
    } else {
      i := EveryRankIsTaken(ws[..n], a, k);
      assert ws[..n][..i] == ws[..i];
    }
  }

  lemma {:induction false} CountsAddUp(ws: seq<Word16>)
    ensures Count(ws, 0) + Count(ws, 1) + Count(ws, 2) + Count(ws, 3) == |ws|
  {
    if ws != [] {
      CountsAddUp(ws[..|ws| - 1]);
    }
  }

  /** The cell (a, c, b) received an item. */
  ghost predicate Covered(ws: seq<Word16>, a: nat, c: nat, b: nat) {
    exists i :: 0 <= i < |ws| && SameCell(Sample(ws, i), Item(a, c, b, 0))
  }

  ghost predicate AgetComplete(ws: seq<Word16>, a: nat) {
    forall c: nat, b: nat :: c < RAW_CH_PER_AGET && b < COMPACT_BUCKETS ==> Covered(ws, a, c, b)
  }

  /** An AGET's cells are all covered exactly when it sent at least 68 * 512 items. */
  lemma {:induction false} CompleteIffCounted(ws: seq<Word16>, a: nat)
    ensures AgetComplete(ws, a) <==> Count(ws, a) >= ITEMS_PER_AGET
  {
    if Count(ws, a) >= ITEMS_PER_AGET {
      forall c: nat, b: nat | c < RAW_CH_PER_AGET && b < COMPACT_BUCKETS
        ensures Covered(ws, a, c, b)
      {
        var i := EveryRankIsTaken(ws, a, b * RAW_CH_PER_AGET + c);
        assert SameCell(Sample(ws, i), Item(a, c, b, 0));
      }
    } else if AgetComplete(ws, a) {
      assert Covered(ws, a, 67, 511);
      var i :| 0 <= i < |ws| && SameCell(Sample(ws, i), Item(a, 67, 511, 0));
      CountPrefix(ws, i, a);
      CountWhole(ws, i + 1, a);
    }
  }

  /**
   Full readout: a decodable frame of 4 * 68 * 512 items covers every cell of all four AGETs,
   by pigeonhole on the per-AGET limit; together with `CellsAreDistinct`, exactly once.
   */
  lemma {:induction false} FullReadoutIsABijection(ws: seq<Word16>)
    requires |ws| == MAX_AGETS * ITEMS_PER_AGET && !Overfull(ws)
    ensures forall a :: 0 <= a < MAX_AGETS ==> AgetComplete(ws, a)
    ensures forall i, j :: 0 <= i < j < |ws| ==> !SameCell(Sample(ws, i), Sample(ws, j))
  {
    CountsAddUp(ws);
    assert Count(ws, 0) <= ITEMS_PER_AGET && Count(ws, 1) <= ITEMS_PER_AGET;
    assert Count(ws, 2) <= ITEMS_PER_AGET && Count(ws, 3) <= ITEMS_PER_AGET;
    forall a | 0 <= a < MAX_AGETS ensures AgetComplete(ws, a) {
      CompleteIffCounted(ws, a);
    }
    forall i, j | 0 <= i < j < |ws| ensures !SameCell(Sample(ws, i), Sample(ws, j)) {
      CellsAreDistinct(ws, i, j);
    }
  }

  /** The decoder's size check, negated: what `compact_size_mismatch` does not count. */
  predicate SizeLooksComplete(itemCount: nat) {
    && itemCount != 0
    && itemCount % ITEMS_PER_AGET == 0
    && itemCount / ITEMS_PER_AGET <= MAX_AGETS
  }

  /**
   The size check sees only the total. What it is meant to rule out, an AGET read out in part,
   is absent exactly when every AGET sent nothing or all of its 68 * 512 items.
   */
  lemma {:induction false} NoPartialAgetIff(ws: seq<Word16>)
    requires !Overfull(ws)
    ensures (forall a :: 0 <= a < MAX_AGETS && Count(ws, a) > 0 ==> AgetComplete(ws, a))
            <==> forall a :: 0 <= a < MAX_AGETS ==>
                               Count(ws, a) == 0 || Count(ws, a) == ITEMS_PER_AGET
  {
    forall a | 0 <= a < MAX_AGETS
      ensures AgetComplete(ws, a) <==> Count(ws, a) == ITEMS_PER_AGET
    {
      CompleteIffCounted(ws, a);
      assert Count(ws, a) <= ITEMS_PER_AGET;
    }
  }

  /** Words that alternate between the first two AGETs. */
  function Alternating(pairs: nat): (ws: seq<Word16>)
    ensures |ws| == 2 * pairs
  {
    if pairs == 0 then [] else Alternating(pairs - 1) + [0] + [0x4000]
  }

  lemma {:induction false} CountSnoc(ws: seq<Word16>, w: Word16, a: nat)
    ensures Count(ws + [w], a) == Count(ws, a) + if Aget(w) == a then 1 else 0
  {
    assert (ws + [w])[..|ws|] == ws;
  }

  /** One word for each of the first two AGETs. */
  lemma {:induction false} PairCount(ws: seq<Word16>, v: Word16, w: Word16, a: nat)
    requires Aget(v) == 0 && Aget(w) == 1
    ensures Count(ws + [v] + [w], a) == Count(ws, a) + if a < 2 then 1 else 0
  {
    CountSnoc(ws, v, a);
    CountSnoc(ws + [v], w, a);
  }

  lemma {:induction false} AlternatingCount(pairs: nat, a: nat)
    ensures Count(Alternating(pairs), a) == if a < 2 then pairs else 0
  {
    if pairs > 0 {
      AlternatingCount(pairs - 1, a);
      PairCount(Alternating(pairs - 1), 0, 0x4000, a);
    }
  }

  lemma {:induction false} HalfFull(pairs: nat)
    requires 2 * pairs == ITEMS_PER_AGET
    ensures var ws := Alternating(pairs);
            SizeLooksComplete(|ws|) && !Overfull(ws) && !AgetComplete(ws, 0) && !AgetComplete(ws, 1)
  {
    var ws := Alternating(pairs);
    forall a: nat ensures Count(ws, a) <= pairs {
      AlternatingCount(pairs, a);
    }
    CompleteIffCounted(ws, 0);
    CompleteIffCounted(ws, 1);
  }

  /** 34816 items alternating between two AGETs pass the check although both are half empty. */
  lemma {:induction false} SizeCheckMissesPartialReadout()
    ensures var ws := Alternating(17408);
            SizeLooksComplete(|ws|) && !Overfull(ws) && !AgetComplete(ws, 0) && !AgetComplete(ws, 1)
  {
    HalfFull(17408);
  }

  function OneAget(n: nat): (ws: seq<Word16>)
    ensures |ws| == n
  {
    if n == 0 then [] else OneAget(n - 1) + [0]
  }

  lemma {:induction false} OneAgetCount(n: nat)
    ensures Count(OneAget(n), 0) == n
  {
    if n > 0 {
      OneAgetCount(n - 1);
      assert OneAget(n)[..n - 1] == OneAget(n - 1);
    }
  }

  /**
   The range error of packing is reachable, although the source calls it unreachable: a frame
   with all its items on one AGET fails exactly when it has more of them than cells.
   */
  lemma {:induction false} RangeErrorIsReachable(n: nat)
    ensures n > ITEMS_PER_AGET ==> Overfull(OneAget(n))
    ensures n <= ITEMS_PER_AGET ==> !Overfull(OneAget(n))
  {
    OneAgetCount(n);
  }

  // ---------------------------------------------------------------------
  // macros/graw2root.C
  // ---------------------------------------------------------------------

  /** The ADC of the k-th item of AGET `a`, or 0 if there is none. */
  function ValueAt(ws: seq<Word16>, a: nat, k: nat): nat {
    if ws == [] then 0
    else
      var n := |ws| - 1;
      if Aget(ws[n]) == a && Count(ws[..n], a) == k then Adc(ws[n]) else ValueAt(ws[..n], a, k)
  }

  /** What belongs into the cell of channel `c` and bucket `b` of AGET `a`. */
  function CellValue(ws: seq<Word16>, a: nat, c: nat, b: nat): nat {
    ValueAt(ws, a, b * RAW_CH_PER_AGET + c)
  }

  /** One word more changes the one cell its rank stands for. */
  lemma {:induction false} CellValueSnoc(
      ws: seq<Word16>, i: nat, a: nat, c: nat, b: nat, chan: nat, cell: nat)
    requires i < |ws| && c < 68 && chan < 68 && cell * 68 + chan == Count(ws[..i], Aget(ws[i]))
    ensures CellValue(ws[..i + 1], a, c, b)
            == if a == Aget(ws[i]) && c == chan && b == cell then Adc(ws[i]) else CellValue(ws[..i], a, c, b)
  {
    assert ws[..i + 1][..i] == ws[..i];
  }

  /** Cursors of all four AGETs, with no bound on the bucket. */
  ghost predicate CursorsFollow(chanCur: seq<int>, cellCur: seq<int>, seen: seq<nat>) {
    && |chanCur| == |cellCur| == |seen| == 4
    && forall a :: 0 <= a < 4 ==>
                     && 0 <= chanCur[a] && 0 <= cellCur[a]
                     && CursorsAt(chanCur[a], cellCur[a], seen[a])
  }

  /** One turn of the macro's cursors: the place of this item, and the cursors behind it. */
  method NextPlace(aget: nat, chanIn: seq<int>, cellIn: seq<int>, ghost seen: seq<nat>)
    returns (chan: nat, cell: nat, chanCur: seq<int>, cellCur: seq<int>)
    requires aget < 4 && CursorsFollow(chanIn, cellIn, seen)
    ensures chan < 68 && cell * 68 + chan == seen[aget]
    ensures CursorsFollow(chanCur, cellCur, seen[aget := seen[aget] + 1])
  {
    chanCur, cellCur := chanIn, cellIn;
    if chanCur[aget] >= 68 {
      chanCur := chanCur[aget := 0];
      cellCur := cellCur[aget := cellCur[aget] + 1];
    }
    chan, cell := chanCur[aget], cellCur[aget];
    chanCur := chanCur[aget := chanCur[aget] + 1];
  }

  /** A cell holds what the first `i` words put there. */
  ghost predicate Filled(adc: array3<nat>, ws: seq<Word16>)
    requires adc.Length0 == 4 && adc.Length1 == 68 && adc.Length2 == 512
    reads adc
  {
    forall a, c, b :: 0 <= a < 4 && 0 <= c < 68 && 0 <= b < 512 ==>
                        adc[a, c, b] == CellValue(ws, a, c, b)
  }

  /** The compact loop of the ROOT macro, with its guard against buckets past the array. */
  method Graw2RootCompact(ws: seq<Word16>) returns (adc: array3<nat>)
    ensures fresh(adc) && adc.Length0 == 4 && adc.Length1 == 68 && adc.Length2 == 512
    ensures Filled(adc, ws)
  {
    adc := new nat[4, 68, 512]((a, c, b) => 0);
    var chanCur, cellCur := [0, 0, 0, 0], [0, 0, 0, 0];
    for i := 0 to |ws|
      invariant CursorsFollow(chanCur, cellCur, CountsOf(ws[..i]))
      invariant Filled(adc, ws[..i])
    {
      var aget := Aget(ws[i]);
      CountsPrefix(ws, i);
      var chan, cell;
      chan, cell, chanCur, cellCur := NextPlace(aget, chanCur, cellCur, CountsOf(ws[..i]));
      forall a: nat, c: nat, b: nat | a < 4 && c < 68 && b < 512
        ensures CellValue(ws[..i + 1], a, c, b)
                == if a == aget && c == chan && b == cell then Adc(ws[i]) else CellValue(ws[..i], a, c, b)
      {
        CellValueSnoc(ws, i, a, c, b, chan, cell);
      }
      if cell < 512 {
        adc[aget, chan, cell] := Adc(ws[i]);
      }
    }
    assert ws[..|ws|] == ws;
  }

  /** The cell contents after writing decoded samples one after the other over zeros. */
  function Scatter(samples: seq<Item>, cell: Item): nat {
    if samples == [] then 0
    else
      var n := |samples| - 1;
      if SameCell(samples[n], cell) then samples[n].adc else Scatter(samples[..n], cell)
  }

  function Samples(ws: seq<Word16>): seq<Item> {
    seq(|ws|, i requires 0 <= i < |ws| => Sample(ws, i))
  }

  lemma {:induction false} SamplesPrefix(ws: seq<Word16>)
    requires ws != []
    ensures Samples(ws)[..|ws| - 1] == Samples(ws[..|ws| - 1])
  {
    var n := |ws| - 1;
    forall i | 0 <= i < n ensures Sample(ws, i) == Sample(ws[..n], i) {
      assert ws[..n][..i] == ws[..i];
    }
  }

  lemma {:induction false} LastSampleCell(ws: seq<Word16>, a: nat, c: nat, b: nat)
    requires ws != [] && c < RAW_CH_PER_AGET
    ensures var n := |ws| - 1;
            SameCell(Sample(ws, n), Item(a, c, b, 0))
            <==> Aget(ws[n]) == a && Count(ws[..n], a) == b * RAW_CH_PER_AGET + c
  {
  }

  /**
   The two readers agree: scattering the decoder's samples gives the array of the ROOT macro,
   cell by cell. (On an overfull frame the decoder fails; the macro keeps the cells in range.)
   */
  lemma {:induction false} DecoderAgreesWithGraw2Root(ws: seq<Word16>, a: nat, c: nat, b: nat)
    requires c < RAW_CH_PER_AGET
    ensures Scatter(Samples(ws), Item(a, c, b, 0)) == CellValue(ws, a, c, b)
  {
    if ws != [] {
      var n := |ws| - 1;
      DecoderAgreesWithGraw2Root(ws[..n], a, c, b);
      SamplesPrefix(ws);
      LastSampleCell(ws, a, c, b);
    }
  }

  function Unpacked(words: seq<u32>): seq<Item> {
    seq(|words|, i requires 0 <= i < |words| => UnpackItem(words[i]))
  }

  lemma {:induction false} UnpackedAreSamples(ws: seq<Word16>)
    requires !Overfull(ws)
    ensures Unpacked(CompactWords(ws)) == Samples(ws)
  {
    forall i | 0 <= i < |ws| ensures Unpacked(CompactWords(ws))[i] == Samples(ws)[i] {
      CompactWordsUnpack(ws, i);
    }
  }

  /** Scattering decoded items over zeros gives this array. */
  ghost predicate ScattersTo(words: seq<u32>, adc: array3<nat>)
    requires adc.Length0 == 4 && adc.Length1 == 68 && adc.Length2 == 512
    reads adc
  {
    forall a, c, b :: 0 <= a < 4 && 0 <= c < 68 && 0 <= b < 512 ==>
                        adc[a, c, b] == Scatter(Unpacked(words), Item(a, c, b, 0))
  }

  /**
   Both readers on the same items: whenever the decoder succeeds, its bytes, taken apart into
   words, unpacked and scattered, give the array of the ROOT macro.
   */
  method BothReaders(ws: seq<Word16>)
    returns (decoded: Option<seq<byte>>, words: seq<u32>, adc: array3<nat>)
    ensures decoded.None? <==> Overfull(ws)
    ensures adc.Length0 == 4 && adc.Length1 == 68 && adc.Length2 == 512
    ensures decoded.Some? ==> ItemBytes(words) == decoded.value && ScattersTo(words, adc)
  {
    decoded := DecodeCompact(ws);
    adc := Graw2RootCompact(ws);
    words := [];
    if decoded.Some? {
      var r := ItemsFromBytes(decoded.value);
      words := r.value;
      ItemBytesInjective(words, CompactWords(ws));
      UnpackedAreSamples(ws);
      forall a: nat, c: nat, b: nat | a < 4 && c < 68 && b < 512
        ensures CellValue(ws, a, c, b) == Scatter(Unpacked(words), Item(a, c, b, 0))
      {
        DecoderAgreesWithGraw2Root(ws, a, c, b);
      }
    }
  }
}

/** Output file names (`file_path`, src/graw_writer.rs) and why no two outputs share one. */
module Paths {

  datatype FileKey = Asad(cobo: nat, asad: nat) | Ctrl(cobo: nat)

  function Digit(d: nat): char
    requires d < 10
  {
    ('0' as int + d) as char
  }

  /** `{n}` */
  function Digits(n: nat): string {
    if n < 10 then [Digit(n)] else Digits(n / 10) + [Digit(n % 10)]
  }

  /** `{n:04}` */
  function Pad4(n: nat): string {
    Zeros(4 - |Digits(n)|) + Digits(n)
  }

  function Zeros(k: int): string {
    if k <= 0 then "" else "0" + Zeros(k - 1)
  }

  /** File name below the run directory. */
  function Name(key: FileKey, ts: string, idx: nat): string {
    match key
    case Asad(cobo, asad) =>
      "CoBo" + Digits(cobo) + "_" + ("AsAd" + Digits(asad) + "_" + (ts + "_" + (Pad4(idx) + ".graw")))
    case Ctrl(cobo) =>
      "ctrl/" + ("CoBo" + Digits(cobo) + "_" + (ts + "_" + (Pad4(idx) + ".graw")))
  }

  datatype RunDir = RunDir(root: string, run: nat)

  function Path(dir: RunDir, key: FileKey, ts: string, idx: nat): string {
    dir.root + "/run" + Pad4(dir.run) + "/" + Name(key, ts, idx)
  }

  /** What every time stamp of the writer looks like. */
  predicate Clean(ts: string) {
    '_' !in ts && '/' !in ts
  }

  // ---------------------------------------------------------------------
  // Decimal strings determine their number
  // ---------------------------------------------------------------------

  function DigitValue(c: char): nat {
    if '0' <= c <= '9' then c as int - '0' as int else 0
  }

  function Value(s: string): nat {
    if s == "" then 0 else 10 * Value(s[..|s| - 1]) + DigitValue(s[|s| - 1])
  }

  lemma {:induction false} DigitsValue(n: nat)
    ensures Value(Digits(n)) == n
    ensures '_' !in Digits(n)
  {
    if n >= 10 {
      DigitsValue(n / 10);
      assert Digits(n)[..|Digits(n)| - 1] == Digits(n / 10);
    } else {
      assert [Digit(n)][..0] == "";
    }
  }

  lemma {:induction false} LeadingZeros(k: int, s: string)
    ensures Value(Zeros(k) + s) == Value(s)
    decreases |s|, k
  {
    if s != "" {
      LeadingZeros(k, s[..|s| - 1]);
      assert (Zeros(k) + s)[..|Zeros(k) + s| - 1] == Zeros(k) + s[..|s| - 1];
    } else if k > 0 {
      assert Zeros(k) + "" == Zeros(k);
      ZerosAreZero(k);
    } else {
      assert Zeros(k) + "" == "";
    }
  }

  lemma {:induction false} ZerosAreZero(k: int)
    ensures Value(Zeros(k)) == 0
    ensures forall i :: 0 <= i < |Zeros(k)| ==> Zeros(k)[i] == '0'
    decreases k
  {
    if k > 0 {
      ZerosAreZero(k - 1);
      assert Zeros(k) == "0" + Zeros(k - 1);
      AllZeroChars(Zeros(k));
    }
  }

  lemma {:induction false} AllZeroChars(s: string)
    requires forall i :: 0 <= i < |s| ==> s[i] == '0'
    ensures Value(s) == 0
  {
    if s != "" {
      AllZeroChars(s[..|s| - 1]);
    }
  }

  lemma {:induction false} Pad4Value(n: nat)
    ensures Value(Pad4(n)) == n
  {
    LeadingZeros(4 - |Digits(n)|, Digits(n));
    DigitsValue(n);
  }

  lemma {:induction false} Pad4Injective(m: nat, n: nat)
    requires Pad4(m) == Pad4(n)
    ensures m == n
  {
    Pad4Value(m);
    Pad4Value(n);
  }

  lemma {:induction false} DigitsInjective(m: nat, n: nat)
    requires Digits(m) == Digits(n)
    ensures m == n
  {
    DigitsValue(m);
    DigitsValue(n);
  }

  /** The decimal number `n`, padded with zeros to `width` characters and no further. */
  predicate IsDecimal(s: string, n: nat, width: nat) {
    && (forall i :: 0 <= i < |s| ==> '0' <= s[i] <= '9')
    && Value(s) == n && |s| >= width
    && (|s| > width ==> s[0] != '0')
  }

  lemma {:induction false} DigitsAreDecimal(n: nat)
    ensures IsDecimal(Digits(n), n, 1)
    ensures n > 0 ==> Digits(n)[0] != '0'
  {
    DigitsValue(n);
    if n >= 10 {
      DigitsAreDecimal(n / 10);
    }
  }

  lemma ZerosLength(k: int)
    ensures |Zeros(k)| == if k <= 0 then 0 else k
  {
  }

  lemma {:induction false} Pad4IsDecimal(n: nat)
    ensures IsDecimal(Pad4(n), n, 4)
  {
    DigitsAreDecimal(n);
    Pad4Value(n);
    ZerosAreZero(4 - |Digits(n)|);
    ZerosLength(4 - |Digits(n)|);
  }

  lemma TailJoins(front: string, ts: string, number: string)
    ensures front + (ts + "_" + (number + ".graw")) == front + ts + "_" + number + ".graw"
  {
  }

  lemma Joins(a: string, b: string, c: string, d: string)
    ensures a + (b + c + d) == (a + b) + c + d
  {
  }

  lemma {:induction false} AsadName(cobo: string, asad: string, tail: string)
    ensures "CoBo" + cobo + "_" + ("AsAd" + asad + "_" + tail)
            == "CoBo" + cobo + "_AsAd" + asad + "_" + tail
  {
    var a, b, c, d := "CoBo" + cobo + "_", "AsAd" + asad, "_", tail;
    Joins(a, b, c, d);
    var x := "CoBo" + cobo;
    assert "_AsAd" == "_" + "AsAd";
    assert (x + "_") + ("AsAd" + asad) == (x + ("_" + "AsAd")) + asad;
  }

  lemma {:induction false} CtrlName(cobo: string, tail: string)
    ensures "ctrl/" + ("CoBo" + cobo + "_" + tail) == "ctrl/CoBo" + cobo + "_" + tail
  {
    Joins("ctrl/", "CoBo" + cobo, "_", tail);
    assert "ctrl/CoBo" == "ctrl/" + "CoBo";
    assert "ctrl/" + ("CoBo" + cobo) == ("ctrl/" + "CoBo") + cobo;
  }

  /** Every path, part by part: which number stands where, and how it is padded. */
  lemma {:induction false} PathReads(dir: RunDir, key: FileKey, ts: string, idx: nat)
    returns (run: string, cobo: string, asad: string, number: string)
    ensures IsDecimal(run, dir.run, 4) && IsDecimal(cobo, key.cobo, 1) && IsDecimal(number, idx, 4)
    ensures key.Asad? ==> IsDecimal(asad, key.asad, 1)
    ensures var chip := if key.Asad? then "CoBo" + cobo + "_AsAd" + asad else "ctrl/CoBo" + cobo;
            Path(dir, key, ts, idx)
            == dir.root + "/run" + run + "/" + (chip + "_" + ts + "_" + number + ".graw")
  {
    run, cobo, number := Pad4(dir.run), Digits(key.cobo), Pad4(idx);
    Pad4IsDecimal(dir.run);
    DigitsAreDecimal(key.cobo);
    Pad4IsDecimal(idx);
    asad := if key.Asad? then Digits(key.asad) else "";
    var tail := ts + "_" + (number + ".graw");
    if key.Asad? {
      DigitsAreDecimal(key.asad);
      AsadName(cobo, asad, tail);
      TailJoins("CoBo" + cobo + "_AsAd" + asad + "_", ts, number);
    } else {
      CtrlName(cobo, tail);
      TailJoins("ctrl/CoBo" + cobo + "_", ts, number);
    }
  }

  // ---------------------------------------------------------------------
  // Names and paths determine key, time stamp and index
  // ---------------------------------------------------------------------

  /** The part in front of the first underscore is unique. */
  lemma {:induction false} SplitAtUnderscore(a: string, x: string, b: string, y: string)
    requires a + "_" + x == b + "_" + y
    requires '_' !in a && '_' !in b
    ensures a == b && x == y
  {
    var s := a + "_" + x;
    assert s[|a|] == '_' && s[|b|] == '_';
    assert a == s[..|a|] && b == s[..|b|];
    assert x == s[|a| + 1..] && y == s[|b| + 1..];
  }

  lemma {:induction false} SuffixesEqual(p: string, x: string, y: string)
    requires p + x == p + y
    ensures x == y
  {
    assert x == (p + x)[|p|..] && y == (p + y)[|p|..];
  }

  lemma {:induction false} StampAndIndexInjective(ts: string, i: nat, us: string, j: nat)
    requires Clean(ts) && Clean(us)
    requires ts + "_" + (Pad4(i) + ".graw") == us + "_" + (Pad4(j) + ".graw")
    ensures ts == us && i == j
  {
    SplitAtUnderscore(ts, Pad4(i) + ".graw", us, Pad4(j) + ".graw");
    assert Pad4(i) == (Pad4(i) + ".graw")[..|Pad4(i)|];
    assert Pad4(j) == (Pad4(j) + ".graw")[..|Pad4(j)|];
    Pad4Injective(i, j);
  }

  lemma {:induction false} CoboInjective(c: nat, x: string, d: nat, y: string)
    requires "CoBo" + Digits(c) + "_" + x == "CoBo" + Digits(d) + "_" + y
    ensures c == d && x == y
  {
    DigitsValue(c);
    DigitsValue(d);
    SplitAtUnderscore("CoBo" + Digits(c), x, "CoBo" + Digits(d), y);
    SuffixesEqual("CoBo", Digits(c), Digits(d));
    DigitsInjective(c, d);
  }

  lemma {:induction false} AsadInjective(a: nat, x: string, b: nat, y: string)
    requires "AsAd" + Digits(a) + "_" + x == "AsAd" + Digits(b) + "_" + y
    ensures a == b && x == y
  {
    DigitsValue(a);
    DigitsValue(b);
    SplitAtUnderscore("AsAd" + Digits(a), x, "AsAd" + Digits(b), y);
    SuffixesEqual("AsAd", Digits(a), Digits(b));
    DigitsInjective(a, b);
  }

  lemma {:induction false} NameInjective(k: FileKey, ts: string, i: nat, l: FileKey, us: string, j: nat)
    requires Clean(ts) && Clean(us)
    requires Name(k, ts, i) == Name(l, us, j)
    ensures k == l && ts == us && i == j
  {
    var x, y := ts + "_" + (Pad4(i) + ".graw"), us + "_" + (Pad4(j) + ".graw");
    if k.Asad? && l.Asad? {
      CoboInjective(k.cobo, "AsAd" + Digits(k.asad) + "_" + x,
                    l.cobo, "AsAd" + Digits(l.asad) + "_" + y);
      AsadInjective(k.asad, x, l.asad, y);
      StampAndIndexInjective(ts, i, us, j);
    } else if k.Ctrl? && l.Ctrl? {
      SuffixesEqual("ctrl/", "CoBo" + Digits(k.cobo) + "_" + x, "CoBo" + Digits(l.cobo) + "_" + y);
      CoboInjective(k.cobo, x, l.cobo, y);
      StampAndIndexInjective(ts, i, us, j);
    } else {
      FirstLetter(k, ts, i);
      FirstLetter(l, us, j);
    }
  }

  lemma FirstLetter(k: FileKey, ts: string, i: nat)
    ensures Name(k, ts, i) != "" && Name(k, ts, i)[0] == if k.Asad? then 'C' else 'c'
  {
  }

  /** Distinct (key, index) pairs of one run never share a path. */
  lemma {:induction false} PathInjective(
      dir: RunDir, k: FileKey, ts: string, i: nat, l: FileKey, us: string, j: nat)
    requires Clean(ts) && Clean(us)
    requires Path(dir, k, ts, i) == Path(dir, l, us, j)
    ensures k == l && ts == us && i == j
  {
    SuffixesEqual(dir.root + "/run" + Pad4(dir.run) + "/", Name(k, ts, i), Name(l, us, j));
    NameInjective(k, ts, i, l, us, j);
  }
}

/** What the text layer promises: references are read exactly, and reading undoes escaping. */
module XmlTextLaws {
  import opened Arithmetic
  import opened Wrappers
  import opened XmlBase
  import opened XmlText
  import opened Utf8

  /* ------------------------------------------------------- numeric references ---- */

  function Pow(base: nat, k: nat): (r: nat)
  {
    if k == 0 then 1 else base * Pow(base, k - 1)
  }

  lemma {:induction false} PowPositive(base: nat, k: nat)
    requires base >= 1
    ensures Pow(base, k) >= 1
  {
    if k > 0 {
      PowPositive(base, k - 1);
      ProductAtLeast(base, Pow(base, k - 1));
    }
  }

  lemma ProductAtLeast(a: nat, b: nat)
    ensures a >= 1 ==> a * b >= b
  {
    if a >= 1 { assert a * b == (a - 1) * b + b; }
  }

  /** The multiplier after k digits, whatever it has wrapped to. */
  lemma RaiseIsPower(base: nat, k: nat)
    ensures Raise(Pow(base, k) % TWO32, base) == Pow(base, k + 1) % TWO32
  {
    ReduceFirst(TWO32, Pow(base, k), base);
    assert Pow(base, k) * base == base * Pow(base, k) == Pow(base, k + 1);
  }

  /** One step of the scan does not wrap when what the digit contributes fits in 32 bits: a wrapped
      multiplier only ever meets the digit zero. */
  lemma ExactStep(base: nat, k: nat, d: nat, ucs: nat)
    requires base >= 1
    requires ucs + d * Pow(base, k) < TWO32
    ensures AddDigit(ucs, Pow(base, k) % TWO32, d) == ucs + d * Pow(base, k)
  {
    hide Pow;
    PowPositive(base, k);
    if d == 0 {
      assert (Pow(base, k) % TWO32) * d == 0;
    } else {
      ProductAtLeast(d, Pow(base, k));
      assert (Pow(base, k) % TWO32) * d == d * Pow(base, k);
    }
  }

  lemma {:induction false} ScanExact(p: string, i: nat, j: nat, base: nat, k: nat, ucs: nat)
    requires base == 10 || base == 16
    requires i <= j <= |p| && AllDigits(p, i, j, base)
    requires ucs + Value(p, i, j, base) * Pow(base, k) < TWO32
    ensures Scan(p, i, j, base, Pow(base, k) % TWO32, ucs) == ucs + Value(p, i, j, base) * Pow(base, k)
    decreases j
  {
    if i < j {
      var v, d, w := Value(p, i, j - 1, base), Digit(p[j - 1], base), Pow(base, k);
      SplitProduct(v, base, d, w);
      assert Pow(base, k + 1) == base * w;
      ProductNonNegative(v, base * w);
      ExactStep(base, k, d, ucs);
      RaiseIsPower(base, k);
      ScanExact(p, i, j - 1, base, k + 1, ucs + d * w);
    }
  }

  lemma SplitProduct(v: nat, base: nat, d: nat, w: nat)
    ensures (v * base + d) * w == v * (base * w) + d * w
  {
  }

  lemma ProductNonNegative(a: nat, b: nat)
    ensures a * b >= 0
  {
  }

  /** The scan reads every number below 2^32 exactly, with any number of leading zeros. */
  lemma ScanReadsNumber(p: string, i: nat, j: nat, base: nat)
    requires base == 10 || base == 16
    requires i <= j <= |p| && AllDigits(p, i, j, base)
    requires Value(p, i, j, base) < TWO32
    ensures Scan(p, i, j, base, 1, 0) == Value(p, i, j, base)
  {
    assert Pow(base, 0) == 1;
    ScanExact(p, i, j, base, 0, 0);
  }

  /** A hexadecimal reference is read exactly if and only if its number is below 2^32: eight digits fill
      the accumulator and everything before them is lost. */
  lemma HexReadExactlyBelow2To32(p: string, i: nat, j: nat)
    requires i <= j <= |p| && AllDigits(p, i, j, 16)
    ensures Scan(p, i, j, 16, 1, 0) == Value(p, i, j, 16) <==> Value(p, i, j, 16) < TWO32
  {
    assert Pow(16, 0) == 1;
    HexScanBound(p, i, j, 0, 0);
    if Value(p, i, j, 16) < TWO32 { ScanReadsNumber(p, i, j, 16); }
  }

  lemma {:induction false} HexScanBound(p: string, i: nat, j: nat, k: nat, ucs: nat)
    requires i <= j <= |p| && AllDigits(p, i, j, 16)
    requires k <= 8 && ucs < Pow(16, k)
    ensures Scan(p, i, j, 16, Pow(16, k) % TWO32, ucs) < TWO32
    decreases j
  {
    Pow16At8();
    PowMonotone(16, k, 8);
    if k == 8 {
      SpentScan(p, i, j, ucs);
    } else if i < j {
      PowMonotone(16, k + 1, 8);
      HexStep(k, Digit(p[j - 1], 16), ucs);
      HexScanBound(p, i, j - 1, k + 1, ucs + Digit(p[j - 1], 16) * Pow(16, k));
    }
  }

  lemma HexStep(k: nat, d: nat, ucs: nat)
    requires k < 8 && d < 16 && ucs < Pow(16, k) && Pow(16, k + 1) <= TWO32
    ensures ucs + d * Pow(16, k) < Pow(16, k + 1)
    ensures Raise(Pow(16, k) % TWO32, 16) == Pow(16, k + 1) % TWO32
    ensures AddDigit(ucs, Pow(16, k) % TWO32, d) == ucs + d * Pow(16, k)
  {
    RaiseIsPower(16, k);
    ProductAtMost(d, 15, Pow(16, k));
    ExactStep(16, k, d, ucs);
  }

  lemma ProductAtMost(a: nat, b: nat, c: nat)
    requires a <= b
    ensures a * c <= b * c
  {
  }

  /** Once the multiplier has wrapped to zero, further digits add nothing. */
  lemma {:induction false} SpentScan(p: string, i: nat, j: nat, ucs: nat)
    requires i <= j <= |p| && AllDigits(p, i, j, 16)
    requires ucs < TWO32
    ensures Scan(p, i, j, 16, 0, ucs) == ucs
    decreases j
  {
    if i < j {
      assert AddDigit(ucs, 0, Digit(p[j - 1], 16)) == ucs && Raise(0, 16) == 0;
      SpentScan(p, i, j - 1, ucs);
    }
  }

  /** The first number whose decimal reference is misread. */
  const DECIMAL_LIMIT: nat := 5_000_000_000

  lemma Pow10Values()
    ensures Pow(10, 8) == 100_000_000 && Pow(10, 9) == 1_000_000_000 && Pow(10, 10) == 10_000_000_000
  {
    assert Pow(10, 2) == 100;
    assert Pow(10, 4) == 100 * Pow(10, 2);
    assert Pow(10, 6) == 100 * Pow(10, 4);
    assert Pow(10, 8) == 100 * Pow(10, 6);
  }

  /** A decimal digit whose contribution is below the limit is added exactly: at the tenth place it is at
      most four. */
  lemma DecimalStep(k: nat, d: nat, ucs: nat)
    requires d <= 9 && ucs + d * Pow(10, k) < DECIMAL_LIMIT
    ensures AddDigit(ucs, Pow(10, k) % TWO32, d) == ucs + d * Pow(10, k)
  {
    hide AddDigit;
    var w := Pow(10, k);
    assert w <= 100_000_000 || w == 1_000_000_000 || w >= 10_000_000_000 by {
      Pow10Values();
      if k <= 8 {
        PowMonotone(10, k, 8);
      } else if k > 9 {
        PowMonotone(10, 10, k);
      }
    }
    if d == 0 {
      ExactStepOfZero(w, ucs);
    } else {
      ProductAtLeast(d, w);
      BelowLimitIsWhole(w, d);
      WholeProduct(w, d, ucs);
    }
  }

  lemma BelowLimitIsWhole(w: nat, d: nat)
    requires d <= 9 && d * w < DECIMAL_LIMIT && (w <= 100_000_000 || w == 1_000_000_000)
    ensures d * w < TWO32
  {
    if w <= 100_000_000 { ProductAtMost(d, 9, w); }
  }

  lemma ExactStepOfZero(w: nat, ucs: nat)
    requires ucs < TWO64
    ensures AddDigit(ucs, w % TWO32, 0) == ucs
  {
    assert (w % TWO32) * 0 == 0;
  }

  lemma WholeProduct(w: nat, d: nat, ucs: nat)
    requires w < TWO32 && d * w < TWO32 && ucs < DECIMAL_LIMIT
    ensures AddDigit(ucs, w % TWO32, d) == ucs + d * w
  {
    assert w % TWO32 == w && w * d == d * w;
  }

  lemma {:induction false} DecimalExact(p: string, i: nat, j: nat, k: nat, ucs: nat)
    requires i <= j <= |p| && AllDigits(p, i, j, 10)
    requires ucs + Value(p, i, j, 10) * Pow(10, k) < DECIMAL_LIMIT
    ensures Scan(p, i, j, 10, Pow(10, k) % TWO32, ucs) == ucs + Value(p, i, j, 10) * Pow(10, k)
    decreases j
  {
    if i < j {
      var v, d, w := Value(p, i, j - 1, 10), Digit(p[j - 1], 10), Pow(10, k);
      SplitProduct(v, 10, d, w);
      assert Pow(10, k + 1) == 10 * w;
      ProductNonNegative(v, 10 * w);
      DecimalStep(k, d, ucs);
      RaiseIsPower(10, k);
      DecimalExact(p, i, j - 1, k + 1, ucs + d * w);
    }
  }

  /** A step never adds more than its digit stands for, and less as soon as that is more than 32 bits. */
  lemma StepAtMost(w: nat, d: nat, ucs: nat)
    ensures AddDigit(ucs, w % TWO32, d) <= ucs + d * w
    ensures d * w >= TWO32 ==> AddDigit(ucs, w % TWO32, d) < ucs + d * w
  {
    ProductAtMost(w % TWO32, w, d);
    assert w * d == d * w;
    RemainderAtMost((w % TWO32) * d, TWO32);
    RemainderAtMost(ucs + (w % TWO32) * d % TWO32, TWO64);
  }

  lemma RemainderAtMost(x: nat, m: nat)
    requires m > 0
    ensures x % m <= x && x % m < m
  {
  }

  /** From the eleventh place on every digit but zero loses something. */
  lemma {:induction false} DecimalAtMost(p: string, i: nat, j: nat, k: nat, ucs: nat)
    requires i <= j <= |p| && AllDigits(p, i, j, 10)
    ensures Scan(p, i, j, 10, Pow(10, k) % TWO32, ucs) <= ucs + Value(p, i, j, 10) * Pow(10, k)
    ensures k >= 10 && Value(p, i, j, 10) > 0 ==>
              Scan(p, i, j, 10, Pow(10, k) % TWO32, ucs) < ucs + Value(p, i, j, 10) * Pow(10, k)
    decreases j
  {
    if i < j {
      var v, d, w := Value(p, i, j - 1, 10), Digit(p[j - 1], 10), Pow(10, k);
      SplitProduct(v, 10, d, w);
      assert Pow(10, k + 1) == 10 * w;
      StepAtMost(w, d, ucs);
      RaiseIsPower(10, k);
      DecimalAtMost(p, i, j - 1, k + 1, AddDigit(ucs, w % TWO32, d));
      if k >= 10 && d > 0 {
        Pow10Values();
        PowMonotone(10, 10, k);
        ProductAtLeast(d, w);
      }
    }
  }

  /** Up to the tenth place the digits read so far are exact; a number at or above the limit then has a
      digit that loses. */
  lemma {:induction false} DecimalLoses(p: string, i: nat, j: nat, k: nat, ucs: nat)
    requires i <= j <= |p| && AllDigits(p, i, j, 10)
    requires k <= 9 && ucs < Pow(10, k) && ucs + Value(p, i, j, 10) * Pow(10, k) >= DECIMAL_LIMIT
    ensures Scan(p, i, j, 10, Pow(10, k) % TWO32, ucs) < ucs + Value(p, i, j, 10) * Pow(10, k)
    decreases j
  {
    Pow10Values();
    PowMonotone(10, k, 9);
    if i < j {
      var v, d, w := Value(p, i, j - 1, 10), Digit(p[j - 1], 10), Pow(10, k);
      SplitProduct(v, 10, d, w);
      assert Pow(10, k + 1) == 10 * w;
      RaiseIsPower(10, k);
      StepAtMost(w, d, ucs);
      hide AddDigit, Raise;
      if k < 9 {
        PowMonotone(10, k + 1, 9);
        ProductAtMost(d, 9, w);
        DecimalStep(k, d, ucs);
        DecimalLoses(p, i, j - 1, k + 1, ucs + d * w);
      } else {
        DecimalAtMost(p, i, j - 1, 10, AddDigit(ucs, w % TWO32, d));
      }
    }
  }

  /** A decimal reference is read exactly if and only if its number is below 5 * 10^9: the tenth digit fits
      in 32 bits up to four, and from there on a product or the multiplier has wrapped. */
  lemma DecimalReadExactlyBelowLimit(p: string, i: nat, j: nat)
    requires i <= j <= |p| && AllDigits(p, i, j, 10)
    ensures Scan(p, i, j, 10, 1, 0) == Value(p, i, j, 10) <==> Value(p, i, j, 10) < DECIMAL_LIMIT
  {
    assert Pow(10, 0) == 1;
    if Value(p, i, j, 10) < DECIMAL_LIMIT { DecimalExact(p, i, j, 0, 0); } else { DecimalLoses(p, i, j, 0, 0); }
  }

  /** The smallest decimal reference that is misread. */
  lemma DecimalMisread(rest: string)
    ensures var p := "5000000000" + rest;
            AllDigits(p, 0, 10, 10) && Value(p, 0, 10, 10) == DECIMAL_LIMIT && Scan(p, 0, 10, 10, 1, 0) != DECIMAL_LIMIT
  {
    var p := "5000000000" + rest;
    Zeroes(p, 1, 9);
    DecimalReadExactlyBelowLimit(p, 0, 10);
  }

  /** Nine zeros after a five. */
  lemma {:induction false} Zeroes(p: string, i: nat, n: nat)
    requires i + n <= |p| && i == 1 && p[0] == '5' && forall k :: i <= k < i + n ==> p[k] == '0'
    ensures AllDigits(p, 0, i + n, 10) && Value(p, 0, i + n, 10) == 5 * Pow(10, n)
  {
    if n > 0 { Zeroes(p, i, n - 1); } else { assert Value(p, 0, 0, 10) == 0; }
  }

  lemma Pow16At8()
    ensures Pow(16, 8) == TWO32
  {
    assert Pow(16, 2) == 256;
    assert Pow(16, 4) == 256 * Pow(16, 2);
    assert Pow(16, 6) == 256 * Pow(16, 4);
    assert Pow(16, 8) == 256 * Pow(16, 6);
  }

  lemma {:induction false} PowMonotone(base: nat, a: nat, b: nat)
    requires base >= 1 && a <= b
    ensures Pow(base, a) <= Pow(base, b)
    decreases b
  {
    if a < b {
      PowMonotone(base, a, b - 1);
      ProductAtLeast(base, Pow(base, b - 1));
    }
  }

  /** The number written by a digit string. */
  function Number(ds: string, base: nat): (v: nat)
    requires base == 10 || base == 16
    requires AllDigits(ds, 0, |ds|, base)
  {
    Value(ds, 0, |ds|, base)
  }

  lemma {:induction false} ValueShift(ds: string, n: nat, p: string, i: nat, base: nat)
    requires base == 10 || base == 16
    requires n <= |ds| && i + n <= |p| && p[i..i + n] == ds[..n]
    requires AllDigits(ds, 0, |ds|, base) && AllDigits(p, i, i + n, base)
    ensures Value(p, i, i + n, base) == Value(ds, 0, n, base)
  {
    if n > 0 {
      assert p[i..i + n][..n - 1] == p[i..i + (n - 1)] && ds[..n][..n - 1] == ds[..n - 1];
      ValueShift(ds, n - 1, p, i, base);
      assert p[i + n - 1] == p[i..i + n][n - 1] == ds[n - 1];
    }
  }

  lemma {:induction false} SemicolonAt(p: string, i: nat, n: nat)
    requires i <= n < |p| && p[n] == ';'
    requires forall k :: i <= k < n ==> p[k] != ';'
    ensures Semicolon(p, i) == n
    decreases n - i
  {
    if i < n { SemicolonAt(p, i + 1, n); }
  }

  lemma {:induction false} RunStartAt(p: string, i: nat, j: nat, stop: char)
    requires 1 <= i <= j <= |p| && p[i - 1] == stop
    requires forall k :: i <= k < j ==> p[k] != stop
    ensures RunStart(p, j, stop) == i
  {
    if i < j { RunStartAt(p, i, j - 1, stop); }
  }

  /** A reference `&#ds;` or `&#xds;` to a code point is read as its UTF-8 encoding, whatever leading
      zeros it has, and what follows is untouched. */
  lemma ReferenceReadBack(ds: string, base: nat, rest: string)
    requires base == 10 || base == 16
    requires AllDigits(ds, 0, |ds|, base) && Number(ds, base) < 0x110000
    ensures Entity((if base == 16 then "&#x" else "&#") + ds + ";" + rest) ==
            Some(Char(Encoding(Number(ds, base)), rest))
  {
    hide Encoding, Scan, Value;
    var head := if base == 16 then "&#x" else "&#";
    var p := head + ds + ";" + rest;
    var from, q := |head|, |head| + |ds|;
    assert p[q] == ';' && p[q + 1..] == rest;
    assert forall k :: from <= k < q ==> p[k] == ds[k - from];
    if base == 10 { assert p[2] == if ds == "" then ';' else ds[0]; }
    SemicolonAt(p, from, q);
    var stop := p[from - 1];
    RunStartAt(p, from, q, stop);
    assert p[from..from + |ds|] == ds[..|ds|];
    ValueShift(ds, |ds|, p, from, base);
    ScanReadsNumber(p, from, q, base);
  }

  /** A reference with anything but digits in it is refused, and so is one without a semicolon. */
  lemma ReferenceRefused(ds: string, base: nat, rest: string)
    requires base == 10 || base == 16
    requires forall k :: 0 <= k < |ds| ==> ds[k] != ';' && ds[k] != if base == 16 then 'x' else '#'
    requires ds != "" && (base == 10 ==> ds[0] != 'x')
    ensures !AllDigits(ds, 0, |ds|, base) ==> Entity((if base == 16 then "&#x" else "&#") + ds + ";" + rest) == None
    ensures Entity((if base == 16 then "&#x" else "&#") + ds) == None
  {
    hide Scan, Value;
    var head := if base == 16 then "&#x" else "&#";
    var p, cut, from := head + ds + ";" + rest, head + ds, |head|;
    assert forall k :: from <= k < |cut| ==> p[k] == cut[k] == ds[k - from];
    SemicolonAt(p, from, |cut|);
    NoSemicolon(cut, from);
    RunStartAt(p, from, |cut|, p[from - 1]);
    if !AllDigits(ds, 0, |ds|, base) {
      var k :| 0 <= k < |ds| && Digit(ds[k], base) < 0;
      assert p[from + k] == ds[k];
    }
  }

  lemma {:induction false} NoSemicolon(p: string, i: nat)
    requires i <= |p| && forall k :: i <= k < |p| ==> p[k] != ';'
    ensures Semicolon(p, i) == |p|
    decreases |p| - i
  {
    if i < |p| { NoSemicolon(p, i + 1); }
  }

  /** An ampersand that opens nothing known is dropped. */
  lemma AmpersandDropped(rest: string)
    requires rest == "" || rest[0] != '#'
    requires !("amp;" <= rest) && !("lt;" <= rest) && !("gt;" <= rest) && !("quot;" <= rest) && !("apos;" <= rest)
    ensures Entity("&" + rest) == Some(Char("", rest))
  {
    var p := "&" + rest;
    assert p[1..] == rest;
    PrefixBehind("&amp;", "amp;", rest);
    PrefixBehind("&lt;", "lt;", rest);
    PrefixBehind("&gt;", "gt;", rest);
    PrefixBehind("&quot;", "quot;", rest);
    PrefixBehind("&apos;", "apos;", rest);
    NoEntityFrom(p, 0);
  }

  lemma PrefixBehind(entity: string, name: string, rest: string)
    requires entity == "&" + name
    ensures entity <= "&" + rest ==> name <= rest
  {
    var p := "&" + rest;
    if entity <= p { assert p[1..] == rest && entity[1..] == name && p[..|entity|][1..] == rest[..|name|]; }
  }

  lemma {:induction false} NoEntityFrom(p: string, i: nat)
    requires p != "" && i <= |ENTITIES| && forall k :: i <= k < |ENTITIES| ==> !(ENTITIES[k].0 <= p)
    ensures NamedEntity(p, i) == Some(Char("", p[1..]))
    decreases |ENTITIES| - i
  {
    if i < |ENTITIES| { NoEntityFrom(p, i + 1); }
  }

  /** Which characters are digits, and what they are worth. */
  lemma DigitsAre(c: char)
    ensures HexDigit(c) >= 0 <==> c in "0123456789ABCDEFabcdef"
    ensures forall d: nat :: d < 16 ==>
              HexDigit("0123456789ABCDEF"[d]) == d && HexDigit("0123456789abcdef"[d]) == d
    ensures forall d: nat :: d < 10 ==> Digit("0123456789"[d], 10) == d
    ensures Digit(c, 10) >= 0 <==> c in "0123456789"
  {
    forall d: nat | d < 16
      ensures HexDigit("0123456789ABCDEF"[d]) == d && HexDigit("0123456789abcdef"[d]) == d
    {
      assert "0123456789ABCDEF"[d] as int == if d < 10 then '0' as int + d else 'A' as int + (d - 10);
      assert "0123456789abcdef"[d] as int == if d < 10 then '0' as int + d else 'a' as int + (d - 10);
    }
    if HexDigit(c) >= 0 {
      var d := HexDigit(c);
      assert c == "0123456789ABCDEF"[d] || c == "0123456789abcdef"[d];
    }
  }
}

/** Conversion of a code point to UTF-8 (src/ticpp/src/tinyxmlparser.cpp:66-126).

    The original works with `|`, `&` and `>>` on an unsigned long. The bit operators are defined here
    on unbounded naturals, bit by bit, so that the converter below performs the same operations and its
    meaning can still be stated in arithmetic. A byte is a `char` below 256. */
module Utf8 {
  import opened Arithmetic

  function BitOr(a: nat, b: nat): (r: nat)
    decreases a + b
  {
    if a == 0 && b == 0 then 0
    else (if a % 2 == 1 || b % 2 == 1 then 1 else 0) + 2 * BitOr(a / 2, b / 2)
  }

  function BitAnd(a: nat, b: nat): (r: nat)
    ensures r <= b
    decreases b
  {
    if b == 0 then 0
    else (if a % 2 == 1 && b % 2 == 1 then 1 else 0) + 2 * BitAnd(a / 2, b / 2)
  }

  const BYTE_MASK: nat := 0xBF
  const BYTE_MARK: nat := 0x80
  const FIRST_BYTE_MARK: seq<nat> := [0x00, 0x00, 0xC0, 0xE0, 0xF0, 0xF8, 0xFC]

  /** utf8ByteTable: the length of a sequence as announced by its lead byte; 1 for every invalid lead. */
  function ByteTable(c: char): (n: nat)
  {
    var b := c as int;
    if 0xC2 <= b <= 0xDF then 2
    else if 0xE0 <= b <= 0xEF then 3
    else if 0xF0 <= b <= 0xF4 then 4
    else 1
  }

  /** The octet sequences of section 3 of RFC 3629, continued with the four-octet pattern up to 21 bits,
      which is how far the converter goes. */
  function Encoding(n: nat): (s: string)
    requires n < 0x200000
    ensures 1 <= |s| <= 4
    ensures n < 0x80 ==> s == [n as char]
  {
    if n < 0x80 then [n as char]
    else if n < 0x800 then [(0xC0 + n / 64) as char, Tail(n)]
    else if n < 0x10000 then [(0xE0 + n / 64 / 64) as char, Tail(n / 64), Tail(n)]
    else [(0xF0 + n / 64 / 64 / 64) as char, Tail(n / 64 / 64), Tail(n / 64), Tail(n)]
  }

  /** The octet 10xxxxxx that carries the low six bits of n. */
  function Tail(n: nat): char { (0x80 + n % 64) as char }

  /** Reads one sequence back: the payload bits of the lead octet followed by six bits of each tail. */
  function Decode(s: string): (n: int)
    requires 1 <= |s| <= 4
  {
    var lead := s[0] as int;
    if |s| == 1 then lead
    else if |s| == 2 then (lead - 0xC0) * 64 + Payload(s[1])
    else if |s| == 3 then ((lead - 0xE0) * 64 + Payload(s[1])) * 64 + Payload(s[2])
    else (((lead - 0xF0) * 64 + Payload(s[1])) * 64 + Payload(s[2])) * 64 + Payload(s[3])
  }

  function Payload(c: char): int { c as int - 0x80 }

  /** One bit of `(a | 2b) & (2m+1)`. */
  lemma MaskBit(a: nat, b: nat, m: nat)
    ensures BitAnd(BitOr(a, 2 * b), 2 * m + 1) == a % 2 + 2 * BitAnd(BitOr(a / 2, b), m)
  {
    assert BitOr(a, 2 * b) == a % 2 + 2 * BitOr(a / 2, b);
  }

  /** `(x | 2h) & (3h - 1)` keeps what is below h and sets the bit of weight 2h (h a power of two). */
  ghost predicate Masks(x: nat, h: nat)
    requires h >= 1
  {
    BitAnd(BitOr(x, 2 * h), 3 * h - 1) == 2 * h + x % h
  }

  lemma MaskStep(x: nat, h: nat)
    requires h >= 1 && Masks(x / 2, h)
    ensures Masks(x, 2 * h)
  {
    MaskBit(x, 2 * h, 3 * h - 1);
    RemainderDoubles(x, h);
  }

  lemma MaskTop(x: nat)
    ensures BitAnd(BitOr(x, 2), 2) == 2
  {
    var y := x / 2;
    assert BitOr(x, 2) == x % 2 + 2 * BitOr(y, 1);
    assert BitOr(y, 1) == 1 + 2 * BitOr(y / 2, 0);
    assert BitAnd(BitOr(x, 2), 2) == 2 * BitAnd(BitOr(y, 1), 1);
  }

  lemma RemainderDoubles(x: nat, h: nat)
    requires h > 0
    ensures x % (2 * h) == x % 2 + 2 * ((x / 2) % h)
  {
    var q, r := x / 2 / h, (x / 2) % h;
    assert x / 2 == h * q + r;
    RemainderUnique(x, 2 * h, q, x % 2 + 2 * r);
  }

  lemma MaskIsTail(x: nat)
    ensures BitAnd(BitOr(x, BYTE_MARK), BYTE_MASK) == 0x80 + x % 64
  {
    assert Masks(x, 64) by {
      MaskThree(x / 8, 1);
      MaskThree(x, 8);
    }
  }

  lemma MaskThree(x: nat, h: nat)
    requires h == 1 || (h >= 1 && Masks(x / 8, h))
    ensures Masks(x, 8 * h)
  {
    assert x / 2 / 2 == x / 4 && x / 4 / 2 == x / 8;
    if h == 1 { MaskTop(x / 8); }
    MaskStep(x / 4, h);
    MaskStep(x / 2, 2 * h);
    MaskStep(x, 4 * h);
  }

  lemma Pow2Values()
    ensures Pow2(3) == 8 && Pow2(4) == 16 && Pow2(5) == 32 && Pow2(7) == 128
  {
    assert Pow2(2) == 4;
    assert Pow2(5) == 8 * Pow2(2);
  }

  function Pow2(k: nat): (r: nat)
    ensures r >= 1
  {
    if k == 0 then 1 else 2 * Pow2(k - 1)
  }

  /** Or-ing a mark above all the bits in use is addition. */
  lemma {:induction false} MarkAdds(x: nat, m: nat, k: nat)
    requires x < Pow2(k)
    ensures BitOr(x, m * Pow2(k)) == x + m * Pow2(k)
  {
    if k == 0 {
      OrZero(m);
    } else {
      var h := m * Pow2(k - 1);
      assert m * Pow2(k) == 2 * h;
      hide BitOr;
      MarkAdds(x / 2, m, k - 1);
      OrEven(x, h);
    }
  }

  lemma OrEven(x: nat, h: nat)
    ensures BitOr(x, 2 * h) == x % 2 + 2 * BitOr(x / 2, h)
  {
    assert 2 * h % 2 == 0 && 2 * h / 2 == h;
  }

  lemma {:induction false} OrZero(m: nat)
    ensures BitOr(0, m) == m
  {
    if m != 0 { OrZero(m / 2); }
  }

  /** ConvertUTF32ToUTF8: the switch falls through from the longest case down, which is the loop below:
      the output is filled from its last octet to its first while the input is shifted right. At 0x200000
      and above nothing is written. */
  method ConvertUTF32ToUTF8(input: nat) returns (output: string)
    ensures output == Converted(input)
  {
    hide Encoding, Tails, Shifted, Tail, TailOctet, LeadOctet, LeadFits, BitOr, BitAnd;
    var length := SequenceLength(input);
    if length == 0 { return ""; }
    var ucs, k := input, length;
    output := "";
    while k > 1
      invariant 1 <= k <= length
      invariant Shifted(ucs, k) == Shifted(input, length)
      invariant Tails(ucs, k) + output == Tails(input, length)
    {
      OneTailOctet(ucs, k, output);
      output := [TailOctet(ucs)] + output;
      ucs, k := ucs / 64, k - 1;
    }
    LeadBound(input);
    NoMoreTails(ucs, output);
    output := [LeadOctet(ucs, length)] + output;
  }

  /** What is left for the lead octet, and the tail octets after it, of a sequence of the given length. */
  function Shifted(n: nat, length: nat): nat
  {
    if length <= 1 then n else Shifted(n / 64, length - 1)
  }

  function Tails(n: nat, length: nat): string
  {
    if length <= 1 then "" else Tails(n / 64, length - 1) + [Tail(n)]
  }

  lemma OneTailOctet(n: nat, length: nat, output: string)
    requires length > 1
    ensures Shifted(n, length) == Shifted(n / 64, length - 1)
    ensures Tails(n, length) + output == Tails(n / 64, length - 1) + ([Tail(n)] + output)
  {
  }

  lemma NoMoreTails(n: nat, output: string)
    ensures Shifted(n, 1) == n && Tails(n, 1) + output == output
  {
  }

  lemma LeadBound(n: nat)
    requires n < 0x200000
    ensures LeadFits(Shifted(n, SequenceLength(n)), SequenceLength(n))
    ensures var l := SequenceLength(n);
            Encoding(n) == [(Shifted(n, l) + FIRST_BYTE_MARK[l]) as char] + Tails(n, l)
  {
    var a := n / 64;
    var b := a / 64;
    assert Shifted(n, 2) == Shifted(a, 1) && Tails(n, 2) == Tails(a, 1) + [Tail(n)];
    assert Shifted(n, 3) == Shifted(a, 2) == Shifted(b, 1);
    assert Tails(n, 3) == Tails(a, 2) + [Tail(n)] == Tails(b, 1) + [Tail(a)] + [Tail(n)];
    assert Shifted(n, 4) == Shifted(a, 3) == Shifted(b, 2) == Shifted(b / 64, 1);
    assert Tails(a, 3) == Tails(b, 2) + [Tail(a)] == Tails(b / 64, 1) + [Tail(b)] + [Tail(a)];
    assert Tails(n, 4) == Tails(a, 3) + [Tail(n)];
  }

  function SequenceLength(input: nat): (n: nat)
    ensures n == 0 <==> input >= 0x200000
  {
    if input < 0x80 then 1
    else if input < 0x800 then 2
    else if input < 0x10000 then 3
    else if input < 0x200000 then 4
    else 0
  }

  function TailOctet(ucs: nat): (c: char)
    ensures c == Tail(ucs)
  {
    MaskIsTail(ucs);
    BitAnd(BitOr(ucs, BYTE_MARK), BYTE_MASK) as char
  }

  function LeadOctet(ucs: nat, length: nat): (c: char)
    requires LeadFits(ucs, length)
    ensures c as int == ucs + FIRST_BYTE_MARK[length]
  {
    LeadMark(ucs, length);
    BitOr(ucs, FIRST_BYTE_MARK[length]) as char
  }

  predicate LeadFits(x: nat, length: nat)
  {
    1 <= length <= 4 &&
      x < if length == 1 then 0x80 else if length == 2 then 0x20 else if length == 3 then 0x10 else 0x08
  }

  /** What the converter leaves in its output, of any length including none. */
  function Converted(input: nat): (s: string)
  {
    if input < 0x200000 then Encoding(input) else ""
  }

  lemma LeadMark(x: nat, length: nat)
    requires LeadFits(x, length)
    ensures BitOr(x, FIRST_BYTE_MARK[length]) == x + FIRST_BYTE_MARK[length]
  {
    Pow2Values();
    if length == 1 { MarkAdds(x, 0, 7); }
    if length == 2 { MarkAdds(x, 6, 5); }
    if length == 3 { MarkAdds(x, 14, 4); }
    if length == 4 { MarkAdds(x, 30, 3); }
  }

  /** Decoding returns the code point, for everything the converter accepts. */
  lemma DecodeInverts(n: nat)
    requires n < 0x200000
    ensures Decode(Converted(n)) == n
  {
    var a, b, c := n / 64, n / 64 / 64, n / 64 / 64 / 64;
    assert n == a * 64 + n % 64 && a == b * 64 + a % 64 && b == c * 64 + b % 64;
  }

  /** The lead octet announces the right length in utf8ByteTable up to 0x13FFFF, hence for every code
      point, and not above: the converter's own limit of 0x200000 is wider than the table. */
  lemma LeadAnnouncesLength(n: nat)
    requires n < 0x200000
    ensures ByteTable(Converted(n)[0]) == |Converted(n)| <==> n < 0x140000
  {
    var a, b, c := n / 64, n / 64 / 64, n / 64 / 64 / 64;
    if n >= 0x10000 {
      assert c >= 5 <==> n >= 0x140000;
    }
  }

  /** The four sequence lengths use disjoint lead octets and never a tail octet, so a sequence is never
      a proper prefix of another and distinct code points have distinct encodings. */
  lemma PrefixFree(m: nat, n: nat)
    requires m < 0x110000 && n < 0x110000
    requires Converted(m) <= Converted(n)
    ensures m == n
  {
    LeadAnnouncesLength(m);
    LeadAnnouncesLength(n);
    assert Converted(m)[0] == Converted(n)[0];
    assert Converted(m) == Converted(n);
    DecodeInverts(m);
    DecodeInverts(n);
  }
}

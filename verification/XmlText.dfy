/** Escaping text on the way out and resolving references on the way in
    (EncodeString in src/ticpp/src/tinyxml.cpp:50-131; GetEntity, ReadText in
    src/ticpp/src/tinyxmlparser.cpp:438-637; GetChar in src/ticpp/include/tinyxml.h:342-376). */
module XmlText {
  import opened Wrappers
  import opened XmlBase
  import opened Utf8

  /* ---------------------------------------------------------------- writing ---- */

  /** The predefined entities in table order. */
  const ENTITIES: seq<(string, char)> :=
    [("&amp;", '&'), ("&lt;", '<'), ("&gt;", '>'), ("&quot;", '\"'), ("&apos;", '\'')]

  const HEX: string := "0123456789ABCDEF"

  predicate StartsHexReference(s: string)
  {
    |s| >= 3 && s[0] == '&' && s[1] == '#' && s[2] == 'x'
  }

  /** How much EncodeString copies verbatim when it meets `&#x`: up to the next semicolon, or all but the
      last character when there is none. */
  function VerbatimLength(s: string): (n: nat)
    requires |s| >= 3
    ensures 1 <= n < |s|
  {
    VerbatimFrom(s, 1)
  }

  function VerbatimFrom(s: string, i: nat): (n: nat)
    requires 1 <= i < |s|
    ensures i <= n < |s|
    decreases |s| - i
  {
    if s[i] == ';' || i == |s| - 1 then i else VerbatimFrom(s, i + 1)
  }

  /** One character outside of a hexadecimal reference. */
  function EncodedChar(c: char): (r: string)
    ensures r != ""
  {
    if c == '&' then "&amp;"
    else if c == '<' then "&lt;"
    else if c == '>' then "&gt;"
    else if c == '\"' then "&quot;"
    else if c == '\'' then "&apos;"
    else if c as int < 32 then "&#x" + [HEX[c as int / 16], HEX[c as int % 16]] + ";"
    else [c]
  }

  function Encoded(s: string): (r: string)
  {
    if s == "" then ""
    else if StartsHexReference(s) then s[..VerbatimLength(s)] + Encoded(s[VerbatimLength(s)..])
    else EncodedChar(s[0]) + Encoded(s[1..])
  }

  /** EncodeString. The copying of a hexadecimal reference is the loop of CopyReference. */
  method EncodeString(str: string) returns (outString: string)
    ensures outString == Encoded(str)
  {
    hide EncodedChar;
    outString := "";
    var i := 0;
    while i < |str|
      invariant 0 <= i <= |str|
      invariant outString + Encoded(str[i..]) == Encoded(str)
    {
      var rest := str[i..];
      var piece, n := EncodeNext(rest);
      Regroup(outString, piece, Encoded(rest[n..]));
      assert rest[n..] == str[i + n..];
      outString, i := outString + piece, i + n;
    }
  }

  lemma Regroup(a: string, b: string, c: string)
    ensures a + (b + c) == a + b + c
  {
  }

  /** The body of the loop of EncodeString: what is appended and how far `i` moves. */
  method EncodeNext(s: string) returns (piece: string, n: nat)
    requires s != ""
    ensures 1 <= n <= |s| && Encoded(s) == piece + Encoded(s[n..])
  {
    if s[0] == '&' && 0 < |s| - 2 && s[1] == '#' && s[2] == 'x' {
      piece := CopyReference(s);
      n := |piece|;
    } else {
      piece := EncodedChar(s[0]);
      n := 1;
    }
  }

  /** The inner loop of EncodeString. */
  method CopyReference(s: string) returns (copied: string)
    requires |s| >= 3
    ensures copied == s[..VerbatimLength(s)]
  {
    copied := [s[0]];
    var i := 1;
    while i < |s| - 1 && s[i] != ';'
      invariant 1 <= i <= |s| - 1
      invariant copied == s[..i]
      invariant VerbatimFrom(s, i) == VerbatimLength(s)
    {
      copied := copied + [s[i]];
      i := i + 1;
    }
  }

  /* ---------------------------------------------------------------- reading ---- */

  function HexDigit(c: char): (d: int)
    ensures -1 <= d < 16
  {
    if '0' <= c <= '9' then c as int - '0' as int
    else if 'a' <= c <= 'f' then c as int - 'a' as int + 10
    else if 'A' <= c <= 'F' then c as int - 'A' as int + 10
    else -1
  }

  function Digit(c: char, base: nat): (d: int)
    requires base == 10 || base == 16
    ensures -1 <= d < base
  {
    if base == 16 then HexDigit(c) else if '0' <= c <= '9' then c as int - '0' as int else -1
  }

  /** Are the characters from i up to j all digits? */
  predicate AllDigits(p: string, i: nat, j: nat, base: nat)
    requires base == 10 || base == 16
    requires i <= j <= |p|
  {
    forall k :: i <= k < j ==> Digit(p[k], base) >= 0
  }

  /** The number that the digits from i up to j stand for (section 4.1 of XML 1.0). */
  function Value(p: string, i: nat, j: nat, base: nat): (v: nat)
    requires base == 10 || base == 16
    requires i <= j <= |p| && AllDigits(p, i, j, base)
    decreases j
  {
    if i == j then 0 else Value(p, i, j - 1, base) * base + Digit(p[j - 1], base)
  }

  const TWO32: nat := 0x1_0000_0000
  const TWO64: nat := 0x1_0000_0000_0000_0000

  /** What the backward scan accumulates: `mult` is a 32-bit counter that wraps, each product is a 32-bit
      product, and the sum is 64 bits wide. */
  function Scan(p: string, i: nat, j: nat, base: nat, mult: nat, ucs: nat): (v: nat)
    requires base == 10 || base == 16
    requires i <= j <= |p| && AllDigits(p, i, j, base)
    decreases j
  {
    if i == j then ucs
    else Scan(p, i, j - 1, base, Raise(mult, base), AddDigit(ucs, mult, Digit(p[j - 1], base)))
  }

  function AddDigit(ucs: nat, mult: nat, digit: nat): (r: nat) { (ucs + mult * digit % TWO32) % TWO64 }

  function Raise(mult: nat, base: nat): (r: nat) { mult * base % TWO32 }

  /** strchr: the position of the first semicolon from i on, or the length when there is none. */
  function Semicolon(p: string, i: nat): (n: nat)
    requires i <= |p|
    ensures i <= n <= |p|
    ensures n < |p| ==> p[n] == ';'
    decreases |p| - i
  {
    if i == |p| || p[i] == ';' then i else Semicolon(p, i + 1)
  }

  /** Where the run of characters other than `stop` that ends at j begins. */
  function RunStart(p: string, j: nat, stop: char): (i: nat)
    requires j <= |p|
    ensures i <= j
    ensures i > 0 ==> p[i - 1] == stop
    ensures forall k :: i <= k < j ==> p[k] != stop
  {
    if j == 0 || p[j - 1] == stop then j else RunStart(p, j - 1, stop)
  }

  datatype Char = Char(value: string, rest: string)

  /** GetEntity on text that starts with `&`. */
  function Entity(p: string): (r: Option<Char>)
    requires p != "" && p[0] == '&'
    ensures r.Some? ==> |r.value.rest| < |p|
  {
    if |p| >= 3 && p[1] == '#' then
      if p[2] == 'x' then Reference(p, 3, 16, 'x') else Reference(p, 2, 10, '#')
    else
      NamedEntity(p, 0)
  }

  /** A numeric reference whose digits start at `from`, right after the character `stop`. */
  function Reference(p: string, from: nat, base: nat, stop: char): (r: Option<Char>)
    requires base == 10 || base == 16
    requires 1 <= from <= |p| && p[from - 1] == stop && stop != ';'
    ensures r.Some? ==> |r.value.rest| < |p|
  {
    var q := Semicolon(p, from);
    if q == |p| then None
    else
      var start := RunStart(p, q, stop);
      if AllDigits(p, start, q, base) then Some(Char(Converted(Scan(p, start, q, base, 1, 0)), p[q + 1..]))
      else None
  }

  /** The table from entry `i` on; an unknown entity drops the ampersand and keeps what follows. */
  function NamedEntity(p: string, i: nat): (r: Option<Char>)
    requires p != ""
    ensures r.Some? && |r.value.rest| < |p|
    decreases |ENTITIES| - i
  {
    if i >= |ENTITIES| then Some(Char("", p[1..]))
    else if ENTITIES[i].0 <= p && ENTITIES[i].0 != "" then Some(Char([ENTITIES[i].1], p[|ENTITIES[i].0|..]))
    else NamedEntity(p, i + 1)
  }

  method GetEntity(p: string) returns (r: Option<Char>)
    requires p != "" && p[0] == '&'
    ensures r == Entity(p)
  {
    if |p| >= 3 && p[1] == '#' {
      if p[2] == 'x' {
        r := ReadReference(p, 3, 16, 'x');
      } else {
        r := ReadReference(p, 2, 10, '#');
      }
      return;
    }
    var i := 0;
    while i < |ENTITIES|
      invariant 0 <= i <= |ENTITIES|
      invariant NamedEntity(p, i) == NamedEntity(p, 0)
    {
      if ENTITIES[i].0 <= p {
        return Some(Char([ENTITIES[i].1], p[|ENTITIES[i].0|..]));
      }
      i := i + 1;
    }
    r := Some(Char("", p[1..]));
  }

  /** The numeric branches of GetEntity: find the semicolon, then walk back to the `x` or the `#`. */
  method ReadReference(p: string, from: nat, base: nat, stop: char) returns (r: Option<Char>)
    requires base == 10 || base == 16
    requires 1 <= from <= |p| && p[from - 1] == stop && stop != ';'
    requires Digit(stop, base) < 0
    ensures r == Reference(p, from, base, stop)
  {
    var delta := from;
    while delta < |p| && p[delta] != ';'
      invariant from <= delta <= |p|
      invariant Semicolon(p, delta) == Semicolon(p, from)
    {
      delta := delta + 1;
    }
    if delta == |p| {
      return None;
    }
    var ucs := ScanBack(p, from, delta, base, stop);
    if ucs == None {
      return None;
    }
    var value := ConvertUTF32ToUTF8(ucs.value);
    r := Some(Char(value, p[delta + 1..]));
  }

  /** The backward scan itself, with its accumulator and its multiplier. */
  method ScanBack(p: string, from: nat, delta: nat, base: nat, stop: char) returns (r: Option<nat>)
    requires base == 10 || base == 16
    requires 1 <= from <= delta <= |p| && p[from - 1] == stop && Digit(stop, base) < 0
    ensures var start := RunStart(p, delta, stop);
            r == if AllDigits(p, start, delta, base) then Some(Scan(p, start, delta, base, 1, 0)) else None
  {
    ghost var start := RunStart(p, delta, stop);
    var q: int, ucs: nat, mult: nat := delta - 1, 0, 1;
    while p[q] != stop
      invariant from - 1 <= q < delta && start - 1 <= q
      invariant AllDigits(p, q + 1, delta, base)
      invariant AllDigits(p, start, delta, base) ==>
                  Scan(p, start, q + 1, base, mult, ucs) == Scan(p, start, delta, base, 1, 0)
      decreases q
    {
      if Digit(p[q], base) < 0 {
        return None;
      }
      ucs, mult := AddDigit(ucs, mult, Digit(p[q], base)), Raise(mult, base);
      q := q - 1;
    }
    r := Some(ucs);
  }

  /** GetChar: one character of text with references resolved. A sequence announced by its lead byte is
      copied whole; if the text ends inside it the missing bytes are the zeros of the caller's array. */
  function NextChar(p: string): (r: Option<Char>)
    requires p != ""
    ensures r.Some? ==> |r.value.rest| < |p|
  {
    var length := ByteTable(p[0]);
    if length == 1 then
      if p[0] == '&' then Entity(p) else Some(Char(p[..1], p[1..]))
    else if length <= |p| then Some(Char(p[..length], p[length..]))
    else Some(Char(p + Zeros(length - |p|), ""))
  }

  function Zeros(n: nat): (s: string)
    ensures |s| == n
  {
    if n == 0 then "" else ['\0'] + Zeros(n - 1)
  }

  method GetChar(p: string) returns (r: Option<Char>)
    requires p != ""
    ensures r == NextChar(p)
  {
    var length := ByteTable(p[0]);
    if length == 1 {
      if p[0] == '&' {
        r := GetEntity(p);
      } else {
        r := Some(Char(p[..1], p[1..]));
      }
    } else {
      var value, i := "", 0;
      while i < length && i < |p|
        invariant 0 <= i <= length && i <= |p|
        invariant value == p[..i]
      {
        value := value + [p[i]];
        i := i + 1;
      }
      assert p[..|p|] == p && p[|p|..] == "";
      assert i == length ==> value + Zeros(0) == value;
      r := Some(Char(value + Zeros(length - i), p[i..]));
    }
  }

  datatype Text = Text(value: string, rest: string)

  /** ReadText keeping white space, up to the end tag or the end of the text; `rest` starts at the tag. */
  function Verbatim(p: string, endTag: string): (r: Option<Text>)
    ensures r.Some? ==> |r.value.rest| <= |p|
    decreases |p|
  {
    if p == "" || StringEqual(p, endTag) then Some(Text("", p))
    else
      match NextChar(p)
      case None => None
      case Some(c) => Prefixed(c.value, Verbatim(c.rest, endTag))
  }

  function Prefixed(s: string, r: Option<Text>): (q: Option<Text>)
    ensures q.Some? <==> r.Some?
    ensures q.Some? ==> q.value == Text(s + r.value.value, r.value.rest)
  {
    match r
    case None => None
    case Some(t) => Some(Text(s + t.value, t.rest))
  }

  lemma PrefixedTwice(a: string, b: string, r: Option<Text>)
    ensures Prefixed("", r) == r
    ensures Prefixed(a, Prefixed(b, r)) == Prefixed(a + b, r)
  {
    if r.Some? {
      assert "" + r.value.value == r.value.value;
      assert a + (b + r.value.value) == a + b + r.value.value;
    }
  }

  /** ReadText condensing white space; `gap` tells whether white space has been passed since the last
      character. */
  function Condensed(p: string, endTag: string, gap: bool): (r: Option<Text>)
    ensures r.Some? ==> |r.value.rest| <= |p|
    ensures r.Some? && p != "" && !StringEqual(p, endTag) ==> |r.value.rest| < |p|
    decreases |p|
  {
    if p == "" || StringEqual(p, endTag) then Some(Text("", p))
    else if IsWhiteSpace(p[0]) then Condensed(p[1..], endTag, true)
    else
      match NextChar(p)
      case None => None
      case Some(c) => Prefixed((if gap then " " else "") + c.value, Condensed(c.rest, endTag, false))
  }

  /** ReadText. `trimWhiteSpace` is set for the text between tags and clear for attribute values; white
      space condensing is on, as it is by default. The original then steps over the end tag, which the
      callers below do. */
  method ReadText(p: string, trimWhiteSpace: bool, endTag: string) returns (r: Option<Text>)
    ensures r == if trimWhiteSpace then Condensed(AfterSpace(p), endTag, false) else Verbatim(p, endTag)
  {
    var text, q := "", p;
    if !trimWhiteSpace {
      ghost var whole := Verbatim(p, endTag);
      PrefixedTwice("", "", whole);
      while q != "" && !StringEqual(q, endTag)
        invariant whole == Prefixed(text, Verbatim(q, endTag))
        decreases |q|
      {
        var c := GetChar(q);
        if c == None {
          return None;
        }
        PrefixedTwice(text, c.value.value, Verbatim(c.value.rest, endTag));
        text, q := text + c.value.value, c.value.rest;
      }
    } else {
      var whitespace := false;
      var skipped := SkipWhiteSpace(Some(p));
      q := if skipped.Some? then skipped.value else "";
      ghost var whole := Condensed(AfterSpace(p), endTag, false);
      PrefixedTwice("", "", whole);
      while q != "" && !StringEqual(q, endTag)
        invariant whole == Prefixed(text, Condensed(q, endTag, whitespace))
        decreases |q|
      {
        if q[0] == '\r' || q[0] == '\n' {
          whitespace := true;
          q := q[1..];
        } else if IsWhiteSpace(q[0]) {
          whitespace := true;
          q := q[1..];
        } else {
          var gap := if whitespace then " " else "";
          whitespace := false;
          var c := GetChar(q);
          if c == None {
            return None;
          }
          PrefixedTwice(text, gap + c.value.value, Condensed(c.value.rest, endTag, false));
          text, q := text + (gap + c.value.value), c.value.rest;
        }
      }
    }
    assert text + "" == text;
    r := Some(Text(text, q));
  }
}

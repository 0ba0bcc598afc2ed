/** How text may be written, and that every way of writing it is read as what it stands for. */
module XmlSpellingLaws {
  import opened Wrappers
  import opened XmlBase
  import opened XmlText
  import opened XmlTextLaws
  import opened Utf8

  /* ---------------------------------------------------------------------- characters ---- */

  /** White space: the codes 9 to 13 and 32. */
  predicate IsBlank(c: char)
  {
    c as int == 32 || 9 <= c as int <= 13
  }

  /** The byte order mark of UTF-8 and the two sequences that the reader skips like it. */
  predicate IsMark(s: string)
  {
    |s| == 3 && s[0] as int == 0xEF &&
    ((s[1] as int, s[2] as int) == (0xBB, 0xBF) || (s[1] as int, s[2] as int) == (0xBF, 0xBE) ||
     (s[1] as int, s[2] as int) == (0xBF, 0xBF))
  }

  predicate StartsWithMark(s: string)
  {
    |s| >= 3 && IsMark(s[..3])
  }

  predicate IsTail(c: char)
  {
    0x80 <= c as int < 0xC0
  }

  /** One character of a text in UTF-8: a byte that leads no sequence, or a lead byte and its tails. */
  predicate IsCharacter(s: string)
  {
    s != "" && (forall i :: 1 <= i < |s| ==> IsTail(s[i])) &&
    var b := s[0] as int;
    |s| == if 0 < b < 0xC2 || 0xF5 <= b < 0x100 then 1
           else if 0xC2 <= b < 0xE0 then 2
           else if 0xE0 <= b < 0xF0 then 3
           else if 0xF0 <= b < 0xF5 then 4
           else 0
  }

  /** A character as it is written, and what it stands for. */
  datatype Glyph = Glyph(written: string, meant: string)

  /** The predefined entities (section 4.6 of XML 1.0). */
  predicate IsEntity(g: Glyph)
  {
    g == Glyph("&amp;", "&") || g == Glyph("&lt;", "<") || g == Glyph("&gt;", ">") ||
    g == Glyph("&quot;", "\"") || g == Glyph("&apos;", "\'")
  }

  /** A decimal or hexadecimal reference to a code point (section 4.1 of XML 1.0). */
  ghost predicate IsReference(g: Glyph)
  {
    exists ds: string, base: nat ::
      (base == 10 || base == 16) && AllDigits(ds, 0, |ds|, base) && Number(ds, base) < 0x110000 &&
      g == Glyph((if base == 16 then "&#x" else "&#") + ds + ";", Encoding(Number(ds, base)))
  }

  ghost predicate Spells(g: Glyph)
  {
    (IsCharacter(g.written) && g.written != "&" && g.meant == g.written) || IsEntity(g) || IsReference(g)
  }

  /** Reading one character finds what its spelling stands for, and stops right after it. */
  lemma GlyphRead(g: Glyph, rest: string)
    requires Spells(g)
    ensures NextChar(g.written + rest) == Some(Char(g.meant, rest)) && g.written != "" && g.meant != ""
  {
    hide Encoding, Number, AllDigits, Reference;
    var p := g.written + rest;
    if IsEntity(g) {
      EntityRead(g, rest);
    } else if IsReference(g) {
      var ds: string, base: nat :|
        (base == 10 || base == 16) && AllDigits(ds, 0, |ds|, base) && Number(ds, base) < 0x110000 &&
        g == Glyph((if base == 16 then "&#x" else "&#") + ds + ";", Encoding(Number(ds, base)));
      ReferenceReadBack(ds, base, rest);
      assert p == (if base == 16 then "&#x" else "&#") + ds + ";" + rest;
      assert p[0] == '&';
    } else {
      assert p[..|g.written|] == g.written && p[|g.written|..] == rest;
    }
  }

  /** Where the text ends inside a sequence, NULs stand in for the bytes that are missing. */
  lemma CutSequenceRead(p: string, n: nat)
    requires p != "" && |p| < n
    requires (0xC2 <= p[0] as int < 0xE0 && n == 2) || (0xE0 <= p[0] as int < 0xF0 && n == 3) ||
             (0xF0 <= p[0] as int < 0xF5 && n == 4)
    ensures var r := NextChar(p);
            r.Some? && r.value.rest == "" && |r.value.value| == n && r.value.value[..|p|] == p &&
            forall i :: |p| <= i < n ==> r.value.value[i] == '\0'
  {
    AllZeros(n - |p|);
  }

  lemma {:induction false} AllZeros(n: nat)
    ensures forall i :: 0 <= i < n ==> Zeros(n)[i] == '\0'
  {
    if n > 0 { AllZeros(n - 1); }
  }

  lemma EntityRead(g: Glyph, rest: string)
    requires IsEntity(g)
    ensures NextChar(g.written + rest) == Some(Char(g.meant, rest))
  {
    var p := g.written + rest;
    assert p[|g.written|..] == rest && g.written <= p;
    assert p[0] == '&' && p[1] == g.written[1] != '#';
    assert p[2] == g.written[2];
    EntityIndex(g, p);
  }

  lemma EntityIndex(g: Glyph, p: string)
    requires IsEntity(g) && g.written <= p
    ensures NamedEntity(p, 0) == Some(Char(g.meant, p[|g.written|..]))
  {
    var c := g.meant[0];
    assert ENTITIES[0] == ("&amp;", '&') && ENTITIES[1] == ("&lt;", '<') && ENTITIES[2] == ("&gt;", '>');
    assert ENTITIES[3] == ("&quot;", '\"') && ENTITIES[4] == ("&apos;", '\'');
    assert p[1] == g.written[1] && p[2] == g.written[2];
    assert NamedEntity(p, 0) == if c == '&' then Some(Char([c], p[5..])) else NamedEntity(p, 1);
    assert NamedEntity(p, 1) == if c == '<' then Some(Char([c], p[4..])) else NamedEntity(p, 2);
    assert NamedEntity(p, 2) == if c == '>' then Some(Char([c], p[4..])) else NamedEntity(p, 3);
    assert NamedEntity(p, 3) == if c == '\"' then Some(Char([c], p[6..])) else NamedEntity(p, 4);
  }

  /* --------------------------------------------------------------------------- texts ---- */

  /** The glyphs written out before `rest`. */
  function Spelt(gs: seq<Glyph>, rest: string): string
  {
    if gs == [] then rest else gs[0].written + Spelt(gs[1..], rest)
  }

  function Meant(gs: seq<Glyph>): string
  {
    if gs == [] then "" else gs[0].meant + Meant(gs[1..])
  }

  /** Every glyph is a spelling, and none is the bare character `stop`. */
  ghost predicate SpeltWithout(gs: seq<Glyph>, stop: char)
  {
    forall i :: 0 <= i < |gs| ==> Spells(gs[i]) && gs[i].written[0] != stop
  }

  /** The glyph is white space to the reader. A reference to white space is not. */
  predicate IsSpacing(g: Glyph)
  {
    |g.written| == 1 && IsBlank(g.written[0])
  }

  /** What the glyphs stand for, every run of spacing between two others being one space, and nothing for
      the spacing at the ends. */
  function Condense(gs: seq<Glyph>): string
  {
    if gs == [] then ""
    else if IsSpacing(gs[0]) then Condense(gs[1..])
    else gs[0].meant + (Due(gs[1..], false, Condense(gs[1..])) + Condense(gs[1..]))
  }

  /** The space due before the remaining text. */
  function Due(gs: seq<Glyph>, gap: bool, text: string): string
  {
    if (gap || (gs != [] && IsSpacing(gs[0]))) && text != "" then " " else ""
  }

  /** What is left when the spacing and the marks at the start are skipped. */
  function Inner(gs: seq<Glyph>): (r: seq<Glyph>)
    ensures r != [] ==> !IsSpacing(r[0]) && !IsMark(r[0].written)
  {
    if gs != [] && (IsSpacing(gs[0]) || IsMark(gs[0].written)) then Inner(gs[1..]) else gs
  }

  lemma {:induction false} InnerSpelt(gs: seq<Glyph>, stop: char)
    requires SpeltWithout(gs, stop)
    ensures SpeltWithout(Inner(gs), stop)
  {
    hide Spells;
    if gs != [] && (IsSpacing(gs[0]) || IsMark(gs[0].written)) { InnerSpelt(gs[1..], stop); }
  }

  /** Untrimmed reading: the text up to a quote is what its glyphs stand for, white space included. */
  lemma {:induction false} VerbatimRead(gs: seq<Glyph>, quote: char, rest: string)
    requires SpeltWithout(gs, quote)
    requires rest == "" || rest[0] == quote
    ensures Verbatim(Spelt(gs, rest), [quote]) == Some(Text(Meant(gs), rest))
  {
    hide Spells, NextChar;
    if gs != [] {
      GlyphRead(gs[0], Spelt(gs[1..], rest));
      VerbatimRead(gs[1..], quote, rest);
      assert Spelt(gs, rest)[0] == gs[0].written[0] && [quote][0] == quote;
    } else {
      assert rest != "" ==> [quote] <= rest;
    }
  }

  /** The character under the cursor is white space exactly when a spacing glyph stands there. */
  lemma SpacingStarts(g: Glyph, more: string)
    requires Spells(g)
    ensures g.written != "" && (IsWhiteSpace((g.written + more)[0]) <==> IsSpacing(g))
  {
    if IsReference(g) {
      var ds: string, base: nat :|
        (base == 10 || base == 16) && AllDigits(ds, 0, |ds|, base) && Number(ds, base) < 0x110000 &&
        g == Glyph((if base == 16 then "&#x" else "&#") + ds + ";", Encoding(Number(ds, base)));
      assert g.written[0] == '&';
    }
  }

  lemma SpacingIsOne(g: Glyph)
    requires IsSpacing(g)
    ensures |g.written| == 1
  {
  }

  lemma {:induction false} CondensedRead(gs: seq<Glyph>, gap: bool, rest: string)
    requires SpeltWithout(gs, '<') && (rest == "" || rest[0] == '<')
    ensures Condensed(Spelt(gs, rest), "<", gap) == Some(Text(Due(gs, gap, Condense(gs)) + Condense(gs), rest))
  {
    hide Spells, NextChar, IsWhiteSpace, IsSpacing;
    if gs == [] {
      assert rest != "" ==> "<" <= rest;
      assert Due(gs, gap, Condense(gs)) + Condense(gs) == "";
    } else {
      var g, more, tail := gs[0], Spelt(gs[1..], rest), Condense(gs[1..]);
      var p := g.written + more;
      SpacingStarts(g, more);
      assert p[0] == g.written[0];
      if IsSpacing(g) {
        SpacingIsOne(g);
        assert p[1..] == more;
        CondensedRead(gs[1..], true, rest);
      } else {
        GlyphRead(g, more);
        CondensedRead(gs[1..], false, rest);
        Regroup(if gap then " " else "", g.meant, Due(gs[1..], false, tail) + tail);
      }
    }
  }

  /** White space and marks at the start are skipped. */
  lemma {:induction false} LeadingSkipped(gs: seq<Glyph>, rest: string)
    requires SpeltWithout(gs, '<') && (rest == "" || rest[0] == '<')
    ensures AfterSpace(Spelt(gs, rest)) == Spelt(Inner(gs), rest)
  {
    hide Spells;
    if gs == [] {
    } else {
      var g, more := gs[0], Spelt(gs[1..], rest);
      var p := g.written + more;
      SpacingStarts(g, more);
      MarkStarts(g, more);
      if IsSpacing(g) {
        assert p[1..] == more;
        LeadingSkipped(gs[1..], rest);
      } else if IsMark(g.written) {
        assert p[3..] == more;
        LeadingSkipped(gs[1..], rest);
      }
    }
  }

  lemma MarkStarts(g: Glyph, more: string)
    requires Spells(g)
    ensures StartsWithByteOrderMark(g.written + more) <==> IsMark(g.written)
    ensures IsMark(g.written) ==> !IsSpacing(g)
  {
    if IsReference(g) {
      var ds: string, base: nat :|
        (base == 10 || base == 16) && AllDigits(ds, 0, |ds|, base) && Number(ds, base) < 0x110000 &&
        g == Glyph((if base == 16 then "&#x" else "&#") + ds + ";", Encoding(Number(ds, base)));
      assert g.written[0] == '&' && (g.written + more)[0] == '&';
    } else {
      assert (g.written + more)[0] == g.written[0];
      if g.written[0] as int == 0xEF {
        assert (g.written + more)[1] == g.written[1] && (g.written + more)[2] == g.written[2];
      }
    }
  }

  /** Trimmed reading up to the next tag: white space and marks at the start are skipped, runs of white space
      become one space, and everything else is what it stands for. */
  lemma TrimmedRead(gs: seq<Glyph>, rest: string)
    requires SpeltWithout(gs, '<') && (rest == "" || rest[0] == '<')
    ensures Condensed(AfterSpace(Spelt(gs, rest)), "<", false) == Some(Text(Condense(Inner(gs)), rest))
  {
    hide Spells;
    LeadingSkipped(gs, rest);
    InnerSpelt(gs, '<');
    CondensedRead(Inner(gs), false, rest);
    assert "" + Condense(Inner(gs)) == Condense(Inner(gs));
  }

  /* ------------------------------------------------------------------- escaped texts ---- */

  /** A text in UTF-8 without NUL. A byte that belongs to no sequence is let through, as the reader does. */
  predicate IsText(s: string)
  {
    forall i :: 0 <= i < |s| ==> 0 < s[i] as int < 0x100 && Continued(s, i)
  }

  /** The tails that the byte at i announces are there. */
  predicate Continued(s: string, i: nat)
    requires i < |s|
  {
    i + ByteTable(s[i]) <= |s| && forall k :: i < k < i + ByteTable(s[i]) ==> IsTail(s[k])
  }

  lemma TextTail(s: string, n: nat)
    requires IsText(s) && n <= |s|
    ensures IsText(s[n..])
  {
    var t := s[n..];
    forall i | 0 <= i < |t| ensures 0 < t[i] as int < 0x100 && Continued(t, i) {
      assert t[i] == s[i + n] && Continued(s, i + n);
      forall k | i < k < i + ByteTable(t[i]) ensures IsTail(t[k]) {
        assert t[k] == s[k + n];
      }
    }
  }

  /** No hexadecimal reference opens anywhere in s: EncodeString would copy it instead of escaping it. */
  predicate NoHexReference(s: string)
  {
    forall i :: 0 <= i < |s| ==> !StartsHexReference(s[i..])
  }

  lemma NoHexReferenceTail(s: string, n: nat)
    requires n <= |s| && NoHexReference(s)
    ensures NoHexReference(s[n..])
  {
    forall i | 0 <= i < |s[n..]| ensures !StartsHexReference(s[n..][i..]) {
      assert s[n..][i..] == s[i + n..];
    }
  }

  /** A text as EncodeString writes it, character by character. */
  function GlyphsOf(s: string): (gs: seq<Glyph>)
    requires IsText(s)
    decreases |s|
  {
    if s == "" then []
    else
      var n := ByteTable(s[0]);
      assert Continued(s, 0);
      TextTail(s, n);
      [Glyph(if n == 1 then EncodedChar(s[0]) else s[..n], s[..n])] + GlyphsOf(s[n..])
  }

  /** Control characters are written as two-digit references that stand for them. */
  lemma ControlDigits(c: char)
    requires 0 < c as int < 32
    ensures IsReference(Glyph(EncodedChar(c), [c]))
  {
    var n := c as int;
    var ds := [HEX[n / 16], HEX[n % 16]];
    HexDigitOf(n / 16);
    HexDigitOf(n % 16);
    assert Value(ds, 0, 0, 16) == 0;
    assert Value(ds, 0, 1, 16) == n / 16;
    assert AllDigits(ds, 0, 2, 16) && Number(ds, 16) == n;
    assert EncodedChar(c) == "&#x" + ds + ";";
  }

  lemma HexDigitOf(d: nat)
    requires d < 16
    ensures HexDigit(HEX[d]) == d
  {
    assert HEX[10] == 'A' && HEX[11] == 'B' && HEX[12] == 'C' && HEX[13] == 'D' && HEX[14] == 'E' && HEX[15] == 'F';
    assert d < 10 ==> HEX[d] as int == '0' as int + d;
  }

  /** What is written for a character spells it, and is never a quote or an angle bracket; only the space is
      written as white space. */
  lemma CharSpelt(c: char)
    requires 0 < c as int < 0x100 && ByteTable(c) == 1
    ensures var g := Glyph(EncodedChar(c), [c]);
            Spells(g) && g.written[0] != '\"' && g.written[0] != '\'' && g.written[0] != '<' && g.written[0] != '>' &&
            (IsSpacing(g) <==> c == ' ') && !IsMark(g.written)
  {
    if c as int < 32 { ControlDigits(c); }
  }

  /** Escaped text is spelt glyph by glyph. */
  lemma {:induction false} EscapedIsSpelt(s: string, rest: string)
    requires IsText(s) && NoHexReference(s)
    ensures var gs := GlyphsOf(s);
            Encoded(s) + rest == Spelt(gs, rest) && Meant(gs) == s &&
            SpeltWithout(gs, '\"') && SpeltWithout(gs, '\'') && SpeltWithout(gs, '<')
    decreases |s|
  {
    hide Spells, IsText, NoHexReference, Encoded, EncodedChar;
    if s == "" {
      assert Encoded(s) + rest == rest by { EncodedNothing(); }
    } else {
      var g, t := FirstCharacter(s);
      EscapedIsSpelt(t, rest);
      Regroup(g.written, Encoded(t), rest);
      JoinFirst(s, g, t);
    }
  }

  lemma EncodedNothing()
    ensures Encoded("") == ""
  {
  }

  lemma JoinFirst(s: string, g: Glyph, t: string)
    requires IsText(s) && IsText(t) && GlyphsOf(s) == [g] + GlyphsOf(t) && s == g.meant + t
    ensures GlyphsOf(s)[0] == g && GlyphsOf(s)[1..] == GlyphsOf(t)
  {
  }

  /** The first character of a text, and what is left. */
  lemma FirstCharacter(s: string) returns (g: Glyph, t: string)
    requires IsText(s) && NoHexReference(s) && s != ""
    ensures |t| < |s| && IsText(t) && NoHexReference(t) && s == g.meant + t && GlyphsOf(s) == [g] + GlyphsOf(t)
    ensures Encoded(s) == g.written + Encoded(t) && Spells(g)
    ensures g.written[0] != '\"' && g.written[0] != '\'' && g.written[0] != '<' && g.written[0] != '>'
    ensures (IsSpacing(g) <==> s[0] == ' ') && (IsMark(g.written) <==> StartsWithMark(s))
    ensures |g.meant| == ByteTable(s[0]) && (s[0] == ' ' ==> |g.meant| == 1)
  {
    hide Spells, EncodedChar, IsText, NoHexReference, IsMark;
    g, t := GlyphsOf(s)[0], Rest(s);
    if ByteTable(s[0]) == 1 { FirstByte(s); } else { FirstSequence(s); }
  }

  /** The text after its first character. */
  function Rest(s: string): (t: string)
    requires IsText(s) && s != ""
    ensures ByteTable(s[0]) <= |s| && s == s[..ByteTable(s[0])] + t && |t| < |s| && IsText(t)
  {
    assert Continued(s, 0);
    TextTail(s, ByteTable(s[0]));
    s[ByteTable(s[0])..]
  }

  lemma FirstByte(s: string)
    requires IsText(s) && NoHexReference(s) && s != "" && ByteTable(s[0]) == 1
    ensures NoHexReference(Rest(s)) && Encoded(s) == EncodedChar(s[0]) + Encoded(Rest(s))
    ensures var g := Glyph(EncodedChar(s[0]), s[..1]);
            Spells(g) && g.written[0] != '\"' && g.written[0] != '\'' && g.written[0] != '<' && g.written[0] != '>' &&
            (IsSpacing(g) <==> s[0] == ' ') && !IsMark(g.written) && !StartsWithMark(s)
  {
    hide Spells, EncodedChar;
    NoHexReferenceTail(s, 1);
    assert s[0..] == s && s[..1] == [s[0]];
    CharSpelt(s[0]);
  }

  lemma FirstSequence(s: string)
    requires IsText(s) && NoHexReference(s) && s != "" && ByteTable(s[0]) > 1
    ensures var n := ByteTable(s[0]);
            n <= |s| && NoHexReference(Rest(s)) && Encoded(s) == s[..n] + Encoded(Rest(s)) &&
            Spells(Glyph(s[..n], s[..n])) && s[0] as int >= 0x80 && (IsMark(s[..n]) <==> StartsWithMark(s))
  {
    hide Spells, EncodedChar, Encoded, NoHexReference;
    var n := ByteTable(s[0]);
    assert Continued(s, 0);
    NoHexReferenceTail(s, n);
    EncodedTails(s, n);
    CharacterSpelt(s[..n]);
    assert StartsWithMark(s) ==> n == 3;
    assert n == 3 ==> s[..n] == s[..3];
  }

  lemma CharacterSpelt(c: string)
    requires c != "" && ByteTable(c[0]) == |c| > 1 && forall i :: 1 <= i < |c| ==> IsTail(c[i])
    ensures Spells(Glyph(c, c))
  {
    assert IsCharacter(c) && c != "&";
  }

  /** The bytes of a sequence are copied. */
  lemma {:induction false} EncodedTails(s: string, n: nat)
    requires n <= |s| && forall i :: 0 <= i < n ==> s[i] as int >= 0x80
    ensures Encoded(s) == s[..n] + Encoded(s[n..])
  {
    if n == 0 {
      assert s[0..] == s;
    } else {
      EncodedTails(s[1..], n - 1);
      assert [s[0]] + s[1..][..n - 1] == s[..n] && s[1..][n - 1..] == s[n..];
      Regroup([s[0]], s[1..][..n - 1], Encoded(s[n..]));
    }
  }

  /** Untrimmed reading up to a quote undoes escaping: attribute values survive unchanged. */
  lemma EscapeUndone(s: string, quote: char, rest: string)
    requires IsText(s) && NoHexReference(s)
    requires quote == '\"' || quote == '\''
    ensures Verbatim(Encoded(s) + ([quote] + rest), [quote]) == Some(Text(s, [quote] + rest))
  {
    EscapedIsSpelt(s, [quote] + rest);
    VerbatimRead(GlyphsOf(s), quote, [quote] + rest);
  }

  lemma {:induction false} CopiedTo(s: string, i: nat, n: nat)
    requires 1 <= i <= n < |s| && s[n] == ';' && forall k :: i <= k < n ==> s[k] != ';'
    ensures VerbatimFrom(s, i) == n
    decreases n - i
  {
    if i < n { CopiedTo(s, i + 1, n); }
  }

  /** A hexadecimal reference in a text is not escaped, so that it is read as what it refers to and not as it
      stands. */
  lemma HexReferenceIsCopied(ds: string, t: string, quote: char, rest: string)
    requires AllDigits(ds, 0, |ds|, 16) && Number(ds, 16) < 0x110000 && (quote == '\"' || quote == '\'')
    ensures var reference := "&#x" + ds + ";";
            Encoded(reference + t) == reference + Encoded(t) &&
            Verbatim(Encoded(reference + t) + ([quote] + rest), [quote]) ==
            Prefixed(Encoding(Number(ds, 16)), Verbatim(Encoded(t) + ([quote] + rest), [quote]))
  {
    var reference, tail := "&#x" + ds + ";", [quote] + rest;
    ReferenceEncoded(ds, t);
    hide Encoded, Encoding, Number;
    Regroup(reference, Encoded(t), tail);
    var p := Encoded(reference + t) + tail;
    assert p == reference + (Encoded(t) + tail) && p[0] == '&';
    GlyphRead(Glyph(reference, Encoding(Number(ds, 16))), Encoded(t) + tail);
  }

  lemma ReferenceEncoded(ds: string, t: string)
    requires AllDigits(ds, 0, |ds|, 16)
    ensures Encoded("&#x" + ds + ";" + t) == ("&#x" + ds + ";") + Encoded(t)
  {
    var s, n := "&#x" + ds + ";" + t, 3 + |ds|;
    assert forall k :: 3 <= k < n ==> s[k] == ds[k - 3];
    CopiedTo(s, 1, n);
    assert s[..n] == "&#x" + ds && s[n..][0] == ';' && s[n..][1..] == t;
    assert StartsHexReference(s) && VerbatimLength(s) == n;
    OneEncoded(s[n..]);
    Regroup("&#x" + ds, ";", Encoded(t));
    assert "&#x" + ds + ";" == ("&#x" + ds) + ";";
  }

  lemma OneEncoded(s: string)
    requires s != "" && s[0] == ';'
    ensures Encoded(s) == ";" + Encoded(s[1..])
  {
  }

  /** s without leading and trailing spaces and with every run of spaces inside reduced to one. */
  function Squeezed(s: string): (r: string)
    ensures |r| <= |s|
  {
    if s == "" then ""
    else if s[0] == ' ' then Squeezed(s[1..])
    else
      var tail := Squeezed(s[1..]);
      [s[0]] + (if tail != "" && s[1] == ' ' then " " else "") + tail
  }

  predicate LeadingSpace(s: string)
  {
    s != "" && s[0] == ' '
  }

  lemma SqueezedStep(s: string)
    requires s != "" && s[0] != ' '
    ensures Squeezed(s) == [s[0]] + (Owed(s[1..]) + Squeezed(s[1..]))
  {
    SqueezedUnfolds(s);
    hide Squeezed, Owed;
    Regroup([s[0]], Owed(s[1..]), Squeezed(s[1..]));
  }

  lemma SqueezedUnfolds(s: string)
    requires s != "" && s[0] != ' '
    ensures Squeezed(s) == [s[0]] + Owed(s[1..]) + Squeezed(s[1..])
  {
  }

  /** A character without spaces in front. */
  lemma {:induction false} SqueezedAfter(s: string, n: nat)
    requires 1 <= n <= |s| && forall i :: 0 <= i < n ==> s[i] != ' '
    ensures Squeezed(s) == s[..n] + (Owed(s[n..]) + Squeezed(s[n..]))
  {
    hide Squeezed;
    SqueezedStep(s);
    if n == 1 {
      assert s[..1] == [s[0]];
    } else {
      SqueezedAfter(s[1..], n - 1);
      assert s[1..][n - 1..] == s[n..] && [s[0]] + s[1..][..n - 1] == s[..n];
      Regroup([s[0]], s[1..][..n - 1], Owed(s[n..]) + Squeezed(s[n..]));
      assert Owed(s[1..]) == "" && "" + Squeezed(s[1..]) == Squeezed(s[1..]);
    }
  }

  /** The space owed before the rest of a text. */
  function Owed(s: string): string
  {
    if LeadingSpace(s) && Squeezed(s) != "" then " " else ""
  }

  lemma NoSpaces(s: string)
    requires IsText(s) && s != "" && s[0] != ' '
    ensures var n := ByteTable(s[0]); 1 <= n <= |s| && forall i :: 0 <= i < n ==> s[i] != ' '
    ensures StartsWithMark(s) ==> ByteTable(s[0]) == 3
  {
    assert Continued(s, 0);
  }

  lemma SpacingIsSpace(s: string)
    requires IsText(s) && NoHexReference(s)
    ensures GlyphsOf(s) != [] && IsSpacing(GlyphsOf(s)[0]) <==> LeadingSpace(s)
  {
    if s != "" { var g, t := FirstCharacter(s); }
  }

  /** Condensing an escaped text squeezes it. */
  lemma {:induction false} CondenseSqueezes(s: string)
    requires IsText(s) && NoHexReference(s)
    ensures Condense(GlyphsOf(s)) == Squeezed(s)
    ensures !StartsWithMark(Squeezed(s)) ==> Condense(Inner(GlyphsOf(s))) == Squeezed(s)
    decreases |s|
  {
    hide IsText, NoHexReference, GlyphsOf, Spells, IsMark, ByteTable;
    if s == "" {
      assert GlyphsOf(s) == [] by { NoGlyphs(); }
    } else {
      var g, t := FirstCharacter(s);
      JoinFirst(s, g, t);
      CondenseSqueezes(t);
      SpacingIsSpace(t);
      if s[0] == ' ' {
        assert s[1..] == t;
      } else {
        NoSpaces(s);
        SqueezedAfter(s, |g.meant|);
        assert s[..|g.meant|] == g.meant && s[|g.meant|..] == t;
        if IsMark(g.written) { assert Squeezed(s)[..3] == s[..3]; }
      }
    }
  }

  lemma NoGlyphs()
    ensures GlyphsOf("") == []
  {
  }

  /** Trimmed reading up to the next tag squeezes the spaces of an escaped text and keeps everything else,
      control characters included: they travel as references, which are not white space to the reader. */
  lemma EscapeSqueezed(s: string, rest: string)
    requires IsText(s) && NoHexReference(s) && !StartsWithMark(Squeezed(s))
    ensures Condensed(AfterSpace(Encoded(s) + ("<" + rest)), "<", false) == Some(Text(Squeezed(s), "<" + rest))
  {
    hide IsText, NoHexReference, Spells, GlyphsOf;
    EscapedIsSpelt(s, "<" + rest);
    TrimmedRead(GlyphsOf(s), "<" + rest);
    CondenseSqueezes(s);
  }

  /** What is between the spaces. */
  function Ink(s: string): string
  {
    if s == "" then "" else (if s[0] == ' ' then "" else [s[0]]) + Ink(s[1..])
  }

  /** Text without a leading, a trailing or a double space. */
  predicate IsSqueezed(s: string)
  {
    !LeadingSpace(s) && (s != "" ==> s[|s| - 1] != ' ') &&
    forall i :: 0 <= i < |s| - 1 ==> s[i] != ' ' || s[i + 1] != ' '
  }

  lemma InkOfWord(c: char, inner: string, tail: string)
    requires c != ' ' && (inner == "" || inner == " ")
    ensures Ink([c] + inner + tail) == [c] + Ink(tail)
  {
    assert ([c] + inner + tail)[1..] == inner + tail;
    assert inner == " " ==> (inner + tail)[1..] == tail;
    assert inner == "" ==> inner + tail == tail;
  }

  lemma {:induction false} SqueezedKeepsInk(s: string)
    ensures Ink(Squeezed(s)) == Ink(s)
  {
    if s != "" {
      SqueezedKeepsInk(s[1..]);
      if s[0] != ' ' {
        InkOfWord(s[0], Owed(s[1..]), Squeezed(s[1..]));
      }
    }
  }

  lemma {:induction false} SqueezedIsSqueezed(s: string)
    ensures IsSqueezed(Squeezed(s))
  {
    if s != "" {
      SqueezedIsSqueezed(s[1..]);
      if s[0] != ' ' {
        PrependSqueezed(s[0], Owed(s[1..]), Squeezed(s[1..]));
      }
    }
  }

  lemma PrependSqueezed(c: char, inner: string, tail: string)
    requires c != ' ' && IsSqueezed(tail) && (inner == "" || (inner == " " && tail != ""))
    ensures IsSqueezed([c] + inner + tail)
  {
    var r := [c] + inner + tail;
    var k := 1 + |inner|;
    assert forall i :: k <= i < |r| ==> r[i] == tail[i - k];
    assert inner == " " ==> r[1] == ' ';
  }

  lemma {:induction false} SqueezedFixpoint(s: string)
    requires IsSqueezed(s)
    ensures Squeezed(s) == s
  {
    if s != "" {
      var t := s[1..];
      if LeadingSpace(t) {
        assert t != " " && IsSqueezed(t[1..]) by { assert t[1..] == s[2..] && s[|s| - 1] != ' '; }
        SqueezedFixpoint(t[1..]);
        assert Squeezed(t) == Squeezed(t[1..]) && s == [s[0]] + " " + t[1..];
      } else {
        SqueezedFixpoint(t);
        assert s == [s[0]] + "" + t;
      }
    }
  }

  /** Text goes through the condensing reader unchanged exactly when it is squeezed already, and
      whatever goes through loses nothing but spaces. */
  lemma SqueezingChangesOnlySpaces(s: string)
    ensures Squeezed(s) == s <==> IsSqueezed(s)
    ensures Squeezed(Squeezed(s)) == Squeezed(s) && Ink(Squeezed(s)) == Ink(s)
  {
    SqueezedIsSqueezed(s);
    SqueezedKeepsInk(s);
    SqueezedFixpoint(Squeezed(s));
    if IsSqueezed(s) { SqueezedFixpoint(s); }
  }
}

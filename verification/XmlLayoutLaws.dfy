/** Every layout of an element tree is parsed to the tree: where the white space stands, which quotes are used
    and how the characters are spelt makes no difference. */
module XmlLayoutLaws {
  import opened Wrappers
  import opened XmlBase
  import opened XmlText
  import opened XmlSpellingLaws
  import opened XmlTree

  /* ------------------------------------------------------------------------- layouts ---- */

  /** White space and byte order marks. */
  predicate IsGap(g: string)
  {
    g == "" || (IsBlank(g[0]) && IsGap(g[1..])) || (|g| >= 3 && IsMark(g[..3]) && IsGap(g[3..]))
  }

  /** After a name, or a value without quotes, a gap begins with white space. */
  predicate IsBreak(g: string)
  {
    IsGap(g) && (g != "" ==> IsBlank(g[0]))
  }

  /** A value between quotes, or one without. */
  datatype LaidValue = Quoted(mark: char, glyphs: seq<Glyph>) | Bare(text: string)

  /** An attribute with the gap before it and the gaps around its equals sign. */
  datatype LaidAttribute = LaidAttribute(gap: string, name: string, before: string, after: string, value: LaidValue)

  /** A node with the gap before it. An element has a gap before the end of its first tag and one before its
      end tag, which it may do without when it has no children. */
  datatype Laid =
    | LaidText(gap: string, glyphs: seq<Glyph>)
    | LaidElement(gap: string, name: string, attributes: seq<LaidAttribute>, close: string, children: seq<Laid>,
                  end: string, selfClosing: bool)

  /** The text of a layout, followed by `rest`. */
  function LaidOut(node: Laid, rest: string): string
    decreases node, 0
  {
    match node
    case LaidText(gap, glyphs) => gap + Spelt(glyphs, rest)
    case LaidElement(gap, name, attributes, close, children, end, selfClosing) =>
      gap + ("<" + (name + LaidAttributes(attributes, close +
        if selfClosing then "/>" + rest else ">" + LaidAll(children, end + Ending(name, rest)))))
  }

  function LaidAll(nodes: seq<Laid>, rest: string): string
    decreases nodes, 1
  {
    if nodes == [] then rest else LaidOut(nodes[0], LaidAll(nodes[1..], rest))
  }

  function Ending(name: string, rest: string): (r: string)
    ensures |r| >= 2 && r[0] == '<' && r[1] == '/'
  {
    "</" + (name + (">" + rest))
  }

  function LaidAttributes(attributes: seq<LaidAttribute>, rest: string): string
  {
    if attributes == [] then rest
    else attributes[0].gap + AttributeText(attributes[0], LaidAttributes(attributes[1..], rest))
  }

  function AttributeText(a: LaidAttribute, rest: string): string
  {
    a.name + (a.before + ("=" + (a.after + ValueText(a.value, rest))))
  }

  function ValueText(v: LaidValue, rest: string): string
  {
    match v
    case Quoted(mark, glyphs) => [mark] + Spelt(glyphs, [mark] + rest)
    case Bare(text) => text + rest
  }

  /* ------------------------------------------------------------------ what they stand for ---- */

  function AttributeOf(a: LaidAttribute): Attribute
  {
    Attribute(a.name, if a.value.Quoted? then Meant(a.value.glyphs) else a.value.text)
  }

  function AttributesOf(attributes: seq<LaidAttribute>): (r: seq<Attribute>)
    ensures |r| == |attributes| && forall i :: 0 <= i < |r| ==> r[i] == AttributeOf(attributes[i])
  {
    seq(|attributes|, i requires 0 <= i < |attributes| => AttributeOf(attributes[i]))
  }

  /** The tree that a layout stands for. A text of nothing but white space is dropped, even where the white
      space is referred to. */
  function TreeOf(node: Laid): (t: Node)
    ensures t.Element? <==> node.LaidElement?
    decreases node, 0
  {
    match node
    case LaidText(gap, glyphs) => TextNode(Condense(Inner(glyphs)))
    case LaidElement(gap, name, attributes, close, children, end, selfClosing) =>
      Element(name, AttributesOf(attributes), TreesOf(children))
  }

  function TreesOf(nodes: seq<Laid>): seq<Node>
    decreases nodes, 1
  {
    if nodes == [] then [] else Kept(TreeOf(nodes[0])) + TreesOf(nodes[1..])
  }

  function Kept(t: Node): seq<Node>
  {
    if t.TextNode? && (forall i :: 0 <= i < |t.value| ==> IsBlank(t.value[i])) then [] else [t]
  }

  /* ------------------------------------------------------------------- which are laid out ---- */

  /** A name that is not taken for a byte order mark. */
  predicate IsPlainName(s: string)
  {
    IsName(s) && !StartsWithMark(s) && forall i :: 0 <= i < |s| ==> s[i] as int < 0x100
  }

  predicate IsBare(s: string)
  {
    s != "" && !StartsWithMark(s) &&
    forall i :: 0 <= i < |s| ==>
      !IsBlank(s[i]) && s[i] != '/' && s[i] != '>' && s[i] != '\'' && s[i] != '\"' && 0 < s[i] as int < 0x100
  }

  ghost predicate IsLaidAttribute(a: LaidAttribute)
  {
    IsGap(a.gap) && IsPlainName(a.name) && IsBreak(a.before) && IsGap(a.after) &&
    match a.value
    case Quoted(mark, glyphs) => (mark == '\'' || mark == '\"') && SpeltWithout(glyphs, mark)
    case Bare(text) => IsBare(text)
  }

  /** The attributes are layouts. White space stands before each, unless a quoted value stands there. */
  ghost predicate AreLaidAttributes(attributes: seq<LaidAttribute>, quoted: bool)
  {
    forall i :: 0 <= i < |attributes| ==> IsLaidAttribute(attributes[i]) && IsApart(attributes, quoted, i)
  }

  predicate IsApart(attributes: seq<LaidAttribute>, quoted: bool, i: nat)
    requires i < |attributes|
  {
    LastQuoted(attributes[..i], quoted) || (attributes[i].gap != "" && IsBreak(attributes[i].gap))
  }

  /** Does a quoted value stand last, behind the attributes or, if there are none, before them? */
  predicate LastQuoted(attributes: seq<LaidAttribute>, quoted: bool)
  {
    if attributes == [] then quoted else attributes[|attributes| - 1].value.Quoted?
  }

  /** The layouts of trees: white space after a text belongs to the text, so the tag behind a text has no gap.
      Attribute names may repeat. */
  ghost predicate IsLaid(node: Laid)
  {
    match node
    case LaidText(gap, glyphs) => IsGap(gap) && SpeltWithout(glyphs, '<') && Inner(glyphs) != []
    case LaidElement(gap, name, attributes, close, children, end, selfClosing) =>
      IsGap(gap) && IsPlainName(name) && AreLaidAttributes(attributes, false) &&
      IsGap(close) && (LastQuoted(attributes, false) || IsBreak(close)) &&
      (selfClosing ==> children == []) && AreLaid(children, end)
  }

  /** The nodes are layouts, and so is the gap behind them. */
  ghost predicate AreLaid(nodes: seq<Laid>, end: string)
  {
    IsGap(end) && forall i :: 0 <= i < |nodes| ==> IsLaid(nodes[i]) && TagBehind(nodes, i, end)
  }

  /** A text is followed by a tag. */
  predicate TagBehind(nodes: seq<Laid>, i: nat, end: string)
    requires i < |nodes|
  {
    nodes[i].LaidText? ==>
      if i + 1 < |nodes| then nodes[i + 1].LaidElement? && nodes[i + 1].gap == "" else end == ""
  }

  predicate DistinctNames(attributes: seq<Attribute>)
  {
    forall i, j :: 0 <= i < j < |attributes| ==> attributes[i].name != attributes[j].name
  }

  /** No element of the layout has two attributes of one name. */
  predicate LaidDistinct(node: Laid)
  {
    node.LaidElement? ==> DistinctNames(AttributesOf(node.attributes)) && LaidDistinctIn(node.children)
  }

  predicate LaidDistinctIn(nodes: seq<Laid>)
  {
    forall i :: 0 <= i < |nodes| ==> LaidDistinct(nodes[i])
  }

  /* --------------------------------------------------------------------------- gaps ---- */

  lemma {:induction false} GapSkipped(g: string, rest: string)
    requires IsGap(g)
    ensures AfterSpace(g + rest) == AfterSpace(rest)
  {
    if g == "" {
      assert g + rest == rest;
    } else if IsBlank(g[0]) {
      assert (g + rest)[1..] == g[1..] + rest;
      GapSkipped(g[1..], rest);
    } else {
      assert (g + rest)[..3] == g[..3] && (g + rest)[3..] == g[3..] + rest;
      assert g[..3][1] == g[1] && g[..3][2] == g[2];
      GapSkipped(g[3..], rest);
    }
  }

  /** Where neither white space nor a mark stands nothing is skipped. */
  lemma NothingSkipped(p: string)
    requires p != "" ==> !IsBlank(p[0]) && (p[0] as int < 0x80 || !StartsWithMark(p))
    ensures AfterSpace(p) == p
  {
    if |p| >= 3 { assert p[..3][0] == p[0] && p[..3][1] == p[1] && p[..3][2] == p[2]; }
  }

  lemma GapBefore(g: string, p: string)
    requires IsGap(g)
    requires p != "" && !IsBlank(p[0]) && (p[0] as int < 0x80 || !StartsWithMark(p))
    ensures AfterSpace(g + p) == p
  {
    GapSkipped(g, p);
    NothingSkipped(p);
  }

  /** A name is not skipped, whatever follows that does not continue it. */
  lemma NameStays(s: string, more: string)
    requires IsPlainName(s) && (more == "" || !IsNameChar(more[0]))
    ensures var p := s + more; p != "" && !IsBlank(p[0]) && !StartsWithMark(p) && IsNameStart(p[0])
    ensures NameAt(s + more) == Some((s, more))
  {
    NameReadBack(s, more);
    MarkWithin(s, more);
  }

  /** A mark at the start lies within the first part when the second does not begin with a byte of it. */
  lemma MarkWithin(s: string, more: string)
    requires s != "" && !StartsWithMark(s) && (more == "" || more[0] as int < 0x80)
    ensures !StartsWithMark(s + more)
  {
    var p := s + more;
    if |p| >= 3 {
      assert p[..3][0] == p[0] == s[0] && p[..3][1] == p[1] && p[..3][2] == p[2];
      if |s| >= 3 { assert p[..3] == s[..3]; }
    }
  }

  /** What can follow a value: white space or the end of the tag. */
  predicate EndsValue(rest: string)
  {
    rest != "" && (IsBlank(rest[0]) || rest[0] == '/' || rest[0] == '>')
  }

  /** What follows the attributes of a tag, or a value in them. */
  predicate Follows(rest: string, quoted: bool)
  {
    rest != "" && (quoted || EndsValue(rest))
  }

  lemma BreakEnds(g: string, rest: string)
    requires IsBreak(g) && (g == "" ==> EndsValue(rest))
    ensures EndsValue(g + rest) && !IsNameChar((g + rest)[0]) && (g + rest)[0] as int < 0x80
  {
    if g == "" { assert g + rest == rest; }
  }

  /* --------------------------------------------------------------------- attributes ---- */

  lemma {:induction false} BareRead(name: string, done: string, text: string, rest: string)
    requires EndsValue(rest)
    requires forall i :: 0 <= i < |text| ==>
               !IsBlank(text[i]) && text[i] != '/' && text[i] != '>' && text[i] != '\'' && text[i] != '\"'
    ensures UnquotedValue(name, done, text + rest) == Parsed(Attribute(name, done + text), rest)
    decreases |text|
  {
    if text == "" {
      assert text + rest == rest && done + text == done;
    } else {
      assert (text + rest)[1..] == text[1..] + rest;
      BareRead(name, done + [text[0]], text[1..], rest);
      assert done + [text[0]] + text[1..] == done + text;
    }
  }

  lemma QuotedRead(name: string, mark: char, glyphs: seq<Glyph>, rest: string)
    requires (mark == '\'' || mark == '\"') && SpeltWithout(glyphs, mark)
    ensures QuotedValue(name, [mark] + Spelt(glyphs, [mark] + rest)) == Parsed(Attribute(name, Meant(glyphs)), rest)
  {
    hide SpeltWithout, Spelt, Verbatim;
    var p := [mark] + Spelt(glyphs, [mark] + rest);
    assert p[1..] == Spelt(glyphs, [mark] + rest) && p[..1] == [mark] && ([mark] + rest)[1..] == rest;
    VerbatimRead(glyphs, mark, [mark] + rest);
  }

  /** An attribute is read to what it stands for, and what follows it is left. */
  lemma AttributeRead(a: LaidAttribute, rest: string)
    requires IsLaidAttribute(a) && Follows(rest, a.value.Quoted?)
    ensures var p := AttributeText(a, rest);
            p != "" && !IsBlank(p[0]) && !StartsWithMark(p) && IsNameStart(p[0]) &&
            AttributeAt(p) == Parsed(AttributeOf(a), rest)
  {
    hide IsPlainName, IsBare, IsGap, SpeltWithout, Spelt, Verbatim, UnquotedValue, QuotedValue, AttributeAt;
    hide StartsWithMark;
    var v := ValueText(a.value, rest);
    ValueStays(a, rest);
    AttributeParts(a.name, a.before, a.after, v);
    if a.value.Quoted? {
      QuotedRead(a.name, a.value.mark, a.value.glyphs, rest);
    } else {
      BareStays(a.name, a.value.text, rest);
    }
  }

  /** The name, the equals sign and the beginning of the value. */
  lemma AttributeParts(name: string, before: string, after: string, v: string)
    requires IsPlainName(name) && IsBreak(before) && IsGap(after)
    requires v != "" && !IsBlank(v[0]) && (v[0] as int < 0x80 || !StartsWithMark(v))
    ensures var p := name + (before + ("=" + (after + v)));
            p != "" && !IsBlank(p[0]) && !StartsWithMark(p) && IsNameStart(p[0]) &&
            AttributeAt(p) ==
            if v[0] == '\'' || v[0] == '\"' then QuotedValue(name, v) else UnquotedValue(name, "", v)
  {
    hide IsPlainName, IsGap, StartsWithMark, NameAt, AfterSpace, UnquotedValue, QuotedValue;
    var equals := "=" + (after + v);
    GapBefore(before, equals);
    assert equals[1..] == after + v;
    GapBefore(after, v);
    BreakBefore(before, equals);
    NameStays(name, before + equals);
    NothingSkipped(name + (before + equals));
  }

  lemma BreakBefore(g: string, p: string)
    requires IsBreak(g) && p != "" && p[0] == '='
    ensures g + p != "" && !IsNameChar((g + p)[0])
  {
  }

  lemma BareStays(name: string, text: string, rest: string)
    requires IsBare(text) && EndsValue(rest)
    ensures UnquotedValue(name, "", text + rest) == Parsed(Attribute(name, text), rest)
  {
    BareRead(name, "", text, rest);
    assert "" + text == text;
  }

  /** The value is not skipped. */
  lemma ValueStays(a: LaidAttribute, rest: string)
    requires IsLaidAttribute(a) && Follows(rest, a.value.Quoted?)
    ensures var v := ValueText(a.value, rest);
            v != "" && !IsBlank(v[0]) && (v[0] as int < 0x80 || !StartsWithMark(v)) &&
            (v[0] == '\'' || v[0] == '\"' <==> a.value.Quoted?)
  {
    hide IsGap, IsPlainName, SpeltWithout, Spelt;
    if a.value.Bare? {
      MarkWithin(a.value.text, rest);
      assert (a.value.text + rest)[0] == a.value.text[0];
    }
  }

  lemma AttributesEnd(attributes: seq<LaidAttribute>, quoted: bool, rest: string)
    requires AreLaidAttributes(attributes, quoted) && Follows(rest, LastQuoted(attributes, quoted))
    ensures Follows(LaidAttributes(attributes, rest), quoted)
  {
    if attributes != [] {
      assert IsLaidAttribute(attributes[0]) && IsApart(attributes, quoted, 0) && attributes[..0] == [];
      var gap, more := attributes[0].gap, AttributeText(attributes[0], LaidAttributes(attributes[1..], rest));
      assert gap != "" ==> (gap + more)[0] == gap[0];
    }
  }

  /** The attributes behind the first. */
  lemma AttributesTail(attributes: seq<LaidAttribute>, quoted: bool)
    requires attributes != [] && AreLaidAttributes(attributes, quoted)
    ensures IsLaidAttribute(attributes[0]) && AreLaidAttributes(attributes[1..], attributes[0].value.Quoted?)
    ensures LastQuoted(attributes[1..], attributes[0].value.Quoted?) == LastQuoted(attributes, quoted)
  {
    hide IsLaidAttribute, IsBreak;
    var a, t := attributes[0].value.Quoted?, attributes[1..];
    assert IsLaidAttribute(attributes[0]);
    forall i | 0 <= i < |t| ensures IsLaidAttribute(t[i]) && IsApart(t, a, i) {
      assert IsLaidAttribute(attributes[i + 1]) && IsApart(attributes, quoted, i + 1);
      if i > 0 { assert t[..i][i - 1] == attributes[..i + 1][i]; } else { assert attributes[..1][0] == attributes[0]; }
    }
  }

  /** One round of the attribute loop. */
  lemma TagStep(name: string, done: seq<Attribute>, a: LaidAttribute, rest: string)
    requires IsLaidAttribute(a) && Follows(rest, a.value.Quoted?)
    ensures TagAt(name, done, a.gap + AttributeText(a, rest)) ==
            if HasAttribute(done, a.name) then Failed(NoError) else TagAt(name, done + [AttributeOf(a)], rest)
  {
    AttributeRead(a, rest);
    assert IsGap(a.gap);
    hide IsLaidAttribute, AttributeText, IsGap, AttributeAt, AfterSpace, StartsWithMark, HasAttribute, Follows, ValueAt;
    hide Closed, IsBlank;
    var q := AttributeText(a, rest);
    assert q[0] != '/' && q[0] != '>';
    hide IsNameStart;
    GapBefore(a.gap, q);
    AttributeInTag(name, done, a.gap + q, q, AttributeOf(a), rest);
  }

  lemma AttributeInTag(name: string, done: seq<Attribute>, p: string, q: string, a: Attribute, rest: string)
    requires AfterSpace(p) == q && q != "" && q[0] != '/' && q[0] != '>'
    requires AttributeAt(q) == Parsed(a, rest) && rest != ""
    ensures TagAt(name, done, p) ==
            if HasAttribute(done, a.name) then Failed(NoError) else TagAt(name, done + [a], rest)
  {
    hide AfterSpace, AttributeAt, HasAttribute;
  }

  /** The attribute loop takes in the attributes one after the other, up to the first name it has seen: there it
      gives up and records no error. */
  lemma {:induction false} AttributesRead(name: string, done: seq<Attribute>, attributes: seq<LaidAttribute>,
        quoted: bool, rest: string)
    requires AreLaidAttributes(attributes, quoted) && Follows(rest, LastQuoted(attributes, quoted))
    requires DistinctNames(done)
    ensures TagAt(name, done, LaidAttributes(attributes, rest)) ==
            if DistinctNames(done + AttributesOf(attributes)) then TagAt(name, done + AttributesOf(attributes), rest)
            else Failed(NoError)
    decreases attributes
  {
    hide IsLaidAttribute, AreLaidAttributes, AttributeText, TagAt, Follows, LastQuoted;
    if attributes == [] {
      assert done + AttributesOf(attributes) == done;
    } else {
      var a := attributes[0];
      AttributesTail(attributes, quoted);
      AttributesEnd(attributes[1..], a.value.Quoted?, rest);
      TagStep(name, done, a, LaidAttributes(attributes[1..], rest));
      NextName(done, attributes);
      if !HasAttribute(done, a.name) {
        AttributesRead(name, done + [AttributeOf(a)], attributes[1..], a.value.Quoted?, rest);
      }
    }
  }

  lemma NextName(done: seq<Attribute>, attributes: seq<LaidAttribute>)
    requires attributes != [] && DistinctNames(done)
    ensures var a := AttributeOf(attributes[0]);
            (done + [a]) + AttributesOf(attributes[1..]) == done + AttributesOf(attributes) &&
            (HasAttribute(done, a.name) ==> !DistinctNames(done + AttributesOf(attributes))) &&
            (!HasAttribute(done, a.name) ==> DistinctNames(done + [a]))
  {
    AttributesOfFirst(attributes);
    hide AttributesOf, AttributeOf, DistinctNames, HasAttribute;
    var a, more := AttributeOf(attributes[0]), AttributesOf(attributes[1..]);
    Associate(done, [a], more);
    NameSeen(done, a, more);
  }

  lemma AttributesOfFirst(attributes: seq<LaidAttribute>)
    requires attributes != []
    ensures AttributesOf(attributes) == [AttributeOf(attributes[0])] + AttributesOf(attributes[1..])
  {
  }

  lemma Associate<T>(a: seq<T>, b: seq<T>, c: seq<T>)
    ensures a + (b + c) == (a + b) + c
  {
  }

  lemma NameSeen(done: seq<Attribute>, a: Attribute, more: seq<Attribute>)
    requires DistinctNames(done)
    ensures HasAttribute(done, a.name) ==> !DistinctNames(done + ([a] + more))
    ensures !HasAttribute(done, a.name) ==> DistinctNames(done + [a])
  {
    var all := done + ([a] + more);
    if HasAttribute(done, a.name) {
      var i :| 0 <= i < |done| && done[i].name == a.name;
      assert all[i] == done[i] && all[|done|] == a;
    }
  }

  /* ------------------------------------------------------------------------ elements ---- */

  /** The name and the attributes of an element, up to what follows its last attribute. */
  lemma HeadRead(gap: string, name: string, attributes: seq<LaidAttribute>, rest: string)
    requires IsGap(gap) && IsPlainName(name) && AreLaidAttributes(attributes, false)
    requires Follows(rest, LastQuoted(attributes, false))
    ensures var p := gap + ("<" + (name + LaidAttributes(attributes, rest)));
            ElementAt(p) == if DistinctNames(AttributesOf(attributes)) then TagAt(name, AttributesOf(attributes), rest)
                            else Failed(NoError)
  {
    hide AreLaidAttributes, LaidAttributes, TagAt, IsPlainName, IsGap, ElementAt;
    AttributesEnd(attributes, false, rest);
    AttributesRead(name, [], attributes, false, rest);
    assert [] + AttributesOf(attributes) == AttributesOf(attributes);
    NameFirst(gap, name, LaidAttributes(attributes, rest));
  }

  lemma NameFirst(gap: string, name: string, tail: string)
    requires IsGap(gap) && IsPlainName(name) && EndsValue(tail)
    ensures ElementAt(gap + ("<" + (name + tail))) == TagAt(name, [], tail)
  {
    hide TagAt, IsPlainName, IsGap, AfterSpace, NameAt, StartsWithMark;
    NameStays(name, tail);
    NothingSkipped(name + tail);
    var p := "<" + (name + tail);
    assert p[1..] == name + tail;
    GapBefore(gap, p);
  }

  lemma TagCloses(name: string, attributes: seq<Attribute>, close: string, rest: string)
    requires IsGap(close)
    ensures TagAt(name, attributes, close + ("/>" + rest)) == Parsed(Element(name, attributes, []), rest)
  {
    var q := "/>" + rest;
    GapBefore(close, q);
    assert q[2..] == rest;
  }

  lemma TagOpens(name: string, attributes: seq<Attribute>, close: string, value: string)
    requires IsGap(close)
    ensures TagAt(name, attributes, close + (">" + value)) == Closed(name, attributes, ValueAt(value, []))
  {
    hide ValueAt, Closed;
    var q := ">" + value;
    GapBefore(close, q);
    assert q[1..] == value;
  }

  /** The end tag ends the element, and a tag of another name does not. */
  lemma EndTagRead(name: string, attributes: seq<Attribute>, children: seq<Node>, rest: string)
    ensures Closed(name, attributes, Parsed(children, Ending(name, rest))) ==
            Parsed(Element(name, attributes, children), rest)
  {
    var q, e := Ending(name, rest), EndTag(name);
    assert q == e + rest by {
      Regroup(name, ">", rest);
      Regroup("</", name + ">", rest);
      Regroup("</", name, ">");
    }
    assert e <= q && q[|e|..] == rest;
  }

  /** A value ends at an end tag. Where the text ends instead there is no value, unless white space stands there. */
  lemma ValueEnds(end: string, children: seq<Node>, rest: string)
    requires IsGap(end)
    ensures |rest| >= 2 && rest[0] == '<' && rest[1] == '/' ==> ValueAt(end + rest, children) == Parsed(children, rest)
    ensures rest == "" ==>
              ValueAt(end + rest, children) == if end == "" then Failed(ReadingElementValue) else Parsed(children, "")
  {
    if |rest| >= 2 && rest[0] == '<' && rest[1] == '/' {
      GapBefore(end, rest);
      assert "</" <= rest;
    }
    GapSkipped(end, rest);
  }

  /** What comes of reading a layout. */
  function Outcome(node: Laid, rest: string): Parsed<Node>
    requires node.LaidElement?
  {
    if LaidDistinct(node) then Parsed(TreeOf(node), rest)
    else if !DistinctNames(AttributesOf(node.attributes)) then Failed(NoError)
    else Failed(ReadingElementValue)
  }

  /** Where an element is laid out, reading a value reads the element. */
  lemma ChildStep(n: Laid, more: string, done: seq<Node>)
    requires n.LaidElement? && IsLaid(n)
    ensures var p := LaidOut(n, more);
            var r := ElementAt(p);
            ValueAt(p, done) ==
            if r.Failed? then Failed(Also(r.error, ReadingElementValue)) else ValueAt(r.rest, done + [r.value])
  {
    var p := LaidOut(n, more);
    var q := p[|n.gap|..];
    assert p == n.gap + q && q[0] == '<' && q[1] == n.name[0];
    GapBefore(n.gap, q);
    NothingSkipped(q);
    ElementIdentified(q);
    hide LaidOut, IsLaid;
    assert ElementAt(p) == ElementAt(q);
    hide ElementAt;
  }

  /** An element that is being identified is recognised as one. */
  lemma ElementIdentified(p: string)
    requires |p| >= 2 && p[0] == '<' && IsNameStart(p[1])
    ensures IdentifiesElement(p) && !StringEqual(p, "</")
  {
    assert Lower(p)[1] == ToLower(p[1]);
    assert "<?xml"[1] == '?' && "<!"[1] == '!' && "</"[1] == '/';
  }

  /** What follows a text is a tag, the next element's or what stands behind the children. */
  lemma NextIsTag(nodes: seq<Laid>, end: string, rest: string)
    requires AreLaid(nodes, end) && nodes != [] && nodes[0].LaidText? && (rest == "" || rest[0] == '<')
    ensures var more := LaidAll(nodes[1..], end + rest); more == "" || more[0] == '<'
  {
    assert TagBehind(nodes, 0, end);
    if |nodes| > 1 {
      assert nodes[1..][0] == nodes[1];
      hide LaidAttributes, Ending;
      var n := nodes[1];
      assert LaidOut(n, LaidAll(nodes[1..][1..], end + rest))[0] == '<';
    } else {
      assert end + rest == rest;
    }
  }

  /** Reading a value where a text begins. */
  lemma TextFirst(p: string, q: string, text: Text, done: seq<Node>)
    requires p != "" && AfterSpace(p) == q && q != "" && q[0] != '<' && Condensed(q, "<", false) == Some(text)
    ensures ValueAt(p, done) == ValueAt(text.rest, if Blank(text.value) then done else done + [TextNode(text.value)])
  {
    hide AfterSpace, Condensed, Blank;
  }

  lemma TextStep(n: Laid, more: string, done: seq<Node>)
    requires n.LaidText? && IsLaid(n) && (more == "" || more[0] == '<')
    ensures ValueAt(LaidOut(n, more), done) == ValueAt(more, done + Kept(TreeOf(n)))
  {
    hide Spelt, Condense, Inner, Condensed, IsGap, ValueAt, AfterSpace, SpeltWithout, TreeOf, Kept, Blank;
    var gs := n.glyphs;
    InnerSpelt(gs, '<');
    FirstIsNoTag(Inner(gs), more);
    GapSkipped(n.gap, Spelt(gs, more));
    LeadingSkipped(gs, more);
    TrimmedRead(gs, more);
    BlankIsDropped(n);
    assert done + [] == done;
    SomethingThere(n, more);
    TextFirst(LaidOut(n, more), Spelt(Inner(gs), more), Text(Condense(Inner(gs)), more), done);
  }

  lemma SomethingThere(n: Laid, more: string)
    requires n.LaidText? && IsLaid(n)
    ensures LaidOut(n, more) != ""
  {
    assert n.glyphs != [];
    SpacingStarts(n.glyphs[0], "");
  }

  lemma FirstIsNoTag(gs: seq<Glyph>, rest: string)
    requires SpeltWithout(gs, '<') && gs != []
    ensures var q := Spelt(gs, rest); q != "" && q[0] != '<'
  {
    SpacingStarts(gs[0], Spelt(gs[1..], rest));
    assert (gs[0].written + Spelt(gs[1..], rest))[0] == gs[0].written[0];
  }

  lemma BlankIsDropped(n: Laid)
    requires n.LaidText?
    ensures var value := Condense(Inner(n.glyphs));
            Kept(TreeOf(n)) == if Blank(value) then [] else [TextNode(value)]
  {
  }

  lemma CloseFollows(node: Laid, tag: string)
    requires node.LaidElement? && IsLaid(node) && tag != "" && (tag[0] == '/' || tag[0] == '>')
    ensures IsGap(node.gap) && IsPlainName(node.name) && AreLaidAttributes(node.attributes, false) && IsGap(node.close)
    ensures Follows(node.close + tag, LastQuoted(node.attributes, false))
  {
    hide AreLaidAttributes, IsPlainName, AreLaid;
    if IsBreak(node.close) { BreakEnds(node.close, tag); }
    assert node.close + tag != "";
  }

  /** The first tag of a layout. */
  lemma FirstTagRead(node: Laid, rest: string)
    requires node.LaidElement? && IsLaid(node)
    ensures var attributes := AttributesOf(node.attributes);
            ElementAt(LaidOut(node, rest)) ==
            if !DistinctNames(attributes) then Failed(NoError)
            else if node.selfClosing then Parsed(Element(node.name, attributes, []), rest)
            else Closed(node.name, attributes,
                        ValueAt(LaidAll(node.children, node.end + Ending(node.name, rest)), []))
  {
    var LaidElement(gap, name, attributes, close, children, end, selfClosing) := node;
    var value := LaidAll(children, end + Ending(name, rest));
    var tag := if selfClosing then "/>" + rest else ">" + value;
    assert LaidOut(node, rest) == gap + ("<" + (name + LaidAttributes(attributes, close + tag)));
    CloseFollows(node, tag);
    hide LaidOut, IsLaid, LaidAll, LaidAttributes, TagAt, ValueAt, Closed, Ending, ElementAt, IsGap, IsPlainName;
    hide AreLaidAttributes, DistinctNames, Follows, LastQuoted;
    HeadRead(gap, name, attributes, close + tag);
    if selfClosing {
      TagCloses(name, AttributesOf(attributes), close, rest);
    } else {
      TagOpens(name, AttributesOf(attributes), close, value);
    }
  }

  /** Parsing a layout returns its tree and leaves what follows, if and only if no element repeats an attribute
      name. A repetition in the element itself returns null and records no error; one further below ends in an
      error that speaks of the value of an element. */
  lemma {:induction false} LayoutRead(node: Laid, rest: string)
    requires node.LaidElement? && IsLaid(node)
    ensures ElementAt(LaidOut(node, rest)) == Outcome(node, rest)
    decreases node, 0
  {
    hide IsLaid, LaidOut, LaidAll, ElementAt, ValueAt, Ending, AttributesOf, DistinctNames, TreesOf, LaidDistinctIn;
    FirstTagRead(node, rest);
    LaidParts(node);
    if !node.selfClosing {
      ChildrenRead(node.children, [], node.end, Ending(node.name, rest));
      ValueEnds(node.end, TreesOf(node.children), Ending(node.name, rest));
      EndTagRead(node.name, AttributesOf(node.attributes), TreesOf(node.children), rest);
    }
  }

  lemma LaidParts(node: Laid)
    requires node.LaidElement? && IsLaid(node)
    ensures AreLaid(node.children, node.end) && [] + TreesOf(node.children) == TreesOf(node.children)
    ensures node.selfClosing ==> TreesOf(node.children) == [] && LaidDistinctIn(node.children)
  {
  }

  lemma FirstIsLaid(nodes: seq<Laid>, end: string)
    requires AreLaid(nodes, end) && nodes != []
    ensures IsLaid(nodes[0]) && AreLaid(nodes[1..], end)
  {
    var t := nodes[1..];
    assert IsLaid(nodes[0]);
    forall i | 0 <= i < |t| ensures IsLaid(t[i]) && TagBehind(t, i, end) {
      assert IsLaid(nodes[i + 1]) && TagBehind(nodes, i + 1, end);
    }
  }

  /** The children of an element are read in order up to what stands behind them. */
  lemma {:induction false} ChildrenRead(nodes: seq<Laid>, done: seq<Node>, end: string, rest: string)
    requires AreLaid(nodes, end)
    requires rest == "" || rest[0] == '<'
    ensures ValueAt(LaidAll(nodes, end + rest), done) ==
            if LaidDistinctIn(nodes) then ValueAt(end + rest, done + TreesOf(nodes)) else Failed(ReadingElementValue)
    decreases nodes, 1
  {
    if nodes == [] {
      assert done + TreesOf(nodes) == done;
    } else {
      var n, more := nodes[0], LaidAll(nodes[1..], end + rest);
      FirstIsLaid(nodes, end);
      TreesOfFirst(done, nodes);
      hide IsLaid, LaidOut, ElementAt, ValueAt, AfterSpace, IsGap, TreesOf, TreeOf, Kept, AreLaid;
      if n.LaidElement? {
        LayoutRead(n, more);
        ChildStep(n, more, done);
        if LaidDistinct(n) { ChildrenRead(nodes[1..], done + [TreeOf(n)], end, rest); }
      } else {
        NextIsTag(nodes, end, rest);
        TextStep(n, more, done);
        ChildrenRead(nodes[1..], done + Kept(TreeOf(n)), end, rest);
      }
    }
  }

  lemma TreesOfFirst(done: seq<Node>, nodes: seq<Laid>)
    requires nodes != []
    ensures done + TreesOf(nodes) == (done + Kept(TreeOf(nodes[0]))) + TreesOf(nodes[1..])
    ensures nodes[0].LaidElement? ==> Kept(TreeOf(nodes[0])) == [TreeOf(nodes[0])]
  {
    hide TreeOf;
    Associate(done, Kept(TreeOf(nodes[0])), TreesOf(nodes[1..]));
  }

  /* ------------------------------------------------------------------------ refusals ---- */

  /** Neither white space nor a mark stands at the start. */
  predicate Stands(p: string)
  {
    p != "" ==> !IsBlank(p[0]) && !StartsWithMark(p)
  }

  lemma GapStands(gap: string, p: string)
    requires IsGap(gap) && Stands(p)
    ensures AfterSpace(gap + p) == p
  {
    GapSkipped(gap, p);
    NothingSkipped(p);
  }

  /** What does not begin with a tag is no element, and what does not begin with a name is no tag. */
  lemma NoElement(gap: string, open: string, p: string)
    requires IsGap(gap) && IsGap(open) && Stands(p)
    ensures p == "" || p[0] != '<' ==> ElementAt(gap + p) == Failed(ParsingElement)
    ensures p == "" || !IsNameStart(p[0]) ==> ElementAt(gap + ("<" + (open + p))) == Failed(FailedToReadElementName)
  {
    hide IsGap, IsBlank, StartsWithMark;
    GapStands(gap, p);
    var q := "<" + (open + p);
    assert q[1..] == open + p;
    GapBefore(gap, q) by { TagStands(q); }
    GapStands(open, p);
  }

  lemma TagStands(q: string)
    requires q != "" && q[0] == '<'
    ensures !IsBlank(q[0]) && q[0] as int < 0x80
  {
  }

  /** White space may stand before the name of the outermost tag. */
  lemma GapAfterOpen(gap: string, open: string, p: string)
    requires IsGap(gap) && IsGap(open) && Stands(p)
    ensures ElementAt(gap + ("<" + (open + p))) == ElementAt(gap + ("<" + p))
  {
    hide IsGap, IsBlank, StartsWithMark, TagAt;
    var q, r := "<" + (open + p), "<" + p;
    assert q[1..] == open + p && r[1..] == p;
    GapBefore(gap, q) by { TagStands(q); }
    GapBefore(gap, r) by { TagStands(r); }
    GapStands(open, p);
    NothingSkipped(p);
  }

  /** What may not stand behind the attributes of a tag: the end of the text, a slash without its bracket,
      anything that is neither the end of the tag nor a name. */
  lemma RefusedTag(gap: string, name: string, attributes: seq<LaidAttribute>, close: string, p: string)
    requires IsGap(gap) && IsPlainName(name) && AreLaidAttributes(attributes, false) && IsGap(close) && Stands(p)
    requires DistinctNames(AttributesOf(attributes)) && Follows(close + p, LastQuoted(attributes, false))
    requires p != "" ==> !("/>" <= p) && p[0] != '>' && !IsNameStart(p[0])
    ensures ElementAt(gap + ("<" + (name + LaidAttributes(attributes, close + p)))) ==
            Failed(if p != "" && p[0] == '/' then ParsingEmpty else ReadingAttributes)
  {
    HeadRead(gap, name, attributes, close + p);
    TagRefused(name, AttributesOf(attributes), close, p);
  }

  lemma TagRefused(name: string, attributes: seq<Attribute>, close: string, p: string)
    requires IsGap(close) && Stands(p) && (p != "" && p[0] == '/' ==> !("/>" <= p))
    requires p != "" ==> p[0] != '>' && !IsNameStart(p[0])
    ensures TagAt(name, attributes, close + p) ==
            Failed(if p != "" && p[0] == '/' then ParsingEmpty else ReadingAttributes)
  {
    hide IsGap, StartsWithMark, IsNameStart, ValueAt, Closed;
    GapStands(close, p);
    NothingSkipped(p);
    if p != "" && p[0] == '/' && |p| >= 2 { assert p[1] == '>' ==> "/>" <= p; }
  }

  /** An attribute has an equals sign and a value, and a value without quotes has no quotes inside. */
  lemma RefusedAttribute(gap: string, name: string, before: string, after: string, p: string)
    requires gap != "" && IsBreak(gap) && IsPlainName(name) && IsBreak(before) && IsGap(after) && Stands(p)
    ensures p == "" || (p[0] != '=' && (before == "" ==> !IsNameChar(p[0]))) ==>
              AttributeAt(gap + (name + (before + p))) == Failed(ReadingAttributes)
    ensures p == "" ==> AttributeAt(gap + (name + (before + ("=" + (after + p))))) == Failed(ReadingAttributes)
  {
    hide IsGap, IsPlainName, StartsWithMark, UnquotedValue, QuotedValue, NameAt, AfterSpace, IsName;
    if p == "" || (p[0] != '=' && (before == "" ==> !IsNameChar(p[0]))) {
      BreakOr(before, p);
      NameStays(name, before + p);
      GapStands(gap, name + (before + p));
      GapStands(before, p);
    }
    if p == "" {
      var equals := "=" + (after + p);
      BreakBefore(before, equals);
      NameStays(name, before + equals);
      GapStands(gap, name + (before + equals));
      GapBefore(before, equals);
      assert equals[1..] == after + p;
      GapStands(after, p);
    }
  }

  /** A value without its closing quote ends in an error of the element, and a quote inside a value that began
      without one in an error of the attributes. */
  lemma RefusedValue(name: string, before: string, after: string, mark: char, glyphs: seq<Glyph>, text: string,
        rest: string)
    requires IsPlainName(name) && IsBreak(before) && IsGap(after) && (mark == '\'' || mark == '\"')
    requires SpeltWithout(glyphs, mark) && IsBare(text)
    ensures var p := name + (before + ("=" + (after + ([mark] + Spelt(glyphs, "")))));
            forall tag, done :: HasAttribute(done, name) || TagAt(tag, done, p) == Failed(ParsingElement)
    ensures AttributeAt(name + (before + ("=" + (after + (text + ([mark] + rest)))))) == Failed(ReadingAttributes)
  {
    hide IsPlainName, IsGap, AttributeAt, UnquotedValue;
    var v, w := [mark] + Spelt(glyphs, ""), text + ([mark] + rest);
    assert v[1..] == Spelt(glyphs, "") && v[..1] == [mark];
    VerbatimRead(glyphs, mark, "");
    AttributeParts(name, before, after, v);
    NothingSkipped(name + (before + ("=" + (after + v))));
    assert w[0] == text[0];
    MarkWithin(text, [mark] + rest);
    AttributeParts(name, before, after, w);
    QuoteInside(name, "", text, [mark] + rest);
  }

  lemma {:induction false} QuoteInside(name: string, done: string, text: string, rest: string)
    requires rest != "" && (rest[0] == '\'' || rest[0] == '\"')
    requires forall i :: 0 <= i < |text| ==> !IsBlank(text[i]) && text[i] != '/' && text[i] != '>'
    ensures UnquotedValue(name, done, text + rest) == Failed(ReadingAttributes)
    decreases |text|
  {
    if text == "" {
      assert text + rest == rest;
    } else {
      assert (text + rest)[1..] == text[1..] + rest;
      QuoteInside(name, done + [text[0]], text[1..], rest);
    }
  }

  lemma BreakOr(g: string, p: string)
    requires IsBreak(g) && (g == "" ==> p == "" || !IsNameChar(p[0]))
    ensures g + p == "" || !IsNameChar((g + p)[0])
  {
    if g == "" { assert g + p == p; }
  }

  /** The layout of an element up to its children, and then `q`. */
  function Opened(node: Laid, q: string): string
    requires node.LaidElement?
  {
    node.gap + ("<" + (node.name + LaidAttributes(node.attributes, node.close +
                                                  (">" + LaidAll(node.children, node.end + q)))))
  }

  lemma OpenedRead(node: Laid, q: string)
    requires node.LaidElement? && IsLaid(node) && LaidDistinct(node) && (q == "" || q[0] == '<')
    ensures ElementAt(Opened(node, q)) ==
            Closed(node.name, AttributesOf(node.attributes), ValueAt(node.end + q, TreesOf(node.children)))
  {
    var LaidElement(gap, name, attributes, close, children, end, selfClosing) := node;
    var value := LaidAll(children, end + q);
    var tag := ">" + value;
    CloseFollows(node, tag);
    LaidParts(node);
    hide IsLaid, LaidAll, LaidAttributes, TagAt, ValueAt, Closed, ElementAt, IsGap, IsPlainName;
    hide AreLaidAttributes, DistinctNames, Follows, LastQuoted, TreesOf;
    HeadRead(gap, name, attributes, close + tag);
    TagOpens(name, AttributesOf(attributes), close, value);
    ChildrenRead(children, [], end, q);
  }

  lemma EndTagMatched(name: string, p: string)
    ensures StringEqual("</" + p, EndTag(name)) ==> name + ">" <= p
    ensures !StringEqual("", EndTag(name))
  {
    var q, e := "</" + p, EndTag(name);
    Regroup("</", name, ">");
    if e <= q { assert q[..|e|][2..] == e[2..] == name + ">" && q[..|e|][2..] == p[..|name| + 1]; }
  }

  /** An element that is not closed by its own end tag is refused: the first where another tag ends it, the
      others where the text ends. */
  lemma RefusedEnd(node: Laid, p: string)
    requires node.LaidElement? && IsLaid(node) && LaidDistinct(node)
    ensures !(node.name + ">" <= p) ==> ElementAt(Opened(node, "</" + p)) == Failed(ReadingEndTag)
    ensures ElementAt(Opened(node, "")) == Failed(if node.end == "" then ReadingElementValue else ReadingEndTag)
  {
    LaidParts(node);
    OpenedRead(node, "</" + p);
    OpenedRead(node, "");
    ValueEnds(node.end, TreesOf(node.children), "</" + p);
    ValueEnds(node.end, TreesOf(node.children), "");
    hide ElementAt, ValueAt, Opened, IsLaid, LaidDistinct, StringEqual, EndTag;
    EndTagMatched(node.name, p);
  }
}

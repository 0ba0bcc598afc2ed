/** Parsing undoes printing, for every tree that can be written: the printed tree is one of the layouts. */
module XmlTreeLaws {
  import opened Wrappers
  import opened XmlBase
  import opened XmlText
  import opened XmlSpellingLaws
  import opened XmlTree
  import opened XmlLayoutLaws

  /* -------------------------------------------------------------------------- printing ---- */

  predicate IsValue(s: string)
  {
    IsText(s) && NoHexReference(s)
  }

  /** A text that trimmed reading keeps as it is: squeezed, not blank and not beginning with a mark. */
  predicate IsKept(s: string)
  {
    IsValue(s) && IsSqueezed(s) && !StartsWithMark(s) && exists i :: 0 <= i < |s| && !IsBlank(s[i])
  }

  /** Trees that survive, except that attribute names may repeat: texts are never adjacent, since the reader would
      merge them. */
  predicate Plain(node: Node)
  {
    match node
    case TextNode(value) => IsKept(value)
    case Element(name, attributes, children) =>
      IsPlainName(name) &&
      (forall a :: a in attributes ==> IsPlainName(a.name) && IsValue(a.value)) &&
      PlainAll(children)
  }

  predicate PlainAll(nodes: seq<Node>)
  {
    (forall i :: 0 <= i < |nodes| ==> Plain(nodes[i])) &&
    forall i :: 0 <= i < |nodes| - 1 ==> nodes[i].Element? || nodes[i + 1].Element?
  }

  /** No element of the tree has two attributes of one name. */
  predicate AllDistinct(node: Node)
  {
    node.Element? ==> DistinctNames(node.attributes) && AllDistinctIn(node.children)
  }

  predicate AllDistinctIn(nodes: seq<Node>)
  {
    forall i :: 0 <= i < |nodes| ==> AllDistinct(nodes[i])
  }

  predicate Writable(node: Node)
  {
    Plain(node) && AllDistinct(node)
  }

  /** The layout that is printed: one space before each attribute and before `/>`, double quotes around a value
      unless it has one itself, and nothing else that need not be there. */
  function LayoutOf(node: Node): (l: Laid)
    requires Plain(node)
    ensures l.LaidElement? <==> node.Element?
    ensures if l.LaidText? then l.gap == "" else l.gap == "" && l.end == ""
    decreases node, 0
  {
    match node
    case TextNode(value) => LaidText("", GlyphsOf(value))
    case Element(name, attributes, children) =>
      LaidElement("", name, LayoutOfAttributes(attributes), if children == [] then " " else "", LayoutsOf(children),
                  "", children == [])
  }

  function LayoutOfAttribute(a: Attribute): LaidAttribute
    requires IsPlainName(a.name) && IsValue(a.value)
  {
    var mark := if exists i :: 0 <= i < |a.value| && a.value[i] == '\"' then '\'' else '\"';
    LaidAttribute(" ", a.name, "", "", Quoted(mark, GlyphsOf(a.value)))
  }

  function LayoutOfAttributes(attributes: seq<Attribute>): seq<LaidAttribute>
    requires forall a :: a in attributes ==> IsPlainName(a.name) && IsValue(a.value)
  {
    if attributes == [] then [] else [LayoutOfAttribute(attributes[0])] + LayoutOfAttributes(attributes[1..])
  }

  function LayoutsOf(nodes: seq<Node>): (ls: seq<Laid>)
    requires PlainAll(nodes)
    ensures |ls| == |nodes|
    decreases nodes, 1
  {
    if nodes == [] then [] else PlainTail(nodes); [LayoutOf(nodes[0])] + LayoutsOf(nodes[1..])
  }

  lemma PlainTail(nodes: seq<Node>)
    requires PlainAll(nodes) && nodes != []
    ensures Plain(nodes[0]) && PlainAll(nodes[1..])
  {
  }

  /** Names contain nothing to escape. */
  lemma {:induction false} NameIsPlain(s: string)
    requires forall i :: 0 <= i < |s| ==> IsNameChar(s[i])
    ensures Encoded(s) == s
  {
    if s != "" {
      assert s[0] as int >= 32 && EncodedChar(s[0]) == [s[0]];
      NameIsPlain(s[1..]);
    }
  }

  lemma AttributePrinted(a: Attribute, rest: string)
    requires IsPlainName(a.name) && IsValue(a.value)
    ensures var l := LayoutOfAttribute(a);
            PrintedAttribute(a) + rest == AttributeText(l, rest) && IsLaidAttribute(l) && AttributeOf(l) == a
  {
    var l := LayoutOfAttribute(a);
    var quote := [l.value.mark];
    assert QuoteFor(a.value) == l.value.mark;
    NameIsPlain(a.name);
    EscapedIsSpelt(a.value, quote + rest);
    hide Encoded, IsText, NoHexReference, GlyphsOf, SpeltWithout;
    Regroup(Encoded(a.value), quote, rest);
    Regroup(quote, Encoded(a.value) + quote, rest);
    Regroup("=", quote + (Encoded(a.value) + quote), rest);
    Regroup(a.name, "=" + (quote + (Encoded(a.value) + quote)), rest);
    NoGaps(quote + (Encoded(a.value) + (quote + rest)));
  }

  lemma NoGaps(s: string)
    ensures "" + ("=" + ("" + s)) == "=" + s
  {
    assert "" + s == s && "" + ("=" + s) == "=" + s;
  }

  lemma {:induction false} AttributesPrinted(attributes: seq<Attribute>, rest: string, quoted: bool := false)
    requires forall a :: a in attributes ==> IsPlainName(a.name) && IsValue(a.value)
    ensures var ls := LayoutOfAttributes(attributes);
            PrintedAttributes(attributes) + rest == LaidAttributes(ls, rest) && AreLaidAttributes(ls, quoted) &&
            AttributesOf(ls) == attributes
    decreases attributes
  {
    hide IsPlainName, IsValue, IsLaidAttribute, PrintedAttribute, LayoutOfAttribute, AttributeText, AttributeOf;
    hide AreLaidAttributes;
    if attributes == [] {
      NoneLaid(quoted);
    } else {
      var a, more := attributes[0], PrintedAttributes(attributes[1..]);
      AttributesPrinted(attributes[1..], rest, true);
      AttributePrinted(a, more + rest);
      Regroup(PrintedAttribute(a), more, rest);
      Regroup(" ", PrintedAttribute(a) + more, rest);
      var ls := LayoutOfAttributes(attributes);
      assert ls[0] == LayoutOfAttribute(a) && ls[1..] == LayoutOfAttributes(attributes[1..]);
      AttributesOfFirst(ls);
      GapIsSpace(a);
      OneMoreLaid(ls[0], ls[1..], quoted);
      assert [ls[0]] + ls[1..] == ls;
    }
  }

  lemma NoneLaid(quoted: bool)
    ensures AreLaidAttributes([], quoted)
  {
  }

  lemma OneMoreLaid(a: LaidAttribute, ls: seq<LaidAttribute>, quoted: bool)
    requires IsLaidAttribute(a) && a.gap == " " && a.value.Quoted? && AreLaidAttributes(ls, true)
    ensures AreLaidAttributes([a] + ls, quoted)
  {
    hide IsLaidAttribute;
    PlainGaps();
    var all := [a] + ls;
    forall i | 0 <= i < |all| ensures IsLaidAttribute(all[i]) && IsApart(all, quoted, i) {
      if i > 0 {
        assert all[i] == ls[i - 1] && IsLaidAttribute(ls[i - 1]) && IsApart(ls, true, i - 1);
        assert i > 1 ==> all[..i][i - 1] == ls[..i - 1][i - 2];
      }
    }
  }

  lemma GapIsSpace(a: Attribute)
    requires IsPlainName(a.name) && IsValue(a.value)
    ensures LayoutOfAttribute(a).gap == " " && LayoutOfAttribute(a).value.Quoted?
  {
  }

  /** The text of an element that is printed and kept. */
  lemma TextPrinted(value: string, rest: string)
    requires IsKept(value)
    ensures var l := LaidText("", GlyphsOf(value));
            Encoded(value) + rest == LaidOut(l, rest) && IsLaid(l) && TreeOf(l) == TextNode(value) &&
            Kept(TreeOf(l)) == [TextNode(value)]
  {
    hide IsText, NoHexReference, GlyphsOf, Encoded, Squeezed, Inner, Condense;
    EscapedIsSpelt(value, rest);
    CondenseSqueezes(value);
    SqueezingChangesOnlySpaces(value);
    assert "" + Spelt(GlyphsOf(value), rest) == Spelt(GlyphsOf(value), rest);
    NothingCondensed();
  }

  lemma NothingCondensed()
    ensures Condense([]) == ""
  {
  }

  /** What follows the attributes of a printed element, and what follows those of its layout. */
  function Closing(name: string, children: seq<Node>): string
  {
    if children == [] then " />" else ">" + (PrintedAll(children) + EndTag(name))
  }

  function LaidClosing(l: Laid, rest: string): string
    requires l.LaidElement?
  {
    l.close + if l.selfClosing then "/>" + rest else ">" + LaidAll(l.children, l.end + Ending(l.name, rest))
  }

  lemma EndPrinted(name: string, rest: string)
    ensures EndTag(name) + rest == "" + Ending(name, rest)
  {
    Regroup(name, ">", rest);
    Regroup("</", name + ">", rest);
    Regroup("</", name, ">");
  }

  lemma ClosingPrinted(node: Node, rest: string)
    requires node.Element? && Plain(node)
    requires var e := EndTag(node.name) + rest; PrintedAll(node.children) + e == LaidAll(LayoutsOf(node.children), e)
    ensures Closing(node.name, node.children) + rest == LaidClosing(LayoutOf(node), rest)
  {
    var Element(name, attributes, children) := node;
    hide PrintedAll, LaidAll, LayoutsOf, LayoutOfAttributes, Ending, IsPlainName, EndTag;
    if children == [] {
      Regroup(" ", "/>", rest);
    } else {
      EndPrinted(name, rest);
      Regroup(PrintedAll(children), EndTag(name), rest);
      Regroup(">", PrintedAll(children) + EndTag(name), rest);
      var s := ">" + LaidAll(LayoutsOf(children), EndTag(name) + rest);
      assert "" + s == s;
    }
  }

  lemma ElementPrinted(node: Node, rest: string)
    requires node.Element? && Plain(node)
    requires Closing(node.name, node.children) + rest == LaidClosing(LayoutOf(node), rest)
    ensures Printed(node) + rest == LaidOut(LayoutOf(node), rest)
    ensures AreLaidAttributes(LayoutOf(node).attributes, false)
    ensures AttributesOf(LayoutOf(node).attributes) == node.attributes
  {
    var Element(name, attributes, children) := node;
    var head, close, ls := PrintedAttributes(attributes), Closing(name, children), LayoutOfAttributes(attributes);
    AttributesPrinted(attributes, close + rest);
    assert Printed(node) == "<" + (name + (head + close));
    var tail := "<" + (name + LaidAttributes(ls, close + rest));
    assert LaidOut(LayoutOf(node), rest) == "" + tail;
    hide Printed, PrintedAttributes, LaidOut, LaidAttributes, LayoutOf, LayoutOfAttributes, Closing, LaidClosing;
    hide AttributesOf, AreLaidAttributes, Plain;
    Regroup(head, close, rest);
    Regroup(name, head + close, rest);
    Regroup("<", name + (head + close), rest);
    assert "" + tail == tail;
  }

  lemma PlainGaps()
    ensures IsGap("") && IsBreak("") && IsBreak(" ")
  {
    assert " "[1..] == "";
  }

  lemma LayoutIsLaid(node: Node)
    requires node.Element? && Plain(node) && AreLaid(LayoutsOf(node.children), "")
    requires AreLaidAttributes(LayoutOf(node).attributes, false)
    requires AttributesOf(LayoutOf(node).attributes) == node.attributes
    ensures IsLaid(LayoutOf(node))
    ensures TreesOf(LayoutsOf(node.children)) == node.children ==> TreeOf(LayoutOf(node)) == node
    ensures LaidDistinct(LayoutOf(node)) <==>
            DistinctNames(node.attributes) && LaidDistinctIn(LayoutsOf(node.children))
  {
    hide IsPlainName, AttributesOf, DistinctNames, LaidDistinctIn, TreesOf, AreLaid, LayoutOfAttributes;
    hide IsLaidAttribute;
    var l := LayoutOf(node);
    PlainGaps();
    assert l.close == if node.children == [] then " " else "";
    assert l.children == LayoutsOf(node.children) && (l.selfClosing ==> l.children == []);
  }

  /** The printed tree is the layout, and the layout stands for the tree. */
  lemma {:induction false} PrintedIsLaid(node: Node, rest: string)
    requires Plain(node)
    ensures Printed(node) + rest == LaidOut(LayoutOf(node), rest)
    ensures IsLaid(LayoutOf(node)) && TreeOf(LayoutOf(node)) == node && Kept(node) == [node]
    ensures LaidDistinct(LayoutOf(node)) <==> AllDistinct(node)
    decreases node, 0
  {
    if node.TextNode? {
      TextPrinted(node.value, rest);
    } else {
      assert PlainAll(node.children);
      AllPrinted(node.children, EndTag(node.name) + rest);
      hide LaidOut, LayoutOf, LayoutsOf, Plain, PlainAll, Printed, IsLaid, TreeOf, Closing, LaidClosing;
      hide AreLaid, AreLaidAttributes, AttributesOf, LaidDistinct, LaidDistinctIn, AllDistinctIn, DistinctNames;
      ClosingPrinted(node, rest);
      ElementPrinted(node, rest);
      LayoutIsLaid(node);
    }
  }

  lemma {:induction false} AllPrinted(nodes: seq<Node>, rest: string)
    requires PlainAll(nodes)
    ensures PrintedAll(nodes) + rest == LaidAll(LayoutsOf(nodes), rest)
    ensures AreLaid(LayoutsOf(nodes), "") && TreesOf(LayoutsOf(nodes)) == nodes
    ensures LaidDistinctIn(LayoutsOf(nodes)) <==> AllDistinctIn(nodes)
    decreases nodes, 1
  {
    hide Printed, LaidOut, LayoutOf, LayoutsOf, TreeOf, Kept, AreLaid, IsLaid, PlainAll, Plain, TagBehind;
    hide LaidDistinct, LaidDistinctIn, AllDistinct, AllDistinctIn, EndTag, LaidAll, TreesOf;
    if nodes == [] {
      NothingPrinted(rest);
    } else {
      var n, more := nodes[0], PrintedAll(nodes[1..]);
      PlainTail(nodes);
      PrintedIsLaid(n, more + rest);
      AllPrinted(nodes[1..], rest);
      TagFollows(nodes);
      LayoutsGrow(nodes);
      Regroup(Printed(n), more, rest);
      var l, ls := LayoutOf(n), LayoutsOf(nodes[1..]);
      LaidAllFirst(l, ls, rest);
      LaidFirst(l, ls);
      DistinctFirst(l, ls, n, nodes[1..]);
      assert [n] + nodes[1..] == nodes;
    }
  }

  lemma NothingPrinted(rest: string)
    ensures PrintedAll([]) + rest == LaidAll(LayoutsOf([]), rest)
    ensures AreLaid(LayoutsOf([]), "") && TreesOf(LayoutsOf([])) == [] &&
            LaidDistinctIn(LayoutsOf([])) && AllDistinctIn([])
  {
    PlainGaps();
    assert LayoutsOf([]) == [] && "" + rest == rest;
  }

  lemma LayoutsGrow(nodes: seq<Node>)
    requires nodes != [] && PlainAll(nodes)
    ensures PlainAll(nodes[1..])
    ensures LayoutsOf(nodes) == [LayoutOf(nodes[0])] + LayoutsOf(nodes[1..])
    ensures LayoutsOf(nodes)[0] == LayoutOf(nodes[0]) && LayoutsOf(nodes)[1..] == LayoutsOf(nodes[1..])
  {
    PlainTail(nodes);
    hide PlainAll, LayoutOf;
  }

  /** A printed text is followed by a printed tag. */
  lemma TagFollows(nodes: seq<Node>)
    requires nodes != [] && PlainAll(nodes)
    ensures TagBehind(LayoutsOf(nodes), 0, "")
  {
    LayoutsGrow(nodes);
    if |nodes| > 1 {
      LayoutsGrow(nodes[1..]);
      assert nodes[0].Element? || nodes[0 + 1].Element?;
    }
    hide PlainAll, Plain;
  }

  lemma LaidFirst(l: Laid, ls: seq<Laid>)
    requires IsLaid(l) && AreLaid(ls, "") && TagBehind([l] + ls, 0, "")
    ensures AreLaid([l] + ls, "")
  {
    hide IsLaid;
    var all := [l] + ls;
    forall i | 0 <= i < |all| ensures IsLaid(all[i]) && TagBehind(all, i, "") {
      if i > 0 { assert all[i] == ls[i - 1] && IsLaid(ls[i - 1]) && TagBehind(ls, i - 1, ""); }
    }
  }

  lemma LaidAllFirst(l: Laid, ls: seq<Laid>, rest: string)
    ensures LaidAll([l] + ls, rest) == LaidOut(l, LaidAll(ls, rest))
    ensures TreesOf([l] + ls) == Kept(TreeOf(l)) + TreesOf(ls)
  {
    hide LaidOut, TreeOf, Kept;
    assert ([l] + ls)[0] == l && ([l] + ls)[1..] == ls;
  }

  lemma DistinctFirst(l: Laid, ls: seq<Laid>, n: Node, ns: seq<Node>)
    ensures LaidDistinctIn([l] + ls) <==> LaidDistinct(l) && LaidDistinctIn(ls)
    ensures AllDistinctIn([n] + ns) <==> AllDistinct(n) && AllDistinctIn(ns)
  {
    hide LaidDistinct, AllDistinct;
    assert ([l] + ls)[0] == l && ([n] + ns)[0] == n;
    assert forall i :: 0 <= i < |ls| ==> ls[i] == ([l] + ls)[i + 1];
    assert forall i :: 0 <= i < |ns| ==> ns[i] == ([n] + ns)[i + 1];
  }

  /* --------------------------------------------------------------------------- reading ---- */

  /** A printed tree is read back if and only if no element repeats an attribute name. A repetition in the
      element itself returns null and records no error; one further below ends in an error that speaks of
      the value of an element. */
  lemma ReadBackIff(node: Node, rest: string)
    requires node.Element? && Plain(node)
    ensures ElementAt(Printed(node) + rest) ==
            if AllDistinct(node) then Parsed(node, rest)
            else if !DistinctNames(node.attributes) then Failed(NoError)
            else Failed(ReadingElementValue)
  {
    PrintedIsLaid(node, rest);
    LayoutRead(LayoutOf(node), rest);
  }

  /** Parsing what was printed returns the same tree and leaves what follows. */
  lemma ElementReadBack(node: Node, rest: string)
    requires node.Element? && Writable(node)
    ensures ElementAt(Printed(node) + rest) == Parsed(node, rest)
  {
    ReadBackIff(node, rest);
  }
}

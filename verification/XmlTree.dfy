/** Printing an element tree in stream mode and parsing it again
    (TiXmlPrinter in src/ticpp/src/tinyxml.cpp:1841-1929; TiXmlElement::Parse, ReadValue,
    TiXmlAttribute::Parse and TiXmlText::Parse in src/ticpp/src/tinyxmlparser.cpp).

    The parser builds the tree as a value: the sibling list and the attribute ring that the original
    links in place are the subject of the modules Dom and AttributeSet. */
module XmlTree {
  import opened Wrappers
  import opened XmlBase
  import opened XmlText

  datatype Attribute = Attribute(name: string, value: string)

  datatype Node =
    | Element(name: string, attributes: seq<Attribute>, children: seq<Node>)
    | TextNode(value: string)

  /* --------------------------------------------------------------------- printing ---- */

  /** Values that contain a double quote are put between single quotes. */
  function QuoteFor(value: string): char
  {
    if '\"' in value then '\'' else '\"'
  }

  function PrintedAttribute(a: Attribute): string
  {
    Encoded(a.name) + ("=" + ([QuoteFor(a.value)] + (Encoded(a.value) + [QuoteFor(a.value)])))
  }

  function PrintedAttributes(attributes: seq<Attribute>): string
  {
    if attributes == [] then ""
    else " " + (PrintedAttribute(attributes[0]) + PrintedAttributes(attributes[1..]))
  }

  function EndTag(name: string): (r: string)
    ensures |r| == |name| + 3
  {
    "</" + name + ">"
  }

  function Printed(node: Node): (r: string)
    decreases node, 0
  {
    match node
    case TextNode(value) => Encoded(value)
    case Element(name, attributes, children) =>
      "<" + (name + (PrintedAttributes(attributes) +
                     (if children == [] then " />" else ">" + (PrintedAll(children) + EndTag(name)))))
  }

  function PrintedAll(nodes: seq<Node>): string
    decreases nodes, 1
  {
    if nodes == [] then "" else Printed(nodes[0]) + PrintedAll(nodes[1..])
  }

  /** TiXmlPrinter. SetStreamPrinting has emptied `indent` and `lineBreak`. */
  class Printer {
    var buffer: string
    var depth: int
    var simpleTextPrint: bool
    const indent: string := ""
    const lineBreak: string := ""

    constructor ()
      ensures buffer == "" && depth == 0 && !simpleTextPrint
    {
      buffer, depth, simpleTextPrint := "", 0, false;
    }

    method DoIndent()
      modifies this`buffer
      ensures buffer == old(buffer)
    {
      var i := 0;
      while i < depth
        invariant buffer == old(buffer)
      {
        buffer := buffer + indent;
        i := i + 1;
      }
    }

    method DoLineBreak()
      modifies this`buffer
      ensures buffer == old(buffer)
    {
      buffer := buffer + lineBreak;
    }

    method PrintAttribute(a: Attribute)
      modifies this`buffer
      ensures buffer == old(buffer) + PrintedAttribute(a)
    {
      var n := EncodeString(a.name);
      var v := EncodeString(a.value);
      if '\"' !in a.value {
        buffer := buffer + n + "=\"" + v + "\"";
      } else {
        buffer := buffer + n + "='" + v + "'";
      }
      JoinAttribute(old(buffer), n, [QuoteFor(a.value)], v);
    }

    method PrintAttributes(attributes: seq<Attribute>)
      modifies this`buffer
      ensures buffer == old(buffer) + PrintedAttributes(attributes)
    {
      var i := 0;
      assert attributes[0..] == attributes;
      while i < |attributes|
        invariant 0 <= i <= |attributes|
        invariant buffer + PrintedAttributes(attributes[i..]) == old(buffer) + PrintedAttributes(attributes)
      {
        ghost var before, tail := buffer, PrintedAttributes(attributes[i + 1..]);
        assert attributes[i..][1..] == attributes[i + 1..];
        buffer := buffer + " ";
        PrintAttribute(attributes[i]);
        AppendPieces(before, " ", PrintedAttribute(attributes[i]), tail);
        i := i + 1;
      }
    }

    /** VisitEnter. */
    method VisitEnter(element: Node)
      requires element.Element? && !simpleTextPrint
      modifies this
      ensures depth == old(depth) + 1
      ensures simpleTextPrint <==> |element.children| == 1 && element.children[0].TextNode?
      ensures buffer == old(buffer) + ("<" + (element.name + (PrintedAttributes(element.attributes) +
                                              (if element.children == [] then " />" else ">"))))
    {
      DoIndent();
      buffer := buffer + "<";
      buffer := buffer + element.name;
      PrintAttributes(element.attributes);
      ghost var close := if element.children == [] then " />" else ">";
      if element.children == [] {
        buffer := buffer + " />";
        DoLineBreak();
      } else {
        buffer := buffer + ">";
        if element.children[0].TextNode? && |element.children| == 1 {
          simpleTextPrint := true;
        } else {
          DoLineBreak();
        }
      }
      AppendPieces(old(buffer), "<", element.name, PrintedAttributes(element.attributes) + close);
      Regroup(old(buffer) + "<" + element.name, PrintedAttributes(element.attributes), close);
      depth := depth + 1;
    }

    /** VisitExit. */
    method VisitExit(element: Node)
      requires element.Element?
      requires element.children == [] ==> !simpleTextPrint
      modifies this
      ensures depth == old(depth) - 1 && !simpleTextPrint
      ensures buffer == old(buffer) + if element.children == [] then "" else EndTag(element.name)
    {
      depth := depth - 1;
      if element.children != [] {
        if simpleTextPrint {
          simpleTextPrint := false;
        } else {
          DoIndent();
        }
        buffer := buffer + "</";
        buffer := buffer + element.name;
        buffer := buffer + ">";
        DoLineBreak();
        assert buffer == old(buffer) + EndTag(element.name);
      }
    }

    method VisitText(value: string)
      modifies this`buffer
      ensures buffer == old(buffer) + Encoded(value)
    {
      if simpleTextPrint {
        var str := EncodeString(value);
        buffer := buffer + str;
      } else {
        DoIndent();
        var str := EncodeString(value);
        buffer := buffer + str;
        DoLineBreak();
      }
    }

    /** Accept: the visitor walks the children in order between VisitEnter and VisitExit. */
    method Accept(node: Node)
      requires node.Element? ==> !simpleTextPrint
      modifies this
      ensures buffer == old(buffer) + Printed(node)
      ensures depth == old(depth) && simpleTextPrint == old(simpleTextPrint)
      decreases node, 0
    {
      if node.TextNode? {
        VisitText(node.value);
      } else {
        VisitEnter(node);
        AcceptChildren(node.children);
        VisitExit(node);
        JoinElement(old(buffer), node.name, PrintedAttributes(node.attributes),
                    if node.children == [] then " />" else ">", PrintedAll(node.children),
                    if node.children == [] then "" else EndTag(node.name));
      }
    }

    /** The loop of Accept over the siblings. */
    method AcceptChildren(nodes: seq<Node>)
      requires simpleTextPrint ==> forall n :: n in nodes ==> n.TextNode?
      modifies this
      ensures buffer == old(buffer) + PrintedAll(nodes)
      ensures depth == old(depth) && simpleTextPrint == old(simpleTextPrint)
      decreases nodes, 1
    {
      var i := 0;
      assert nodes[0..] == nodes;
      while i < |nodes|
        invariant 0 <= i <= |nodes|
        invariant buffer + PrintedAll(nodes[i..]) == old(buffer) + PrintedAll(nodes)
        invariant depth == old(depth) && simpleTextPrint == old(simpleTextPrint)
      {
        assert nodes[i] in nodes && nodes[i..][1..] == nodes[i + 1..];
        ghost var before := buffer;
        Accept(nodes[i]);
        Regroup(before, Printed(nodes[i]), PrintedAll(nodes[i + 1..]));
        i := i + 1;
      }
    }
  }

  lemma AppendPieces(a: string, b: string, c: string, d: string)
    ensures a + b + c + d == a + (b + (c + d))
  {
  }

  lemma JoinAttribute(start: string, n: string, quote: string, v: string)
    ensures start + n + ("=" + quote) + v + quote == start + (n + ("=" + (quote + (v + quote))))
  {
    Regroup(quote, v, quote);
    Regroup("=", quote + v, quote);
    Regroup("=", quote, v);
    Regroup(n, "=" + quote + v, quote);
    Regroup(n, "=" + quote, v);
    Regroup(start, n + ("=" + quote) + v, quote);
    Regroup(start, n + ("=" + quote), v);
    Regroup(start, n, "=" + quote);
  }

  lemma JoinElement(start: string, name: string, head: string, open: string, kids: string, end: string)
    ensures start + ("<" + (name + (head + open))) + kids + end ==
            start + ("<" + (name + (head + (open + (kids + end)))))
  {
    Regroup(head, open, kids + end);
    Regroup(name, head + open, kids + end);
    Regroup("<", name + (head + open), kids + end);
    Regroup(start, "<" + (name + (head + open)), kids + end);
    Regroup(start + ("<" + (name + (head + open))), kids, end);
  }

  /* ---------------------------------------------------------------------- parsing ---- */

  /** The error recorded in the document. `NoError` marks a null return that records none. */
  datatype XmlError =
    | NoError
    | ParsingElement
    | FailedToReadElementName
    | ReadingElementValue
    | ReadingAttributes
    | ParsingEmpty
    | ReadingEndTag
    | OutsideModel

  datatype Parsed<+T> = Parsed(value: T, rest: string) | Failed(error: XmlError)

  /** SetError keeps the first error. */
  function Also(first: XmlError, second: XmlError): XmlError
  {
    if first == NoError then second else first
  }

  /** TiXmlAttribute::Parse. */
  function AttributeAt(p: string): (r: Parsed<Attribute>)
    ensures r.Parsed? ==> |r.rest| < |p|
  {
    var p0 := AfterSpace(p);
    if p0 == "" then Failed(NoError)
    else
      match NameAt(p0)
      case None => Failed(ReadingAttributes)
      case Some(n) =>
        var p1 := AfterSpace(n.1);
        if p1 == "" || p1[0] != '=' then Failed(ReadingAttributes)
        else
          var p2 := AfterSpace(p1[1..]);
          if p2 == "" then Failed(ReadingAttributes)
          else if p2[0] == '\'' || p2[0] == '\"' then QuotedValue(n.0, p2)
          else UnquotedValue(n.0, "", p2)
  }

  /** A value between quotes. Without a closing quote the cursor is left at the end of the text. */
  function QuotedValue(name: string, p: string): (r: Parsed<Attribute>)
    requires p != ""
    ensures r.Parsed? ==> |r.rest| < |p|
  {
    match Verbatim(p[1..], p[..1])
    case None => Failed(NoError)
    case Some(t) => Parsed(Attribute(name, t.value), if t.rest == "" then "" else t.rest[1..])
  }

  /** A value without quotes ends at white space, at a slash or at a closing bracket. */
  function UnquotedValue(name: string, value: string, p: string): (r: Parsed<Attribute>)
    ensures r.Parsed? ==> |r.rest| <= |p|
    decreases |p|
  {
    if p == "" || IsWhiteSpace(p[0]) || p[0] == '/' || p[0] == '>' then Parsed(Attribute(name, value), p)
    else if p[0] == '\'' || p[0] == '\"' then Failed(ReadingAttributes)
    else UnquotedValue(name, value + [p[0]], p[1..])
  }

  predicate HasAttribute(attributes: seq<Attribute>, name: string)
  {
    exists i :: 0 <= i < |attributes| && attributes[i].name == name
  }

  /** TiXmlElement::Parse. */
  function ElementAt(p: string): (r: Parsed<Node>)
    ensures r.Parsed? ==> |r.rest| < |p|
    decreases |p|, 0
  {
    var p0 := AfterSpace(p);
    if p0 == "" || p0[0] != '<' then Failed(ParsingElement)
    else
      match NameAt(AfterSpace(p0[1..]))
      case None => Failed(FailedToReadElementName)
      case Some(n) => if n.1 == "" then Failed(FailedToReadElementName) else TagAt(n.0, [], n.1)
  }

  /** The loop of TiXmlElement::Parse over the attributes, up to the end of the element. */
  function TagAt(name: string, attributes: seq<Attribute>, p: string): (r: Parsed<Node>)
    ensures r.Parsed? ==> |r.rest| < |p|
    decreases |p|, 0
  {
    var q := AfterSpace(p);
    if q == "" then Failed(ReadingAttributes)
    else if q[0] == '/' then
      if |q| < 2 || q[1] != '>' then Failed(ParsingEmpty) else Parsed(Element(name, attributes, []), q[2..])
    else if q[0] == '>' then
      Closed(name, attributes, ValueAt(q[1..], []))
    else
      match AttributeAt(q)
      case Failed(e) => Failed(Also(e, ParsingElement))
      case Parsed(a, rest) =>
        if rest == "" then Failed(ParsingElement)
        else if HasAttribute(attributes, a.name) then Failed(NoError)
        else TagAt(name, attributes + [a], rest)
  }

  /** The end tag after the value. */
  function Closed(name: string, attributes: seq<Attribute>, value: Parsed<seq<Node>>): (r: Parsed<Node>)
    ensures r.Parsed? ==> value.Parsed? && |r.rest| < |value.rest|
  {
    match value
    case Failed(e) => Failed(Also(e, ReadingEndTag))
    case Parsed(children, rest) =>
      if StringEqual(rest, EndTag(name)) then Parsed(Element(name, attributes, children), rest[|name| + 3..])
      else Failed(ReadingEndTag)
  }

  predicate Blank(value: string)
  {
    forall i :: 0 <= i < |value| ==> IsWhiteSpace(value[i])
  }

  /** What Identify recognises as an element; its other answers are outside this model. */
  predicate IdentifiesElement(p: string)
  {
    !StringEqual(Lower(p), "<?xml") && !StringEqual(p, "<!") && |p| >= 2 && IsNameStart(p[1])
  }

  /** TiXmlElement::ReadValue: text and elements in any order up to an end tag. */
  function ValueAt(p: string, children: seq<Node>): (r: Parsed<seq<Node>>)
    ensures r.Parsed? ==> |r.rest| <= |p|
    decreases |p|, 1
  {
    var q := AfterSpace(p);
    if p == "" then Failed(ReadingElementValue)
    else if q == "" then Parsed(children, "")
    else if q[0] != '<' then
      match Condensed(q, "<", false)
      case None => Failed(ReadingElementValue)
      case Some(t) => ValueAt(t.rest, if Blank(t.value) then children else children + [TextNode(t.value)])
    else if StringEqual(q, "</") then Parsed(children, q)
    else if !IdentifiesElement(q) then Failed(OutsideModel)
    else
      match ElementAt(q)
      case Failed(e) => Failed(Also(e, ReadingElementValue))
      case Parsed(child, rest) => ValueAt(rest, children + [child])
  }

  method ParseAttribute(p: string) returns (r: Parsed<Attribute>)
    ensures r == AttributeAt(p)
  {
    var cursor := SkipWhiteSpace(Some(p));
    if cursor == None || cursor.value == "" {
      return Failed(NoError);
    }
    var name := ReadName(cursor.value);
    if name == None || name.value.1 == "" {
      return Failed(ReadingAttributes);
    }
    cursor := SkipWhiteSpace(Some(name.value.1));
    if cursor == None || cursor.value == "" || cursor.value[0] != '=' {
      return Failed(ReadingAttributes);
    }
    cursor := SkipWhiteSpace(Some(cursor.value[1..]));
    if cursor == None || cursor.value == "" {
      return Failed(ReadingAttributes);
    }
    var q := cursor.value;
    if q[0] == '\'' || q[0] == '\"' {
      var text := ReadText(q[1..], false, q[..1]);
      if text == None {
        return Failed(NoError);
      }
      var after := text.value.rest;
      return Parsed(Attribute(name.value.0, text.value.value), if after == "" then "" else after[1..]);
    }
    var value := "";
    ghost var whole := q;
    while q != "" && !IsWhiteSpace(q[0]) && q[0] != '/' && q[0] != '>'
      invariant UnquotedValue(name.value.0, value, q) == UnquotedValue(name.value.0, "", whole)
      decreases |q|
    {
      if q[0] == '\'' || q[0] == '\"' {
        return Failed(ReadingAttributes);
      }
      value, q := value + [q[0]], q[1..];
    }
    r := Parsed(Attribute(name.value.0, value), q);
  }

  method Parse(p: string) returns (r: Parsed<Node>)
    ensures r == ElementAt(p)
    decreases |p|, 0
  {
    var cursor := SkipWhiteSpace(Some(p));
    if cursor == None || cursor.value == "" || cursor.value[0] != '<' {
      return Failed(ParsingElement);
    }
    cursor := SkipWhiteSpace(Some(cursor.value[1..]));
    if cursor == None {
      return Failed(FailedToReadElementName);
    }
    var name := ReadName(cursor.value);
    if name == None || name.value.1 == "" {
      return Failed(FailedToReadElementName);
    }
    r := ParseTag(name.value.0, name.value.1);
  }

  /** The attribute loop of Parse. */
  method ParseTag(name: string, p: string) returns (r: Parsed<Node>)
    requires p != ""
    ensures r == TagAt(name, [], p)
    decreases |p|, 0
  {
    var q, attributes: seq<Attribute> := p, [];
    while true
      invariant q != "" && |q| <= |p|
      invariant TagAt(name, attributes, q) == TagAt(name, [], p)
      decreases |q|
    {
      var cursor := SkipWhiteSpace(Some(q));
      if cursor == None || cursor.value == "" {
        return Failed(ReadingAttributes);
      }
      q := cursor.value;
      if q[0] == '/' {
        if |q| < 2 || q[1] != '>' {
          return Failed(ParsingEmpty);
        }
        return Parsed(Element(name, attributes, []), q[2..]);
      } else if q[0] == '>' {
        var value := ReadValue(q[1..]);
        if value.Failed? {
          return Failed(Also(value.error, ReadingEndTag));
        }
        var found := MatchTag(value.rest, EndTag(name), false);
        if found {
          return Parsed(Element(name, attributes, value.value), value.rest[|name| + 3..]);
        }
        return Failed(ReadingEndTag);
      } else {
        var attribute := ParseAttribute(q);
        if attribute.Failed? {
          return Failed(Also(attribute.error, ParsingElement));
        }
        if attribute.rest == "" {
          return Failed(ParsingElement);
        }
        if HasAttribute(attributes, attribute.value.name) {
          return Failed(NoError);
        }
        attributes := attributes + [attribute.value];
        q := attribute.rest;
      }
    }
  }

  method ReadValue(p: string) returns (r: Parsed<seq<Node>>)
    ensures r == ValueAt(p, [])
    decreases |p|, 1
  {
    var children: seq<Node> := [];
    var q := p;
    var cursor := SkipWhiteSpace(Some(q));
    while cursor.Some? && cursor.value != ""
      invariant |q| <= |p| && cursor == Skipped(q)
      invariant ValueAt(q, children) == ValueAt(p, [])
      decreases |q|
    {
      q := cursor.value;
      if q[0] != '<' {
        var text := ReadText(q, true, "<");
        if text == None {
          return Failed(ReadingElementValue);
        }
        if !Blank(text.value.value) {
          children := children + [TextNode(text.value.value)];
        }
        q := text.value.rest;
      } else {
        var end := MatchTag(q, "</", false);
        if end {
          return Parsed(children, q);
        }
        if !IdentifiesElement(q) {
          return Failed(OutsideModel);
        }
        var child := Parse(q);
        if child.Failed? {
          return Failed(Also(child.error, ReadingElementValue));
        }
        children := children + [child.value];
        q := child.rest;
      }
      cursor := SkipWhiteSpace(Some(q));
    }
    r := if cursor == None then Failed(ReadingElementValue) else Parsed(children, "");
  }
}

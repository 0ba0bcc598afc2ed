/** The attributes of an element: a ring of nodes closed by a sentinel (src/ticpp/src/tinyxml.cpp:740-766,
    1575-1660), which is a map kept in the order of insertion. */
module AttributeSet {
  import opened Sequences
  import opened XmlTree

  class AttributeNode {
    const name: string
    var value: string
    var prev: AttributeNode?
    var next: AttributeNode?

    constructor (name: string, value: string)
      ensures this.name == name && this.value == value && prev == null && next == null
    {
      this.name, this.value, prev, next := name, value, null, null;
    }
  }

  /** The first attribute of that name from position i on; the length if there is none. */
  function IndexOf(attributes: seq<Attribute>, name: string, i: nat := 0): (k: nat)
    requires i <= |attributes|
    ensures i <= k <= |attributes|
    ensures forall j :: i <= j < k ==> attributes[j].name != name
    ensures k < |attributes| ==> attributes[k].name == name
    decreases |attributes| - i
  {
    if i == |attributes| || attributes[i].name == name then i else IndexOf(attributes, name, i + 1)
  }

  /** SetAttribute on the list of attributes. */
  function With(attributes: seq<Attribute>, name: string, value: string): (r: seq<Attribute>)
  {
    var k := IndexOf(attributes, name);
    if k < |attributes| then attributes[k := Attribute(name, value)] else attributes + [Attribute(name, value)]
  }

  function WithAll(attributes: seq<Attribute>, more: seq<Attribute>): (r: seq<Attribute>)
    decreases |more|
  {
    if |more| == 0 then attributes
    else With(WithAll(attributes, more[..|more| - 1]), more[|more| - 1].name, more[|more| - 1].value)
  }

  ghost function Contents(nodes: seq<AttributeNode>): (c: seq<Attribute>)
    reads nodes
    ensures |c| == |nodes|
    ensures forall i :: 0 <= i < |nodes| ==> c[i] == Attribute(nodes[i].name, nodes[i].value)
  {
    seq(|nodes|, i requires 0 <= i < |nodes| reads nodes => Attribute(nodes[i].name, nodes[i].value))
  }

  class AttributeSet {
    const sentinel: AttributeNode
    ghost var nodes: seq<AttributeNode>

    /** Following `next` from the sentinel leads through the nodes and back, and `prev` the other way. */
    ghost predicate Valid()
      reads this, sentinel, nodes
    {
      sentinel !in nodes && (forall i, j :: 0 <= i < j < |nodes| ==> nodes[i] != nodes[j]) &&
      (forall i :: 0 <= i <= |nodes| ==> LinkOk(i)) &&
      forall i, j :: 0 <= i < j < |nodes| ==> nodes[i].name != nodes[j].name
    }

    ghost function Footprint(): set<AttributeNode>
      reads this
    {
      set n | n in nodes
    }

    /** The node at a place of the ring; the sentinel is at both ends. */
    ghost function At(i: int): AttributeNode
      requires -1 <= i <= |nodes|
      reads this
    {
      if 0 <= i < |nodes| then nodes[i] else sentinel
    }

    /** The link between places i - 1 and i. */
    ghost predicate LinkOk(i: nat)
      requires i <= |nodes|
      reads this, sentinel, nodes
    {
      At(i - 1).next == At(i) && At(i).prev == At(i - 1)
    }

    constructor ()
      ensures Valid() && nodes == [] && fresh(sentinel)
    {
      sentinel := new AttributeNode("", "");
      nodes := [];
      new;
      sentinel.next := sentinel;
      sentinel.prev := sentinel;
    }

    method Find(name: string) returns (r: AttributeNode?)
      requires Valid()
      ensures var k := IndexOf(Contents(nodes), name);
              r == if k < |nodes| then nodes[k] else null
    {
      assert LinkOk(0);
      var node := sentinel.next;
      ghost var i := 0;
      while node != sentinel
        invariant i <= |nodes| && node == At(i)
        invariant IndexOf(Contents(nodes), name) == IndexOf(Contents(nodes), name, i)
        decreases |nodes| - i
      {
        assert LinkOk(i + 1);
        if node.name == name {
          return node;
        }
        node := node.next;
        i := i + 1;
      }
      r := null;
    }

    /** The source asserts that the name is new. */
    method Add(addMe: AttributeNode)
      requires Valid() && addMe != sentinel && addMe !in nodes && !HasAttribute(Contents(nodes), addMe.name)
      modifies this`nodes, sentinel, addMe, nodes
      ensures Valid() && nodes == old(nodes) + [addMe]
      ensures Contents(nodes) == old(Contents(nodes)) + [Attribute(addMe.name, old(addMe.value))]
    {
      assert LinkOk(|nodes|);
      addMe.next := sentinel;
      addMe.prev := sentinel.prev;
      sentinel.prev.next := addMe;
      sentinel.prev := addMe;
      nodes := nodes + [addMe];
      forall i | 0 <= i <= |nodes| ensures LinkOk(i) {
        assert i < |nodes| ==> old(LinkOk(i));
      }
    }

    /** Takes a node out of the ring. The source asserts that it is there. */
    method Remove(removeMe: AttributeNode)
      requires Valid() && removeMe in nodes
      modifies this`nodes, sentinel, nodes
      ensures Valid() && removeMe !in nodes && removeMe.next == null && removeMe.prev == null
      ensures exists k :: 0 <= k < |old(nodes)| && old(nodes)[k] == removeMe && nodes == Removed(old(nodes), k) &&
                          Contents(nodes) == Removed(old(Contents(nodes)), k)
    {
      assert LinkOk(0);
      var node := sentinel.next;
      ghost var k := 0;
      while node != removeMe
        invariant k < |nodes| && node == nodes[k] && removeMe !in nodes[..k]
        decreases |nodes| - k
      {
        assert LinkOk(k + 1);
        node := node.next;
        k := k + 1;
      }
      assert LinkOk(k) && LinkOk(k + 1);
      node.prev.next := node.next;
      node.next.prev := node.prev;
      node.next := null;
      node.prev := null;
      nodes := Removed(nodes, k);
      RingClosed(this, k);
      assert old(nodes)[k] == removeMe;
    }

    method SetAttribute(name: string, value: string)
      requires Valid()
      modifies this`nodes, sentinel, nodes
      ensures Valid() && Contents(nodes) == With(old(Contents(nodes)), name, value)
      ensures forall n :: n in nodes ==> n in old(nodes) || fresh(n)
    {
      var node := Find(name);
      if node != null {
        node.value := value;
        forall i | 0 <= i <= |nodes| ensures LinkOk(i) {
          assert old(LinkOk(i));
        }
        return;
      }
      var attrib := new AttributeNode(name, value);
      Add(attrib);
    }

    /** The attribute loop of TiXmlElement::CopyTo, into another set. */
    method CopyTo(target: AttributeSet)
      requires Valid() && target.Valid() && Apart(this, target)
      modifies target`nodes, target.sentinel, target.Footprint()
      ensures Valid() && nodes == old(nodes) && Contents(nodes) == old(Contents(nodes))
      ensures target.Valid() && Contents(target.nodes) == WithAll(old(Contents(target.nodes)), Contents(nodes))
      ensures forall n :: n in target.nodes ==> n in old(target.Footprint()) || fresh(n)
    {
      hide AttributeSet.Valid, WithAll, Contents, AttributeSet.LinkOk;
      ghost var mine, theirs := Contents(nodes), Contents(target.nodes);
      NextIs(-1);
      var attribute := sentinel.next;
      ghost var i := 0;
      NothingToCopy(theirs, mine);
      while attribute != sentinel
        invariant i <= |nodes| && attribute == At(i) && nodes == old(nodes) && Valid() && Contents(nodes) == mine
        invariant target.Valid() && Apart(this, target)
        invariant forall n :: n in target.nodes ==> n in old(target.Footprint()) || fresh(n)
        invariant Contents(target.nodes) == WithAll(theirs, mine[..i])
        decreases |nodes| - i
      {
        NextIs(i);
        target.SetAttribute(attribute.name, attribute.value);
        OneMoreCopied(theirs, mine, i);
        NextIs(i);
        attribute := attribute.next;
        i := i + 1;
      }
      if i < |nodes| { NextIs(i); }
      assert mine[..i] == mine;
    }

    /** The ring from a place to the next. */
    lemma NextIs(i: int)
      requires Valid() && -1 <= i < |nodes|
      ensures At(i).next == At(i + 1) && (i >= 0 ==> nodes[i] != sentinel)
    {
      assert LinkOk(i + 1);
    }
  }

  lemma NothingToCopy(a: seq<Attribute>, m: seq<Attribute>)
    ensures WithAll(a, m[..0]) == a
  {
  }

  lemma OneMoreCopied(a: seq<Attribute>, m: seq<Attribute>, i: nat)
    requires i < |m|
    ensures WithAll(a, m[..i + 1]) == With(WithAll(a, m[..i]), m[i].name, m[i].value)
  {
    assert m[..i + 1][..i] == m[..i];
  }

  /** Two sets with nothing in common. */
  ghost predicate Apart(a: AttributeSet, b: AttributeSet)
    reads a, b
  {
    a != b && a.sentinel != b.sentinel && a.sentinel !in b.nodes && b.sentinel !in a.nodes &&
    forall n :: n in a.nodes ==> n !in b.nodes
  }

  /* ------------------------------------------------- an insertion-ordered map ---- */

  predicate NamesDistinct(attributes: seq<Attribute>)
  {
    forall i, j :: 0 <= i < j < |attributes| ==> attributes[i].name != attributes[j].name
  }

  function Lookup(attributes: seq<Attribute>, name: string): (value: string)
  {
    var k := IndexOf(attributes, name);
    if k < |attributes| then attributes[k].value else ""
  }

  /** Setting an attribute: it then has the value, every other attribute keeps its own, no name occurs
      twice, and what was there stays where it was. */
  lemma SetIsMapUpdate(attributes: seq<Attribute>, name: string, value: string, other: string)
    requires NamesDistinct(attributes)
    ensures var r := With(attributes, name, value);
            NamesDistinct(r) && HasAttribute(r, name) &&
            (HasAttribute(r, other) <==> other == name || HasAttribute(attributes, other)) &&
            Lookup(r, other) == (if other == name then value else Lookup(attributes, other)) &&
            |attributes| <= |r| && forall i :: 0 <= i < |attributes| ==> r[i].name == attributes[i].name
  {
    var r, k := With(attributes, name, value), IndexOf(attributes, name);
    assert r[k] == Attribute(name, value);
    assert IndexOf(r, name) == k;
    SameIndex(attributes, r, other, name);
  }

  lemma SameIndex(a: seq<Attribute>, r: seq<Attribute>, other: string, name: string)
    requires other != name ==> |a| <= |r| <= |a| + 1 && (forall i :: 0 <= i < |a| && a[i].name != name ==> r[i] == a[i])
    requires forall i :: 0 <= i < |a| && i < |r| && a[i].name == name ==> r[i].name == name
    requires |r| == |a| + 1 ==> r[|a|].name == name
    ensures other != name ==> Lookup(r, other) == Lookup(a, other)
    ensures other != name ==> (HasAttribute(r, other) <==> HasAttribute(a, other))
  {
    if other != name {
      var k := IndexOf(a, other);
      if k < |a| {
        assert IndexOf(r, other) == k;
        assert r[k] == a[k];
      } else {
        assert IndexOf(r, other) == |r|;
      }
    }
  }

  /** Copying attributes with distinct names into an empty set reproduces them, in order. */
  lemma {:induction false} CopyReproduces(attributes: seq<Attribute>)
    requires NamesDistinct(attributes)
    ensures WithAll([], attributes) == attributes
    decreases |attributes|
  {
    if |attributes| > 0 {
      var before, last := attributes[..|attributes| - 1], attributes[|attributes| - 1];
      CopyReproduces(before);
      assert IndexOf(before, last.name) == |before|;
      assert attributes == before + [last];
    }
  }

  /** Removing an attribute: it is gone, and the others are as before. */
  lemma RemoveIsMapRemoval(attributes: seq<Attribute>, k: nat, other: string)
    requires NamesDistinct(attributes) && k < |attributes|
    ensures var r := Removed(attributes, k);
            NamesDistinct(r) && !HasAttribute(r, attributes[k].name) &&
            (other != attributes[k].name ==> Lookup(r, other) == Lookup(attributes, other))
  {
    var r := Removed(attributes, k);
    assert forall i :: 0 <= i < |r| ==> r[i] == attributes[if i < k then i else i + 1];
    if other != attributes[k].name {
      var j := IndexOf(attributes, other);
      if j < |attributes| {
        assert r[if j < k then j else j - 1] == attributes[j];
        assert IndexOf(r, other) == if j < k then j else j - 1;
      } else {
        assert IndexOf(r, other) == |r|;
      }
    }
  }

  /** Places k - 1 and k + 1 have been linked to each other. */
  twostate lemma RingClosed(s: AttributeSet, new k: nat)
    requires old(s.Valid()) && k < |old(s.nodes)| && s.nodes == Removed(old(s.nodes), k)
    requires forall i :: -1 <= i <= |old(s.nodes)| && i != k ==>
               var x := old(s.At(i));
               x.next == (if x == old(s.At(k - 1)) then old(s.At(k + 1)) else old(x.next)) &&
               x.prev == (if x == old(s.At(k + 1)) then old(s.At(k - 1)) else old(x.prev))
    requires forall i :: 0 <= i < |old(s.nodes)| ==> old(s.nodes)[i].value == old(s.nodes[i].value)
    ensures s.Valid() && old(s.nodes)[k] !in s.nodes
    ensures Contents(s.nodes) == Removed(old(Contents(s.nodes)), k)
  {
    forall i | 0 <= i <= |s.nodes| ensures s.LinkOk(i) {
      var j := if i < k then i else i + 1;
      assert old(s.LinkOk(j)) && old(s.LinkOk(i));
      assert s.At(i) == old(s.At(j)) && s.At(i - 1) == old(s.At(if i <= k then i - 1 else i));
    }
  }
}

/** Cloning a node with everything below it (src/ticpp/src/tinyxml.cpp:159-163, 838-842, 859-867): the
    attributes of an element are set on the copy, and the children are cloned one after the other and linked
    to it. The attribute set that is a member of every element is found through a map. */
module DomClone {
  import opened AttributeSet
  import opened Dom
  import opened Sequences
  import opened XmlTree

  /** What a node and its descendants say, without the pointers. */
  datatype Tree = Tree(kind: NodeType, value: string, attributes: seq<Attribute>, children: seq<Tree>)

  datatype Fields = Fields(value: string, attributes: seq<Attribute>, children: seq<DomNode>)

  /** The attributes of the elements among some nodes. */
  type Held = map<DomNode, seq<Attribute>>

  type Heap = map<DomNode, Fields>

  type Ranks = map<DomNode, nat>

  ghost function HeldBy(p: DomNode, held: Held): (attributes: seq<Attribute>)
  {
    if p in held then held[p] else []
  }

  /** The values, the attributes and the lists of some nodes at one moment. */
  ghost function Shape(nodes: set<DomNode>, held: Held): (s: Heap)
    reads nodes
  {
    map p | p in nodes :: Fields(p.value, HeldBy(p, held), p.children)
  }

  /** Children are among the nodes and rank below their parent, so no node is its own descendant. */
  ghost predicate Ranked(s: Heap, rank: Ranks)
  {
    (forall p :: p in s ==> p in rank) &&
    forall p, c :: p in s && c in s[p].children ==> c in s && rank[c] < rank[p]
  }

  ghost function TreeOf(n: DomNode, s: Heap, rank: Ranks): (t: Tree)
    requires n in s && Ranked(s, rank)
    decreases rank[n], 1, 0
  {
    Tree(n.kind, s[n].value, s[n].attributes, TreesOf(s[n].children, s, rank, rank[n]))
  }

  ghost function TreesOf(ns: seq<DomNode>, s: Heap, rank: Ranks, bound: nat): (ts: seq<Tree>)
    requires Ranked(s, rank) && forall n :: n in ns ==> n in s && rank[n] < bound
    ensures |ts| == |ns|
    decreases bound, 0, |ns|
  {
    if |ns| == 0 then []
    else TreesOf(ns[..|ns| - 1], s, rank, bound) + [TreeOf(ns[|ns| - 1], s, rank)]
  }

  /** All nodes of the one state below a rank are the same in the other. */
  ghost predicate SameBelow(s: Heap, rank: Ranks, t: Heap, tank: Ranks, bound: nat)
    requires Ranked(s, rank) && Ranked(t, tank)
  {
    forall p :: p in s && rank[p] < bound ==> p in t && t[p] == s[p] && tank[p] == rank[p]
  }

  /** Trees depend only on the nodes below them. */
  lemma {:induction false} TreesAgree(ns: seq<DomNode>, s: Heap, rank: Ranks, t: Heap,
                                      tank: Ranks, bound: nat)
    requires Ranked(s, rank) && Ranked(t, tank) && SameBelow(s, rank, t, tank, bound)
    requires forall n :: n in ns ==> n in s && rank[n] < bound
    ensures TreesOf(ns, t, tank, bound) == TreesOf(ns, s, rank, bound)
    decreases bound, |ns|
  {
    if |ns| > 0 {
      TreesAgree(ns[..|ns| - 1], s, rank, t, tank, bound);
      var n := ns[|ns| - 1];
      TreesAgree(s[n].children, s, rank, t, tank, rank[n]);
    }
  }

  lemma ForestUnion(a: set<DomNode>, b: set<DomNode>)
    requires Forest(a) && Forest(b)
    ensures Forest(a + b)
  {
    hide ListOk;
  }

  lemma UnlinkedUnion(n: DomNode, a: set<DomNode>, b: set<DomNode>)
    requires Forest(a) && n !in a && Unlinked(n, b)
    ensures Unlinked(n, a + b)
  {
    hide ListOk;
  }

  /** No document lies below a node; LinkEndChild would refuse its clone. */
  ghost predicate NoDocumentBelow(s: Heap)
  {
    forall p, c :: p in s && c in s[p].children ==> c.kind != DOCUMENT
  }

  /** Two disjoint sets of nodes, with k linked under c. */
  ghost function Joined(a: Heap, b: Heap, c: DomNode, k: DomNode): (s: Heap)
    requires c in a
  {
    (a + b)[c := Fields(a[c].value, a[c].attributes, a[c].children + [k])]
  }

  lemma JoinedRanks(a: Heap, aRank: Ranks, b: Heap, bRank: Ranks,
                    c: DomNode, k: DomNode, rank: Ranks)
    requires Ranked(a, aRank) && Ranked(b, bRank) && a.Keys !! b.Keys && c in a && k in b && bRank[k] < aRank[c]
    requires forall p :: p in a ==> p in rank && rank[p] == aRank[p]
    requires forall p :: p in b ==> p in rank && rank[p] == bRank[p]
    ensures Ranked(Joined(a, b, c, k), rank)
  {
    var s := Joined(a, b, c, k);
    JoinedAt(a, b, c, k, c);
    assert forall p :: (p in a ==> p in aRank) && (p in b ==> p in bRank);
    hide Ranked, Joined;
    forall p, x | p in s && x in s[p].children ensures x in s && rank[x] < rank[p] {
      JoinedAt(a, b, c, k, p);
      AllBelow(c, a, aRank);
      if p == c {
        if x != k { assert x in a[c].children; }
      } else if p in b {
        AllBelow(p, b, bRank);
      } else {
        AllBelow(p, a, aRank);
      }
    }
    RanksAre(s, rank);
  }

  lemma RanksAre(s: Heap, rank: Ranks)
    requires forall p :: p in s ==> p in rank
    requires forall p, x :: p in s && x in s[p].children ==> x in s && rank[x] < rank[p]
    ensures Ranked(s, rank)
  {
  }

  lemma JoinedAt(a: Heap, b: Heap, c: DomNode, k: DomNode, p: DomNode)
    requires a.Keys !! b.Keys && c in a && p in Joined(a, b, c, k)
    ensures var f := Joined(a, b, c, k)[p].children;
            if p == c then f == a[c].children + [k]
            else if p in b then f == b[p].children
            else p in a && f == a[p].children
    ensures Joined(a, b, c, k).Keys == a.Keys + b.Keys
  {
  }

  /** Linking a tree under a node appends it to what the node says, if nothing above the node is among the
      nodes. */
  lemma JoinedTrees(a: Heap, aRank: Ranks, b: Heap, bRank: Ranks,
                    c: DomNode, k: DomNode, rank: Ranks)
    requires Ranked(a, aRank) && Ranked(b, bRank) && a.Keys !! b.Keys && c in a && k in b && bRank[k] < aRank[c]
    requires forall p :: p in a ==> p in rank && rank[p] == aRank[p]
    requires forall p :: p in b ==> p in rank && rank[p] == bRank[p]
    ensures var s := Joined(a, b, c, k);
            Ranked(s, rank) &&
            TreesOf(s[c].children, s, rank, rank[c]) ==
              TreesOf(a[c].children, a, aRank, aRank[c]) + [TreeOf(k, b, bRank)]
  {
    JoinedRanks(a, aRank, b, bRank, c, k, rank);
    var s := Joined(a, b, c, k);
    SameUnderJoin(a, aRank, b, bRank, c, k, rank);
    hide Ranked, SameBelow;
    TreesAgree(a[c].children, a, aRank, s, rank, aRank[c]);
    TreesAgree(b[k].children, b, bRank, s, rank, bRank[k]);
    assert s[c].children[..|a[c].children|] == a[c].children && s[k] == b[k];
  }

  lemma SameUnderJoin(a: Heap, aRank: Ranks, b: Heap, bRank: Ranks,
                      c: DomNode, k: DomNode, rank: Ranks)
    requires Ranked(a, aRank) && Ranked(b, bRank) && a.Keys !! b.Keys && c in a && k in b && bRank[k] < aRank[c]
    requires forall p :: p in a ==> p in rank && rank[p] == aRank[p]
    requires forall p :: p in b ==> p in rank && rank[p] == bRank[p]
    ensures var s := Joined(a, b, c, k);
            Ranked(s, rank) && SameBelow(a, aRank, s, rank, aRank[c]) && SameBelow(b, bRank, s, rank, bRank[k])
    ensures forall x :: x in a[c].children ==> x in a && aRank[x] < aRank[c]
    ensures forall x :: x in b[k].children ==> x in b && bRank[x] < bRank[k]
  {
    JoinedRanks(a, aRank, b, bRank, c, k, rank);
  }

  /** A node's children as the loop over them meets them. */
  lemma ChildFacts(n: DomNode, nodes: set<DomNode>, held: Held, rank: Ranks, i: nat)
    requires n in nodes && Forest(nodes) && Ranked(Shape(nodes, held), rank) && i < |n.children|
    requires NoDocumentBelow(Shape(nodes, held))
    ensures var c := n.children[i];
            c.kind != DOCUMENT && c in nodes && c in rank && n in rank && rank[c] < rank[n] &&
            c in Shape(nodes, held)[n].children &&
            c.next == if i + 1 == |n.children| then null else n.children[i + 1]
  {
    ListFacts(n, nodes);
    PointersAt(n, i);
    assert n.children[i] in Shape(nodes, held)[n].children;
  }

  lemma AllBelow(n: DomNode, s: Heap, rank: Ranks)
    requires Ranked(s, rank) && n in s
    ensures n in rank && forall c :: c in s[n].children ==> c in s && rank[c] < rank[n]
  {
  }

  lemma OneMoreTree(ns: seq<DomNode>, i: nat, s: Heap, rank: Ranks, bound: nat)
    requires i < |ns| && Ranked(s, rank) && forall n :: n in ns ==> n in s && rank[n] < bound
    ensures TreesOf(ns[..i + 1], s, rank, bound) == TreesOf(ns[..i], s, rank, bound) + [TreeOf(ns[i], s, rank)]
  {
    assert ns[..i + 1][..i] == ns[..i];
  }

  /** The ranks of two disjoint sets of nodes. */
  ghost function BothRanks(a: Heap, aRank: Ranks, b: Heap, bRank: Ranks):
    (rank: Ranks)
    requires Ranked(a, aRank) && Ranked(b, bRank)
  {
    map p | p in a.Keys + b.Keys :: if p in a then aRank[p] else bRank[p]
  }

  lemma StillUnlinked(c: DomNode, k: DomNode, nodes: set<DomNode>, held: Held, a: Heap, b: Heap)
    requires c in a && c != k && Shape(nodes, held) == Joined(a, b, c, k)
    requires forall p :: p in a ==> c !in a[p].children
    requires forall p :: p in b ==> c !in b[p].children
    ensures Unlinked(c, nodes)
  {
    forall p | p in nodes ensures c !in p.children {
      assert Shape(nodes, held)[p].children == p.children;
    }
  }

  /** Some nodes, what their elements hold, and their ranks. */
  datatype Part = Part(nodes: set<DomNode>, held: Held, rank: Ranks)

  /** A node at the top of its own nodes. */
  ghost predicate Rooted(c: DomNode, p: Part)
    reads p.nodes
  {
    c in p.nodes && Forest(p.nodes) && Unlinked(c, p.nodes) && c.parent == null && p.held.Keys <= p.nodes &&
    Ranked(Shape(p.nodes, p.held), p.rank) && c in p.rank
  }

  /** What a node says. */
  ghost function Says(c: DomNode, p: Part): (t: Tree)
    requires Rooted(c, p)
    reads p.nodes
  {
    TreeOf(c, Shape(p.nodes, p.held), p.rank)
  }

  /** What the children of a node say. */
  ghost function Below(c: DomNode, p: Part): (ts: seq<Tree>)
    requires Rooted(c, p)
    reads p.nodes
  {
    AllBelow(c, Shape(p.nodes, p.held), p.rank);
    TreesOf(c.children, Shape(p.nodes, p.held), p.rank, p.rank[c])
  }

  /** Links a finished copy of a child. */
  method LinkClone(c: DomNode, k: DomNode, ghost more: Part, ghost kMore: Part) returns (ghost both: Part)
    requires Rooted(c, more) && Rooted(k, kMore) && more.nodes !! kMore.nodes && k.kind != DOCUMENT
    requires kMore.rank[k] < more.rank[c]
    modifies more.nodes, kMore.nodes
    ensures both.nodes == more.nodes + kMore.nodes && both.held == more.held + kMore.held && Rooted(c, both)
    ensures c in both.rank && both.rank[c] == more.rank[c] && c.value == old(c.value)
    ensures Below(c, both) == old(Below(c, more)) + [old(Says(k, kMore))]
  {
    hide ListOk, ChildOk, TreesOf, TreeOf, Ranked, Joined, Forest, Unlinked, BothRanks, Inserted;
    ghost var a, b := Shape(more.nodes, more.held), Shape(kMore.nodes, kMore.held);
    ghost var nodes, held := more.nodes + kMore.nodes, more.held + kMore.held;
    ForestUnion(more.nodes, kMore.nodes);
    UnlinkedUnion(k, more.nodes, kMore.nodes);
    UnlinkedUnion(c, kMore.nodes, more.nodes);
    ApartUnlinked(c, more, kMore);
    var linked := c.LinkEndChild(k, nodes);
    both := Part(nodes, held, BothRanks(a, more.rank, b, kMore.rank));
    JoinedShape(c, k, both, a, b);
    RanksOfBoth(a, more.rank, b, kMore.rank);
    JoinedTrees(a, more.rank, b, kMore.rank, c, k, both.rank);
    StillUnlinked(c, k, nodes, held, a, b);
  }

  /** The attribute set is in order and holds these attributes. */
  ghost predicate SetHolds(t: AttributeSet, attributes: seq<Attribute>)
    reads t, t.sentinel, t.nodes
  {
    t.Valid() && Contents(t.nodes) == attributes
  }

  /** Exactly the elements among the nodes have attribute sets. */
  ghost predicate ElementsOnly(nodes: set<DomNode>, keys: set<DomNode>)
  {
    keys <= nodes && forall p :: p in nodes ==> (p.kind == ELEMENT <==> p in keys)
  }

  /** A copy of an attribute set. */
  method CopyOf(s: AttributeSet) returns (t: AttributeSet)
    requires s.Valid()
    ensures t.Valid() && fresh(t) && fresh(t.sentinel) && fresh(t.Footprint())
    ensures Contents(t.nodes) == Contents(s.nodes)
  {
    t := new AttributeSet();
    assert Contents(t.nodes) == [];
    s.CopyTo(t);
    CopyReproduces(Contents(s.nodes));
  }

  /** Nodes that can be cloned: a forest without documents below its roots, and an attribute set for each
      element. */
  ghost predicate Clonable(sets: map<DomNode, AttributeSet>, all: Part)
    reads all.nodes
  {
    Forest(all.nodes) && Ranked(Shape(all.nodes, all.held), all.rank) &&
    NoDocumentBelow(Shape(all.nodes, all.held)) && ElementsOnly(all.nodes, sets.Keys) && sets.Keys == all.held.Keys
  }

  /** The copy says what the original says, attributes and all, and shares no node and no attribute set with
      it. */
  method Clone(n: DomNode, sets: map<DomNode, AttributeSet>, ghost all: Part)
    returns (c: DomNode, copies: map<DomNode, AttributeSet>, ghost more: Part)
    requires n in all.nodes && Clonable(sets, all) && forall p :: p in sets ==> SetHolds(sets[p], all.held[p])
    ensures fresh(more.nodes) && Rooted(c, more) && c.kind == n.kind
    ensures c in more.rank && more.rank[c] == all.rank[n]
    ensures ElementsOnly(more.nodes, copies.Keys) && copies.Keys == more.held.Keys
    ensures forall p :: p in copies ==> fresh(copies[p]) && SetHolds(copies[p], more.held[p])
    ensures Says(c, more) == TreeOf(n, Shape(all.nodes, all.held), all.rank)
    decreases all.rank[n], 0
  {
    hide ListOk, ChildOk, TreesOf, Below, Ranked, Forest, Rooted, NoDocumentBelow, SetHolds, Says, ElementsOnly;
    ghost var shape := Shape(all.nodes, all.held);
    AllBelow(n, shape, all.rank);
    TreeOfIs(n, all);
    hide Shape, TreeOf;
    ghost var own := all.rank[n];
    c, copies, more := CloneNode(n, sets, all);
    ListFacts(n, all.nodes);
    NoTrees(n.children, shape, all.rank, own);
    var node := n.firstChild;
    ghost var i := 0;
    while node != null
      invariant i <= |n.children| && node == (if i == |n.children| then null else n.children[i])
      invariant fresh(more.nodes) && Rooted(c, more) && c.value == n.value
      invariant c in more.rank && more.rank[c] == own
      invariant ElementsOnly(more.nodes, copies.Keys) && copies.Keys == more.held.Keys
      invariant forall p :: p in copies ==> fresh(copies[p]) && SetHolds(copies[p], more.held[p])
      invariant HeldBy(c, more.held) == HeldBy(n, all.held)
      invariant Below(c, more) == TreesOf(n.children[..i], shape, all.rank, own)
      decreases |n.children| - i
    {
      ChildFacts(n, all.nodes, all.held, all.rank, i);
      copies, more := CloneChild(c, node, sets, all, copies, more);
      OneMoreTree(n.children, i, shape, all.rank, own);
      i := i + 1;
      node := node.next;
    }
    assert n.children[..i] == n.children;
    SaysIs(c, more);
  }

  lemma TreeOfIs(n: DomNode, p: Part)
    requires n in p.nodes && Ranked(Shape(p.nodes, p.held), p.rank)
    ensures var s := Shape(p.nodes, p.held);
            n in p.rank && n in s && s[n].children == n.children &&
            (forall c :: c in n.children ==> c in s && p.rank[c] < p.rank[n]) &&
            TreeOf(n, s, p.rank) ==
            Tree(n.kind, n.value, HeldBy(n, p.held), TreesOf(n.children, s, p.rank, p.rank[n]))
  {
    AllBelow(n, Shape(p.nodes, p.held), p.rank);
  }

  /** The body of the loop: one child is cloned and its copy linked. */
  method CloneChild(c: DomNode, node: DomNode, sets: map<DomNode, AttributeSet>, ghost all: Part,
                    before: map<DomNode, AttributeSet>, ghost more: Part)
    returns (copies: map<DomNode, AttributeSet>, ghost both: Part)
    requires node in all.nodes && Clonable(sets, all) && forall p :: p in sets ==> SetHolds(sets[p], all.held[p])
    requires node.kind != DOCUMENT && node in all.rank
    requires Rooted(c, more) && c in more.rank && all.rank[node] < more.rank[c]
    requires ElementsOnly(more.nodes, before.Keys) && before.Keys == more.held.Keys && more.nodes !! all.nodes
    requires forall p :: p in before ==> SetHolds(before[p], more.held[p])
    modifies more.nodes
    ensures more.nodes <= both.nodes && fresh(both.nodes - more.nodes) && Rooted(c, both) && c.value == old(c.value)
    ensures c in both.rank && both.rank[c] == more.rank[c] && HeldBy(c, both.held) == HeldBy(c, more.held)
    ensures ElementsOnly(both.nodes, copies.Keys) && copies.Keys == both.held.Keys
    ensures forall p :: p in copies ==>
              ((p in before && copies[p] == before[p]) || fresh(copies[p])) && SetHolds(copies[p], both.held[p])
    ensures Below(c, both) == old(Below(c, more)) + [old(TreeOf(node, Shape(all.nodes, all.held), all.rank))]
    decreases all.rank[node], 1
  {
    hide ListOk, ChildOk, TreesOf, Below, Ranked, Forest, Rooted, NoDocumentBelow, SetHolds, Says, ElementsOnly, TreeOf;
    hide Unlinked, Shape;
    var k, kCopies;
    ghost var kMore;
    k, kCopies, kMore := Clone(node, sets, all);
    BothElements(more.nodes, before.Keys, kMore.nodes, kCopies.Keys);
    RootIsThere(c, more);
    both := LinkClone(c, k, more, kMore);
    copies := before + kCopies;
  }

  lemma RootIsThere(c: DomNode, p: Part)
    requires Rooted(c, p)
    ensures c in p.nodes
  {
  }

  lemma BothElements(a: set<DomNode>, aKeys: set<DomNode>, b: set<DomNode>, bKeys: set<DomNode>)
    requires ElementsOnly(a, aKeys) && ElementsOnly(b, bKeys) && a !! b
    ensures ElementsOnly(a + b, aKeys + bKeys) && aKeys <= a && bKeys <= b
  {
  }

  /** The node itself, with its value and its attributes. */
  method CloneNode(n: DomNode, sets: map<DomNode, AttributeSet>, ghost all: Part)
    returns (c: DomNode, copies: map<DomNode, AttributeSet>, ghost more: Part)
    requires n in all.nodes && n in all.rank && ElementsOnly(all.nodes, sets.Keys)
    requires sets.Keys == all.held.Keys
    requires forall p :: p in sets ==> SetHolds(sets[p], all.held[p])
    ensures fresh(more.nodes) && Rooted(c, more) && c.kind == n.kind && c.value == n.value
    ensures c in more.rank && more.rank[c] == all.rank[n]
    ensures ElementsOnly(more.nodes, copies.Keys) && copies.Keys == more.held.Keys
    ensures forall p :: p in copies ==> fresh(copies[p]) && SetHolds(copies[p], more.held[p])
    ensures HeldBy(c, more.held) == HeldBy(n, all.held) && Below(c, more) == []
  {
    hide ListOk, Rooted, Below;
    c := new DomNode(n.kind, n.value);
    copies := map[];
    more := Part({c}, map[], map[c := all.rank[n]]);
    if n.kind == ELEMENT {
      var t := CopyOf(sets[n]);
      copies := map[c := t];
      more := more.(held := map[c := all.held[n]]);
    }
    OneNode(c, more);
  }

  lemma JoinedShape(c: DomNode, k: DomNode, both: Part, a: Heap, b: Heap)
    requires both.nodes == a.Keys + b.Keys && c in a && a.Keys !! b.Keys
    requires forall p :: p in both.nodes && p != c ==>
               Fields(p.value, HeldBy(p, both.held), p.children) == if p in a then a[p] else b[p]
    requires c.value == a[c].value && HeldBy(c, both.held) == a[c].attributes
    requires c.children == Inserted(a[c].children, |a[c].children|, k)
    ensures Shape(both.nodes, both.held) == Joined(a, b, c, k)
  {
    assert Inserted(a[c].children, |a[c].children|, k) == a[c].children + [k];
  }

  lemma RanksOfBoth(a: Heap, aRank: Ranks, b: Heap, bRank: Ranks)
    requires Ranked(a, aRank) && Ranked(b, bRank) && a.Keys !! b.Keys
    ensures var rank := BothRanks(a, aRank, b, bRank);
            (forall p :: p in a ==> p in rank && rank[p] == aRank[p]) &&
            forall p :: p in b ==> p in rank && rank[p] == bRank[p]
  {
  }

  lemma ApartUnlinked(c: DomNode, more: Part, other: Part)
    requires Forest(other.nodes) && c !in other.nodes && Unlinked(c, more.nodes)
    ensures var s := Shape(more.nodes, more.held); forall p :: p in s ==> c !in s[p].children
    ensures var s := Shape(other.nodes, other.held); forall p :: p in s ==> c !in s[p].children
  {
    hide ListOk;
  }

  lemma OneNode(c: DomNode, p: Part)
    requires c.children == [] && ListOk(c) && c in p.rank && c.parent == null && p.nodes == {c} && p.held.Keys <= {c}
    ensures Rooted(c, p) && Below(c, p) == []
  {
  }

  lemma NoTrees(ns: seq<DomNode>, s: Heap, rank: Ranks, bound: nat)
    requires Ranked(s, rank)
    ensures TreesOf(ns[..0], s, rank, bound) == []
  {
  }

  lemma SaysIs(c: DomNode, p: Part)
    requires Rooted(c, p)
    ensures Says(c, p) == Tree(c.kind, c.value, HeldBy(c, p.held), Below(c, p))
  {
    AllBelow(c, Shape(p.nodes, p.held), p.rank);
  }
}

/** The nodes of the document object model as the source keeps them: each with pointers to its parent, its
    siblings and its first and last child (src/ticpp/src/tinyxml.cpp:134-345).

    A node handed to an operation is one that is in no list yet; where the source clones its argument, it is
    the clone. */
module Dom {
  import opened Sequences

  datatype NodeType = DOCUMENT | ELEMENT | COMMENT | UNKNOWN | TEXT | DECLARATION

  class DomNode {
    const kind: NodeType
    var value: string
    var parent: DomNode?
    var prev: DomNode?
    var next: DomNode?
    var firstChild: DomNode?
    var lastChild: DomNode?
    ghost var children: seq<DomNode>

    constructor (kind: NodeType, value: string)
      ensures this.kind == kind && this.value == value && children == [] && parent == null
      ensures ListOk(this)
    {
      this.kind, this.value := kind, value;
      parent, prev, next, firstChild, lastChild := null, null, null, null, null;
      children := [];
    }

    /** Appends a node. A document node is refused. */
    method LinkEndChild(node: DomNode, ghost nodes: set<DomNode>) returns (r: DomNode?)
      requires Forest(nodes) && this in nodes && node in nodes && Unlinked(node, nodes) && node != this
      requires node.parent == null || node.parent == this
      modifies nodes
      ensures Forest(nodes) && OthersStay(this, nodes)
      ensures r == (if node.kind == DOCUMENT then null else node)
      ensures children == if node.kind == DOCUMENT then old(children)
              else Inserted(old(children), |old(children)|, node)
      ensures parent == old(parent)
    {
      hide Forest, ListOk, ChildOk, Inserted, Removed, Unlinked;
      if node.kind == DOCUMENT {
        return null;
      }
      ListFacts(this, nodes);
      ghost var k := |children|;
      ghost var changed := {node} + if k == 0 then {} else {children[k - 1]};
      InNoOtherList(this, nodes, changed);
      node.parent := this;
      node.prev := lastChild;
      node.next := null;
      if lastChild != null {
        lastChild.next := node;
      } else {
        firstChild := node;
      }
      lastChild := node;
      children := Inserted(children, k, node);
      InsertedOk(this, k, node);
      OtherListsStay(this, nodes, changed);
      r := node;
    }

    /** Puts a node before one of the children; refused if that is not a child, or for a document node. */
    method InsertBeforeChild(beforeThis: DomNode?, node: DomNode, ghost nodes: set<DomNode>,
        ghost k: nat) returns (r: DomNode?)
      requires Forest(nodes) && this in nodes && node in nodes && Unlinked(node, nodes) && node != this
      requires beforeThis != null ==> beforeThis in nodes
      requires beforeThis != null && beforeThis.parent == this ==> k < |children| && children[k] == beforeThis
      modifies nodes
      ensures Forest(nodes) && OthersStay(this, nodes)
      ensures r == if beforeThis == null || old(beforeThis.parent) != this || node.kind == DOCUMENT then null
                   else node
      ensures children == if r == null then old(children) else Inserted(old(children), k, node)
    {
      hide Forest, ListOk, ChildOk, Inserted, Removed, Unlinked;
      if beforeThis == null || beforeThis.parent != this {
        return null;
      }
      if node.kind == DOCUMENT {
        return null;
      }
      ListFacts(this, nodes);
      PointersAt(this, k);
      ghost var changed := {node, beforeThis} + if k == 0 then {} else {children[k - 1]};
      InNoOtherList(this, nodes, changed);
      node.parent := this;
      node.next := beforeThis;
      node.prev := beforeThis.prev;
      if beforeThis.prev != null {
        beforeThis.prev.next := node;
      } else {
        firstChild := node;
      }
      beforeThis.prev := node;
      children := Inserted(children, k, node);
      InsertedOk(this, k, node);
      OtherListsStay(this, nodes, changed);
      r := node;
    }

    /** Puts a node after one of the children. */
    method InsertAfterChild(afterThis: DomNode?, node: DomNode, ghost nodes: set<DomNode>,
        ghost k: nat) returns (r: DomNode?)
      requires Forest(nodes) && this in nodes && node in nodes && Unlinked(node, nodes) && node != this
      requires afterThis != null ==> afterThis in nodes
      requires afterThis != null && afterThis.parent == this ==> k < |children| && children[k] == afterThis
      modifies nodes
      ensures Forest(nodes) && OthersStay(this, nodes)
      ensures r == (if afterThis == null || old(afterThis.parent) != this || node.kind == DOCUMENT then null else node)
      ensures children == if r == null then old(children) else Inserted(old(children), k + 1, node)
    {
      hide Forest, ListOk, ChildOk, Inserted, Removed, Unlinked;
      if afterThis == null || afterThis.parent != this {
        return null;
      }
      if node.kind == DOCUMENT {
        return null;
      }
      ListFacts(this, nodes);
      PointersAt(this, k);
      ghost var changed := {node, afterThis} + if k + 1 == |children| then {} else {children[k + 1]};
      InNoOtherList(this, nodes, changed);
      node.parent := this;
      node.prev := afterThis;
      node.next := afterThis.next;
      if afterThis.next != null {
        afterThis.next.prev := node;
      } else {
        lastChild := node;
      }
      afterThis.next := node;
      children := Inserted(children, k + 1, node);
      InsertedOk(this, k + 1, node);
      OtherListsStay(this, nodes, changed);
      r := node;
    }

    /** Puts a node in the place of one of the children, which is in no list afterwards. A document node is
        not refused here. */
    method ReplaceChild(replaceThis: DomNode, node: DomNode, ghost nodes: set<DomNode>,
        ghost k: nat) returns (r: DomNode?)
      requires Forest(nodes) && this in nodes && node in nodes && Unlinked(node, nodes) && node != this
      requires replaceThis in nodes && (replaceThis.parent == this ==> k < |children| && children[k] == replaceThis)
      modifies nodes
      ensures Forest(nodes) && OthersStay(this, nodes)
      ensures r == if old(replaceThis.parent) != this then null else node
      ensures children == if r == null then old(children) else old(children)[k := node]
      ensures r != null ==> Unlinked(replaceThis, nodes)
    {
      hide Forest, ListOk, ChildOk, Inserted, Removed, Unlinked;
      if replaceThis.parent != this {
        return null;
      }
      ListFacts(this, nodes);
      PointersAt(this, k);
      ghost var changed := {node, replaceThis} + (if k == 0 then {} else {children[k - 1]})
                           + if k + 1 == |children| then {} else {children[k + 1]};
      InNoOtherList(this, nodes, changed);
      node.next := replaceThis.next;
      node.prev := replaceThis.prev;
      PutBetween(node, nodes);
      children := children[k := node];
      ReplacedOk(this, k, node);
      OtherListsStay(this, nodes, changed);
      r := node;
    }

    /** The neighbours and the ends of the list let the node in. */
    method PutBetween(node: DomNode, ghost nodes: set<DomNode>)
      requires this in nodes && node in nodes && node != this
      requires node.next != null ==> node.next in nodes && node.next != node
      requires node.prev != null ==> node.prev in nodes && node.prev != node
      modifies this`firstChild, this`lastChild, nodes`prev, nodes`next, node`parent
      ensures node.parent == this && node.next == old(node.next) && node.prev == old(node.prev)
      ensures firstChild == (if node.prev == null then node else old(firstChild))
      ensures lastChild == (if node.next == null then node else old(lastChild))
      ensures forall c :: c in nodes && c != node ==>
                c.prev == (if c == node.next then node else old(c.prev)) &&
                c.next == if c == node.prev then node else old(c.next)
    {
      if node.next != null {
        node.next.prev := node;
      } else {
        lastChild := node;
      }
      if node.prev != null {
        node.prev.next := node;
      } else {
        firstChild := node;
      }
      node.parent := this;
    }

    /** Takes one of the children out; anything else is refused. */
    method RemoveChild(removeThis: DomNode, ghost nodes: set<DomNode>, ghost k: nat) returns (done: bool)
      requires Forest(nodes) && this in nodes
      requires removeThis in nodes && (removeThis.parent == this ==> k < |children| && children[k] == removeThis)
      modifies nodes
      ensures Forest(nodes) && OthersStay(this, nodes)
      ensures done == (old(removeThis.parent) == this)
      ensures children == if done then Removed(old(children), k) else old(children)
      ensures done ==> Unlinked(removeThis, nodes)
    {
      hide Forest, ListOk, ChildOk, Inserted, Removed, Unlinked;
      if removeThis.parent != this {
        return false;
      }
      ListFacts(this, nodes);
      PointersAt(this, k);
      ghost var changed := {removeThis} + (if k == 0 then {} else {children[k - 1]})
                           + if k + 1 == |children| then {} else {children[k + 1]};
      InNoOtherList(this, nodes, changed);
      if removeThis.next != null {
        removeThis.next.prev := removeThis.prev;
      } else {
        lastChild := removeThis.prev;
      }
      if removeThis.prev != null {
        removeThis.prev.next := removeThis.next;
      } else {
        firstChild := removeThis.next;
      }
      children := Removed(children, k);
      RemovedOk(this, k);
      OtherListsStay(this, nodes, changed);
      done := true;
    }

    /** The first child with the given value. */
    method FirstChild(v: string) returns (r: DomNode?)
      requires ListOk(this)
      ensures r == null ==> forall i :: 0 <= i < |children| ==> children[i].value != v
      ensures r != null ==> exists k :: 0 <= k < |children| && children[k] == r && r.value == v &&
                              forall i :: 0 <= i < k ==> children[i].value != v
    {
      ghost var i := 0;
      r := firstChild;
      while r != null
        invariant i <= |children| && r == (if i == |children| then null else children[i])
        invariant forall j :: 0 <= j < i ==> children[j].value != v
        decreases |children| - i
      {
        PointersAt(this, i);
        if r.value == v {
          return;
        }
        r := r.next;
        i := i + 1;
      }
    }

    /** Following `next` from the first child meets the children in order. */
    method ReadForward() returns (s: seq<DomNode>)
      requires ListOk(this)
      ensures s == children
    {
      s := [];
      var node := firstChild;
      while node != null
        invariant s <= children && node == (if |s| == |children| then null else children[|s|])
        decreases |children| - |s|
      {
        PointersAt(this, |s|);
        s := s + [node];
        node := node.next;
      }
    }

    /** Following `prev` from the last child meets them in the opposite order. */
    method ReadBackward() returns (s: seq<DomNode>)
      requires ListOk(this)
      ensures |s| == |children| && forall i :: 0 <= i < |s| ==> s[i] == children[|s| - 1 - i]
    {
      s := [];
      var node := lastChild;
      while node != null
        invariant |s| <= |children| && node == (if |s| == |children| then null else children[|children| - 1 - |s|])
        invariant forall i :: 0 <= i < |s| ==> s[i] == children[|children| - 1 - i]
        decreases |children| - |s|
      {
        PointersAt(this, |children| - 1 - |s|);
        s := s + [node];
        node := node.prev;
      }
    }
  }

  /** The pointers of a node and its children spell out the list `children`, readable from either end. */
  ghost predicate ListOk(p: DomNode)
    reads p, p.children
  {
    var c := p.children;
    p.firstChild == (if c == [] then null else c[0]) && p.lastChild == (if c == [] then null else c[|c| - 1]) &&
    (forall i :: 0 <= i < |c| ==> ChildOk(p, i)) &&
    forall i, j :: 0 <= i < j < |c| ==> c[i] != c[j]
  }

  ghost predicate ChildOk(p: DomNode, i: nat)
    requires i < |p.children|
    reads p, p.children
  {
    var c := p.children;
    c[i].parent == p && c[i] != p &&
    c[i].prev == (if i == 0 then null else c[i - 1]) && c[i].next == (if i + 1 == |c| then null else c[i + 1])
  }

  /** The pointers of the i-th child. */
  lemma PointersAt(p: DomNode, i: nat)
    requires ListOk(p) && i < |p.children|
    ensures var c := p.children;
            c[i].prev == (if i == 0 then null else c[i - 1]) && c[i].next == (if i + 1 == |c| then null else c[i + 1])
  {
    assert ChildOk(p, i);
  }

  /** A list, its members, and the other lists. */
  lemma ListFacts(p: DomNode, nodes: set<DomNode>)
    requires Forest(nodes) && p in nodes
    ensures ListOk(p)
    ensures p.firstChild == (if p.children == [] then null else p.children[0])
    ensures p.lastChild == (if p.children == [] then null else p.children[|p.children| - 1])
    ensures forall i :: 0 <= i < |p.children| ==>
              p.children[i] in nodes && p.children[i].parent == p && p.children[i] != p
    ensures forall i, j :: 0 <= i < j < |p.children| ==> p.children[i] != p.children[j]
    ensures forall q, i :: q in nodes && q != p && 0 <= i < |p.children| ==> p.children[i] !in q.children
  {
    MembersKnowParent(p);
    forall i | 0 <= i < |p.children| ensures p.children[i] in nodes && p.children[i].parent == p && p.children[i] != p {
      assert p.children[i] in p.children;
    }
    forall q, i | q in nodes && q != p && 0 <= i < |p.children| ensures p.children[i] !in q.children {
      MembersKnowParent(q);
    }
  }

  /** The nodes an operation changes are in its own list or in none. */
  lemma InNoOtherList(p: DomNode, nodes: set<DomNode>, changed: set<DomNode>)
    requires Forest(nodes) && p in nodes && forall c :: c in changed ==> c in p.children || Unlinked(c, nodes)
    ensures forall q, c :: q in nodes && q != p && c in changed ==> c !in q.children
    ensures forall c :: c in changed && Unlinked(c, nodes) ==> c !in p.children
  {
    ListFacts(p, nodes);
  }

  lemma MembersKnowParent(p: DomNode)
    requires ListOk(p)
    ensures forall c :: c in p.children ==> c.parent == p && c != p
  {
    forall c | c in p.children ensures c.parent == p && c != p {
      var i :| 0 <= i < |p.children| && p.children[i] == c;
      assert ChildOk(p, i);
    }
  }

  /** Every list among the nodes is in order; as a child knows its parent, no node is in two lists. */
  ghost predicate Forest(nodes: set<DomNode>)
    reads nodes
  {
    forall p :: p in nodes ==> (forall c :: c in p.children ==> c in nodes) && ListOk(p)
  }

  ghost predicate Unlinked(node: DomNode, nodes: set<DomNode>)
    reads nodes
  {
    forall p :: p in nodes ==> node !in p.children
  }

  /** The pointer changes that put a node at position k. */
  twostate lemma InsertedOk(p: DomNode, new k: nat, new node: DomNode)
    requires old(ListOk(p)) && k <= |old(p.children)| && node !in old(p.children) && node != p
    requires p.children == Inserted(old(p.children), k, node)
    requires var c := old(p.children);
             node.parent == p && node.prev == (if k == 0 then null else c[k - 1]) &&
             node.next == (if k == |c| then null else c[k]) &&
             p.firstChild == (if k == 0 then node else old(p.firstChild)) &&
             p.lastChild == (if k == |c| then node else old(p.lastChild)) &&
             forall i :: 0 <= i < |c| ==>
               c[i].parent == p && c[i].prev == (if i == k then node else old(c[i].prev)) &&
               c[i].next == if i + 1 == k then node else old(c[i].next)
    ensures ListOk(p) && forall c :: c in p.children <==> c == node || c in old(p.children)
  {
    InsertedAt(old(p.children), k, node);
    forall i | 0 <= i < |p.children| ensures ChildOk(p, i) {
      if i < k { assert old(ChildOk(p, i)); }
      if i > k { assert old(ChildOk(p, i - 1)); }
    }
  }

  /** The pointer changes that put a node in the place of the k-th child. */
  twostate lemma ReplacedOk(p: DomNode, new k: nat, new node: DomNode)
    requires old(ListOk(p)) && k < |old(p.children)| && node !in old(p.children) && node != p
    requires p.children == old(p.children)[k := node]
    requires var c := old(p.children);
             node.parent == p && node.prev == (if k == 0 then null else c[k - 1]) &&
             node.next == (if k + 1 == |c| then null else c[k + 1]) &&
             p.firstChild == (if k == 0 then node else old(p.firstChild)) &&
             p.lastChild == (if k + 1 == |c| then node else old(p.lastChild)) &&
             forall i :: 0 <= i < |c| && i != k ==>
               c[i].parent == p && c[i].prev == (if i == k + 1 then node else old(c[i].prev)) &&
               c[i].next == if i + 1 == k then node else old(c[i].next)
    ensures ListOk(p) && old(p.children)[k] !in p.children
    ensures forall c :: c in p.children ==> c == node || c in old(p.children)
  {
    forall i | 0 <= i < |p.children| ensures ChildOk(p, i) {
      assert old(ChildOk(p, i));
    }
  }

  /** The pointer changes that take out the k-th child. */
  twostate lemma RemovedOk(p: DomNode, new k: nat)
    requires old(ListOk(p)) && k < |old(p.children)| && p.children == Removed(old(p.children), k)
    requires var c := old(p.children);
             p.firstChild == (if k == 0 then old(c[k].next) else old(p.firstChild)) &&
             p.lastChild == (if k + 1 == |c| then old(c[k].prev) else old(p.lastChild)) &&
             forall i :: 0 <= i < |c| && i != k ==>
               c[i].parent == p && c[i].prev == (if i == k + 1 then old(c[k].prev) else old(c[i].prev)) &&
               c[i].next == if i + 1 == k then old(c[k].next) else old(c[i].next)
    ensures ListOk(p) && old(p.children)[k] !in p.children && forall c :: c in p.children ==> c in old(p.children)
  {
    assert old(ChildOk(p, k));
    RemovedAt(old(p.children), k);
    forall i | 0 <= i < |p.children| ensures ChildOk(p, i) {
      assert old(ChildOk(p, if i < k then i else i + 1));
    }
  }

  /** A list is untouched when neither its owner nor any of its members is among the changed nodes. */
  twostate lemma OtherListsStay(new p: DomNode, nodes: set<DomNode>, new changed: set<DomNode>)
    requires old(Forest(nodes)) && p in nodes && ListOk(p) && forall c :: c in p.children ==> c in nodes
    requires forall q :: q in nodes && q != p ==>
               q.children == old(q.children) && q.firstChild == old(q.firstChild) && q.lastChild == old(q.lastChild)
    requires forall q :: q in nodes && q !in changed ==>
               q.parent == old(q.parent) && q.prev == old(q.prev) && q.next == old(q.next)
    requires forall q, c :: q in nodes && q != p && c in changed ==> c !in old(q.children)
    ensures Forest(nodes)
    ensures forall c :: c in changed && c !in p.children ==> Unlinked(c, nodes)
  {
    forall q | q in nodes && q != p ensures ListOk(q) && forall c :: c in q.children ==> c in nodes {
      assert old(ListOk(q));
      forall i | 0 <= i < |q.children| ensures ChildOk(q, i) {
        assert old(ChildOk(q, i)) && q.children[i] in q.children;
      }
    }
  }

  /** No other list changes, and no value. */
  twostate predicate OthersStay(p: DomNode, nodes: set<DomNode>)
    reads nodes
  {
    forall q :: q in nodes ==> q.value == old(q.value) && (q != p ==> q.children == old(q.children))
  }
}

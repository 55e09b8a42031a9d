/**
 The child list of xframe/comserv/tinyxml.C: a doubly linked list threaded through the nodes.

 `children` is the abstract sequence. The nodes handed in are fresh clones: in no list, with no
 parent. What `Clone` yields is a parameter, null when it fails.
 */
module Xml {

  function InsertAt<T>(s: seq<T>, i: nat, x: T): seq<T>
    requires i <= |s|
  {
    s[..i] + [x] + s[i..]
  }

  function RemoveAt<T>(s: seq<T>, i: nat): seq<T>
    requires i < |s|
  {
    s[..i] + s[i + 1..]
  }

  predicate Distinct<T(==)>(s: seq<T>) { forall i, j :: 0 <= i < j < |s| ==> s[i] != s[j] }

  function Reversed<T>(s: seq<T>): seq<T> {
    if s == [] then [] else Reversed(s[1..]) + [s[0]]
  }

  class XmlNode {
    const isDocument: bool
    var parent: XmlNode?
    var firstChild: XmlNode?
    var lastChild: XmlNode?
    var prev: XmlNode?
    var next: XmlNode?
    ghost var children: seq<XmlNode>

    constructor (isDocument: bool)
      ensures Valid() && Loose() && children == [] && this.isDocument == isDocument
    {
      this.isDocument := isDocument;
      parent, firstChild, lastChild, prev, next := null, null, null, null, null;
      children := [];
    }

    /** In no child list. */
    predicate Loose() reads this { parent == null && prev == null && next == null }

    /** Forward and backward links agree, all parents are this node, and no node occurs twice. */
    ghost predicate Valid()
      reads this, children
    {
      ListOf(children)
    }

    ghost predicate ListOf(c: seq<XmlNode>)
      reads this, c
    {
      && this !in c && Distinct(c)
      && firstChild == (if c == [] then null else c[0])
      && lastChild == (if c == [] then null else c[|c| - 1])
      && (forall i {:trigger c[i].parent} :: 0 <= i < |c| ==> c[i].parent == this)
      && (forall i {:trigger c[i].prev} :: 0 <= i < |c| ==> c[i].prev == if i == 0 then null else c[i - 1])
      && (forall i {:trigger c[i].next} :: 0 <= i < |c| ==> c[i].next == if i == |c| - 1 then null else c[i + 1])
    }

    /** `node` has been spliced into the list `c` so that it becomes element k. */
    ghost predicate Spliced(c: seq<XmlNode>, k: nat, node: XmlNode)
      requires k <= |c|
      reads this, c, node
    {
      && this !in c && Distinct(c) && node != this && node !in c
      && firstChild == (if k == 0 then node else c[0])
      && lastChild == (if k == |c| then node else c[|c| - 1])
      && node.parent == this
      && node.prev == (if k == 0 then null else c[k - 1])
      && node.next == (if k == |c| then null else c[k])
      && (forall i {:trigger c[i].parent} :: 0 <= i < |c| ==> c[i].parent == this)
      && (forall i {:trigger c[i].prev} :: 0 <= i < |c| ==>
            c[i].prev == if i == k then node else if i == 0 then null else c[i - 1])
      && (forall i {:trigger c[i].next} :: 0 <= i < |c| ==>
            c[i].next == if i == k - 1 then node else if i == |c| - 1 then null else c[i + 1])
    }

    lemma SplicedIsList(c: seq<XmlNode>, k: nat, node: XmlNode)
      requires k <= |c| && Spliced(c, k, node)
      ensures ListOf(InsertAt(c, k, node))
    {
      var d := InsertAt(c, k, node);
      forall i | 0 <= i < |d|
        ensures d[i].parent == this
        ensures d[i].prev == if i == 0 then null else d[i - 1]
        ensures d[i].next == if i == |d| - 1 then null else d[i + 1]
      {
        if i < k {
          assert d[i] == c[i];
        } else if i > k {
          assert d[i] == c[i - 1];
        }
      }
    }

    /** Element k of the list `c` has been bridged over. */
    ghost predicate Bridged(c: seq<XmlNode>, k: nat)
      requires k < |c|
      reads this, c
    {
      && this !in c && Distinct(c)
      && firstChild == (if k > 0 then c[0] else if |c| > 1 then c[1] else null)
      && lastChild == (if k < |c| - 1 then c[|c| - 1] else if |c| > 1 then c[k - 1] else null)
      && (forall i {:trigger c[i].parent} :: 0 <= i < |c| ==> c[i].parent == this)
      && (forall i {:trigger c[i].prev} :: 0 <= i < |c| && i != k ==>
            c[i].prev == if i == 0 || (i == 1 && k == 0) then null else if i == k + 1 then c[k - 1] else c[i - 1])
      && (forall i {:trigger c[i].next} :: 0 <= i < |c| && i != k ==>
            c[i].next == if i == |c| - 1 || (i == |c| - 2 && k == |c| - 1) then null
                         else if i == k - 1 then c[k + 1] else c[i + 1])
    }

    lemma BridgedIsList(c: seq<XmlNode>, k: nat)
      requires k < |c| && Bridged(c, k)
      ensures ListOf(RemoveAt(c, k))
    {
      var d := RemoveAt(c, k);
      forall i | 0 <= i < |d|
        ensures d[i].parent == this
        ensures d[i].prev == if i == 0 then null else d[i - 1]
        ensures d[i].next == if i == |d| - 1 then null else d[i + 1]
      {
        if i < k {
          assert d[i] == c[i];
        } else {
          assert d[i] == c[i + 1];
        }
      }
    }

    ghost predicate Fresh(node: XmlNode?) reads this, node {
      node != null ==> node != this && node !in children && node.Loose()
    }

    /** In no list yet; the parser may have set the parent already. LinkEndChild does not clear `next`. */
    ghost predicate Linkable(node: XmlNode) reads this, node {
      node != this && node !in children && (node.parent == null || node.parent == this) && node.next == null
    }

    method LinkEndChild(node: XmlNode) returns (r: XmlNode?)
      requires Valid() && Linkable(node)
      modifies this, node, children
      ensures Valid() && parent == old(parent)
      ensures node.isDocument ==> r == null && children == old(children)
      ensures !node.isDocument ==> r == node && children == old(children) + [node]
    {
      if node.isDocument {
        return null;
      }
      node.parent := this;
      node.prev := lastChild;
      if lastChild != null {
        lastChild.next := node;
      } else {
        firstChild := node;
      }
      lastChild := node;
      children := children + [node];
      r := node;
    }

    method InsertEndChild(isDocument: bool, clone: XmlNode?) returns (r: XmlNode?)
      requires Valid() && Fresh(clone) && (clone != null ==> clone.isDocument == isDocument)
      modifies this, clone, children
      ensures Valid() && parent == old(parent)
      ensures if !isDocument && clone != null then r == clone && children == old(children) + [clone]
              else r == null && children == old(children)
    {
      if isDocument || clone == null {
        return null;
      }
      r := LinkEndChild(clone);
    }

    /** The pointer updates of InsertBeforeChild. */
    method SpliceBefore(beforeThis: XmlNode, node: XmlNode, ghost at: nat)
      requires Valid() && Fresh(node) && at < |children| && children[at] == beforeThis
      modifies this, children, node
      ensures Valid() && parent == old(parent) && children == InsertAt(old(children), at, node)
    {
      node.parent := this;
      node.next := beforeThis;
      node.prev := beforeThis.prev;
      if beforeThis.prev != null {
        beforeThis.prev.next := node;
      } else {
        assert firstChild == beforeThis;
        firstChild := node;
      }
      beforeThis.prev := node;
      SplicedIsList(children, at, node);
      children := InsertAt(children, at, node);
    }

    /** `clone` is what addThis.Clone() yields; `at` is where a child of this node stands. */
    method InsertBeforeChild(beforeThis: XmlNode?, isDocument: bool, clone: XmlNode?, ghost at: nat) returns (r: XmlNode?)
      requires Valid() && Fresh(clone)
      requires beforeThis != null && beforeThis.parent == this ==> at < |children| && children[at] == beforeThis
      modifies this, children, clone
      ensures Valid() && parent == old(parent)
      ensures if beforeThis != null && old(beforeThis.parent) == this && !isDocument && clone != null
              then r == clone && children == InsertAt(old(children), at, clone)
              else r == null && children == old(children)
    {
      if beforeThis == null || beforeThis.parent != this || isDocument || clone == null {
        return null;
      }
      SpliceBefore(beforeThis, clone, at);
      r := clone;
    }

    /** The pointer updates of InsertAfterChild. */
    method SpliceAfter(afterThis: XmlNode, node: XmlNode, ghost at: nat)
      requires Valid() && Fresh(node) && at < |children| && children[at] == afterThis
      modifies this, children, node
      ensures Valid() && parent == old(parent) && children == InsertAt(old(children), at + 1, node)
    {
      node.parent := this;
      node.prev := afterThis;
      node.next := afterThis.next;
      if afterThis.next != null {
        afterThis.next.prev := node;
      } else {
        assert lastChild == afterThis;
        lastChild := node;
      }
      afterThis.next := node;
      SplicedIsList(children, at + 1, node);
      children := InsertAt(children, at + 1, node);
    }

    method InsertAfterChild(afterThis: XmlNode?, isDocument: bool, clone: XmlNode?, ghost at: nat) returns (r: XmlNode?)
      requires Valid() && Fresh(clone)
      requires afterThis != null && afterThis.parent == this ==> at < |children| && children[at] == afterThis
      modifies this, children, clone
      ensures Valid() && parent == old(parent)
      ensures if afterThis != null && old(afterThis.parent) == this && !isDocument && clone != null
              then r == clone && children == InsertAt(old(children), at + 1, clone)
              else r == null && children == old(children)
    {
      if afterThis == null || afterThis.parent != this || isDocument || clone == null {
        return null;
      }
      SpliceAfter(afterThis, clone, at);
      r := clone;
    }

    method ReplaceChild(replaceThis: XmlNode, clone: XmlNode?, ghost at: nat) returns (r: XmlNode?)
      requires Valid() && Fresh(clone)
      requires replaceThis.parent == this ==> at < |children| && children[at] == replaceThis
      modifies this, children, clone
      ensures Valid() && parent == old(parent)
      ensures if old(replaceThis.parent) == this && clone != null
              then r == clone && children == old(children)[at := clone]
              else r == null && children == old(children)
    {
      if replaceThis.parent != this || clone == null {
        return null;
      }
      var node := clone;
      node.next := replaceThis.next;
      node.prev := replaceThis.prev;
      if replaceThis.next != null {
        replaceThis.next.prev := node;
      } else {
        lastChild := node;
      }
      if replaceThis.prev != null {
        replaceThis.prev.next := node;
      } else {
        firstChild := node;
      }
      node.parent := this;
      children := children[at := node];
      r := node;
    }

    method RemoveChild(removeThis: XmlNode, ghost at: nat) returns (ok: bool)
      requires Valid()
      requires removeThis.parent == this ==> at < |children| && children[at] == removeThis
      modifies this, children
      ensures Valid() && parent == old(parent)
      ensures ok <==> old(removeThis.parent) == this
      ensures children == if ok then RemoveAt(old(children), at) else old(children)
    {
      if removeThis.parent != this {
        return false;
      }
      if removeThis.next != null {
        removeThis.next.prev := removeThis.prev;
      } else {
        lastChild := removeThis.prev;
      }
      if removeThis.prev != null {
        removeThis.prev.next := removeThis.next;
      } else {
        firstChild := removeThis.next;
      }
      BridgedIsList(children, at);
      children := RemoveAt(children, at);
      ok := true;
    }

    /** Walking firstChild and next visits the children in order. */
    method WalkForward() returns (seen: seq<XmlNode>)
      requires Valid()
      ensures seen == children
    {
      seen := [];
      var node := firstChild;
      while node != null
        invariant |seen| <= |children| && seen == children[..|seen|]
        invariant node == if |seen| == |children| then null else children[|seen|]
        decreases |children| - |seen|
      {
        seen := seen + [node];
        node := node.next;
      }
    }

    /** Walking lastChild and prev visits them in reverse: the backward chain mirrors the forward one. */
    method WalkBackward() returns (seen: seq<XmlNode>)
      requires Valid()
      ensures seen == Reversed(children)
    {
      seen := [];
      var node := lastChild;
      ghost var left := |children|;
      while node != null
        invariant 0 <= left <= |children| && seen == Reversed(children[left..])
        invariant node == if left == 0 then null else children[left - 1]
        decreases left
      {
        left := left - 1;
        assert children[left..][1..] == children[left + 1..];
        seen := seen + [node];
        node := node.prev;
      }
    }
  }
}

/**
 The pass of `SourcePositions` as the source runs it: on a tree of nodes whose child lists it rewrites in
 place.
 */
module HtmlTree {
  import opened Common
  import opened Utf16
  import opened SourcePositions

  class HtmlNode {
    const isText: bool
    const value: seq<unit>
    const tagName: string
    const position: Range
    const mark: Option<Mark>
    var children: seq<HtmlNode>
    ghost var Repr: set<HtmlNode>

    /** The node is the root of a tree: no node is reached in two ways. */
    ghost predicate Valid()
      reads this, Repr
      decreases Repr
    {
      && this in Repr
      && (forall i :: 0 <= i < |children| ==>
            children[i] in Repr && children[i].Repr < Repr && this !in children[i].Repr && children[i].Valid())
      && (forall i, j :: 0 <= i < j < |children| ==> children[i].Repr !! children[j].Repr)
    }

    /** The value of the tree. */
    ghost function Tree(): Node
      requires Valid()
      reads this, Repr
      decreases Repr, |children| + 1
    {
      if isText then Text(value, position) else Other(tagName, position, mark, Trees(|children|))
    }

    ghost function Trees(k: nat): (r: seq<Node>)
      requires Valid() && k <= |children|
      reads this, Repr
      ensures |r| == k
      decreases Repr, k
    {
      if k == 0 then [] else Trees(k - 1) + [children[k - 1].Tree()]
    }

    lemma {:induction false} TreesAre(k: nat, trees: seq<Node>)
      requires Valid() && k <= |children| && |trees| == k
      requires forall i :: 0 <= i < k ==> children[i].Tree() == trees[i]
      ensures Trees(k) == trees
    {
      if k > 0 {
        TreesAre(k - 1, trees[..k - 1]);
      }
    }

    lemma {:induction false} TreesAt(k: nat, i: nat)
      requires Valid() && i < k <= |children|
      ensures Trees(k)[i] == children[i].Tree()
    {
      if i < k - 1 {
        TreesAt(k - 1, i);
      }
    }

    /** The span put around a text child. */
    constructor Span(child: HtmlNode, mark: Option<Mark>)
      requires child.Valid()
      ensures Valid() && Repr == {this} + child.Repr
      ensures !isText && tagName == "span" && position == Range(None, None) && this.mark == mark && children == [child]
    {
      isText, value, tagName, position, this.mark := false, [], "span", Range(None, None), mark;
      children, Repr := [child], {this} + child.Repr;
    }
  }

  /** Child `index` is put into a span. */
  method WrapChild(node: HtmlNode, index: nat, mark: Option<Mark>)
    requires node.Valid() && !node.isText && index < |node.children| && mark.Some?
    modifies node
    ensures node.Valid() && fresh(node.Repr - old(node.Repr)) && |node.children| == |old(node.children)|
    ensures forall i :: 0 <= i < |node.children| && i != index ==>
              node.children[i] == old(node.children[i]) && node.children[i].Tree() == old(node.children[i].Tree())
    ensures node.children[index].Tree() == Wrapped(old(node.children[index].Tree()), mark)
  {
    var span := new HtmlNode.Span(node.children[index], mark);
    assert span.Trees(0) == [];
    node.children := node.children[index := span];
    node.Repr := node.Repr + {span};
  }

  /** One round of the loop in `visit`: only the child at `index` changes. */
  method VisitChild(source: seq<unit>, offsets: map<nat, nat>, node: HtmlNode, index: nat, ghost tree: Node)
    requires node.Valid() && !node.isText && tree.Other? && index < |node.children| == |tree.children|
    requires tree.tag == node.tagName && tree.position == node.position
    requires node.children[index].Tree() == tree.children[index]
    modifies node.Repr
    ensures node.Valid() && fresh(node.Repr - old(node.Repr)) && |node.children| == |old(node.children)|
    ensures forall i :: 0 <= i < |node.children| && i != index ==>
              node.children[i] == old(node.children[i]) && node.children[i].Tree() == old(node.children[i].Tree())
    ensures node.children[index].Tree() == ChildAfter(source, offsets, tree, index)
    decreases tree, 0
  {
    var child := node.children[index];
    if child.isText && child.value != [] {
      var range := RangeOf(source, node.tagName, node.position, child.value, child.position);
      var mark := MarkOf(source, offsets, range, child.value);
      if mark.Some? {
        WrapChild(node, index, mark);
      }
    } else {
      VisitBelow(source, offsets, node, index, tree.children[index]);
    }
  }

  method VisitBelow(source: seq<unit>, offsets: map<nat, nat>, node: HtmlNode, index: nat, ghost tree: Node)
    requires node.Valid() && index < |node.children| && node.children[index].Tree() == tree
    modifies node.Repr
    ensures node.Valid() && fresh(node.Repr - old(node.Repr)) && node.children == old(node.children)
    ensures forall i :: 0 <= i < |node.children| && i != index ==>
              node.children[i].Tree() == old(node.children[i].Tree())
    ensures node.children[index].Tree() == Visited(source, offsets, tree)
    decreases tree, 2
  {
    var child := node.children[index];
    Visit(source, offsets, child, tree);
    node.Repr := node.Repr + child.Repr;
  }

  /** `visit`: afterwards the tree, rewritten in place, is the visited tree. */
  method Visit(source: seq<unit>, offsets: map<nat, nat>, node: HtmlNode, ghost tree: Node)
    requires node.Valid() && node.Tree() == tree
    modifies node.Repr
    ensures node.Valid() && fresh(node.Repr - old(node.Repr))
    ensures node.Tree() == Visited(source, offsets, tree)
    decreases tree, 1
  {
    if node.isText {
      return;
    }
    ghost var goal := Visited(source, offsets, tree).children;
    forall i | 0 <= i < |node.children| ensures node.children[i].Tree() == tree.children[i] {
      node.TreesAt(|node.children|, i);
    }
    for index := 0 to |node.children|
      invariant node.Valid() && fresh(node.Repr - old(node.Repr)) && |node.children| == |goal|
      invariant forall i :: 0 <= i < index ==> node.children[i].Tree() == goal[i]
      invariant forall i :: index <= i < |goal| ==> node.children[i].Tree() == tree.children[i]
    {
      VisitedChild(source, offsets, tree, index);
      VisitChild(source, offsets, node, index, tree);
    }
    node.TreesAre(|goal|, goal);
  }

  /** The whole pass on the tree of one document. */
  method ReviewSourcePositions(source: seq<unit>, root: HtmlNode) returns (offsets: map<nat, nat>)
    requires root.Valid()
    modifies root.Repr
    ensures IsIndex(offsets, source)
    ensures root.Valid() && root.Tree() == Visited(source, offsets, old(root.Tree()))
    ensures var before := old(root.Tree());
      before.Other? && Plain(before) ==>
        && root.Tree().Other? && |root.Tree().children| == |before.children|
        && LeavesMarked(source, before, root.Tree(), |before.children|)
  {
    offsets := BuildOffsets(source);
    ghost var before := root.Tree();
    Visit(source, offsets, root, before);
    if before.Other? && Plain(before) {
      EachLeafMarkedRight(source, offsets, before, |before.children|);
    }
  }
}

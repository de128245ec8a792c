/**
 The source-position pass over a sanitised HTML tree (src/components/shared/markdown-content.server.ts):
 each text leaf that has a usable source range is wrapped, in place, in a span that carries the range in
 code points.
 */
module SourcePositions {
  import opened Common
  import opened Utf16

  /** `position?.start.offset` and `position?.end.offset`, in UTF-16 units. */
  datatype Range = Range(start: Option<nat>, end: Option<nat>)

  /** The data attributes of a span, in code points. */
  datatype Mark = Exact(start: nat, end: nat) | Rendered(start: nat, end: nat)

  datatype Node =
    | Text(value: seq<unit>, position: Range)
    | Other(tag: string, position: Range, mark: Option<Mark>, children: seq<Node>)

  /** `slice(from, to)` for positions that may lie beyond the end or cross. */
  function JsSlice(s: seq<unit>, from: nat, to: nat): seq<unit> {
    var end := if to < |s| then to else |s|;
    if from < end then s[from..end] else []
  }

  /** The source range of a text child; for code, the place of its only occurrence, or else all of the code. */
  function RangeOf(source: seq<unit>, tag: string, position: Range, value: seq<unit>, own: Range): Range {
    if own.start.None? && tag == "code" && position.start.Some? && position.end.Some? then
      var raw := JsSlice(source, position.start.value, position.end.value);
      var found := IndexFrom(raw, value, 0);
      if found.Some? && IndexFrom(raw, value, found.value + 1).None? then
        var start := position.start.value + found.value;
        Range(Some(start), Some(start + |value|))
      else position
    else own
  }

  function MarkOf(source: seq<unit>, offsets: map<nat, nat>, range: Range, value: seq<unit>): Option<Mark> {
    if && range.start.Some? && range.end.Some? && range.start.value < range.end.value
       && range.start.value in offsets && range.end.value in offsets
    then
      var start, end := offsets[range.start.value], offsets[range.end.value];
      Some(if JsSlice(source, range.start.value, range.end.value) == value then Exact(start, end)
           else Rendered(start, end))
    else None
  }

  function LeafMark(source: seq<unit>, offsets: map<nat, nat>, parent: Node, leaf: Node): Option<Mark>
    requires parent.Other? && leaf.Text?
  {
    MarkOf(source, offsets, RangeOf(source, parent.tag, parent.position, leaf.value, leaf.position), leaf.value)
  }

  function Wrapped(leaf: Node, mark: Option<Mark>): Node {
    if mark.None? then leaf else Other("span", Range(None, None), mark, [leaf])
  }

  /** The tree after `visit`. */
  function Visited(source: seq<unit>, offsets: map<nat, nat>, n: Node): Node
    decreases n, if n.Text? then 0 else |n.children| + 1
  {
    if n.Text? then n else n.(children := VisitedChildren(source, offsets, n, |n.children|))
  }

  /** The first `k` children of `n` after the loop has passed them. */
  function VisitedChildren(source: seq<unit>, offsets: map<nat, nat>, n: Node, k: nat): (r: seq<Node>)
    requires n.Other? && k <= |n.children|
    ensures |r| == k
    decreases n, k
  {
    if k == 0 then []
    else VisitedChildren(source, offsets, n, k - 1) + [ChildAfter(source, offsets, n, k - 1)]
  }

  /** What the loop leaves at the place of child `i`. */
  function ChildAfter(source: seq<unit>, offsets: map<nat, nat>, n: Node, i: nat): Node
    requires n.Other? && i < |n.children|
    decreases n, 0
  {
    var child := n.children[i];
    if child.Text? && child.value != [] then Wrapped(child, LeafMark(source, offsets, n, child))
    else Visited(source, offsets, child)
  }

  // ----- the text survives -----

  function TextContent(n: Node): seq<unit>
    decreases n, if n.Text? then 0 else |n.children| + 1
  {
    if n.Text? then n.value else ChildrenText(n, |n.children|)
  }

  function ChildrenText(n: Node, k: nat): seq<unit>
    requires n.Other? && k <= |n.children|
    decreases n, k
  {
    if k == 0 then [] else ChildrenText(n, k - 1) + TextContent(n.children[k - 1])
  }

  /** The pass never changes the text of the tree. */
  lemma {:induction false} VisitKeepsText(source: seq<unit>, offsets: map<nat, nat>, n: Node)
    ensures TextContent(Visited(source, offsets, n)) == TextContent(n)
    decreases n, if n.Text? then 0 else |n.children| + 1
  {
    if n.Other? {
      VisitKeepsChildrenText(source, offsets, n, |n.children|);
    }
  }

  lemma {:induction false} VisitKeepsChildrenText(source: seq<unit>, offsets: map<nat, nat>, n: Node, k: nat)
    requires n.Other? && k <= |n.children|
    ensures ChildrenText(Visited(source, offsets, n), k) == ChildrenText(n, k)
    decreases n, k
  {
    if k > 0 {
      var child := n.children[k - 1];
      VisitKeepsChildrenText(source, offsets, n, k - 1);
      VisitedChild(source, offsets, n, k - 1);
      if child.Text? && child.value != [] {
        WrappedText(child, LeafMark(source, offsets, n, child));
      } else {
        VisitKeepsText(source, offsets, child);
      }
    }
  }

  lemma WrappedText(leaf: Node, mark: Option<Mark>)
    requires leaf.Text?
    ensures TextContent(Wrapped(leaf, mark)) == leaf.value
  {
    var w := Wrapped(leaf, mark);
    if mark.Some? {
      assert ChildrenText(w, 0) == [];
      assert ChildrenText(w, 1) == ChildrenText(w, 0) + TextContent(w.children[0]);
    }
  }

  lemma VisitedChild(source: seq<unit>, offsets: map<nat, nat>, n: Node, i: nat)
    requires n.Other? && i < |n.children|
    ensures Visited(source, offsets, n).children[i] == ChildAfter(source, offsets, n, i)
  {
    var all, upTo := VisitedChildren(source, offsets, n, |n.children|), VisitedChildren(source, offsets, n, i + 1);
    VisitedPrefix(source, offsets, n, i + 1, |n.children|);
    assert all[i] == all[..i + 1][i] == upTo[i];
  }

  lemma {:induction false} VisitedPrefix(source: seq<unit>, offsets: map<nat, nat>, n: Node, j: nat, k: nat)
    requires n.Other? && j <= k <= |n.children|
    ensures VisitedChildren(source, offsets, n, j) == VisitedChildren(source, offsets, n, k)[..j]
  {
    if j < k {
      VisitedPrefix(source, offsets, n, j, k - 1);
    } else {
      FullPrefix(VisitedChildren(source, offsets, n, k));
    }
  }

  // ----- the pass can be undone -----

  /** The tree has not been through the pass. */
  ghost predicate Plain(n: Node) {
    n.Other? ==> n.mark.None? && forall c :: c in n.children ==> Plain(c)
  }

  /** Every marked span is replaced by what it wraps. */
  function Unwrapped(n: Node): Node
    decreases n, if n.Text? then 0 else |n.children| + 1
  {
    if n.Text? then n else n.(children := UnwrappedChildren(n, |n.children|))
  }

  function UnwrappedChildren(n: Node, k: nat): (r: seq<Node>)
    requires n.Other? && k <= |n.children|
    ensures |r| == k
    decreases n, k
  {
    if k == 0 then []
    else
      var child := n.children[k - 1];
      UnwrappedChildren(n, k - 1)
      + [if child.Other? && child.mark.Some? && |child.children| == 1 then child.children[0] else Unwrapped(child)]
  }

  /**
   Taking the spans away gives the tree back: the pass adds one span around a text leaf, here and there,
   and changes nothing else.
   */
  lemma {:induction false} VisitIsUndone(source: seq<unit>, offsets: map<nat, nat>, n: Node)
    requires Plain(n)
    ensures Unwrapped(Visited(source, offsets, n)) == n
    decreases n, if n.Text? then 0 else |n.children| + 1
  {
    if n.Other? {
      ChildrenAreUndone(source, offsets, n, |n.children|);
      FullPrefix(n.children);
    }
  }

  lemma {:induction false} ChildrenAreUndone(source: seq<unit>, offsets: map<nat, nat>, n: Node, k: nat)
    requires n.Other? && Plain(n) && k <= |n.children|
    ensures UnwrappedChildren(Visited(source, offsets, n), k) == n.children[..k]
    decreases n, k
  {
    if k > 0 {
      var child := n.children[k - 1];
      ChildrenAreUndone(source, offsets, n, k - 1);
      VisitedChild(source, offsets, n, k - 1);
      assert Plain(child);
      if child.Other? || child.value == [] {
        VisitIsUndone(source, offsets, child);
      }
    }
  }

  // ----- every text leaf gets its mark once -----

  datatype MarkedText = MarkedText(leaf: Node, mark: Option<Mark>)

  /** The text leaves of the first `k` children in document order, each with the mark of the node around it. */
  function Found(n: Node, k: nat): seq<MarkedText>
    requires n.Other? && k <= |n.children|
    decreases n, k
  {
    if k == 0 then []
    else
      var child := n.children[k - 1];
      Found(n, k - 1) + if child.Other? then Found(child, |child.children|)
                        else if child.value != [] then [MarkedText(child, n.mark)] else []
  }

  /** The same leaves of the original tree, each with the mark that is due to it. */
  function Due(source: seq<unit>, offsets: map<nat, nat>, n: Node, k: nat): seq<MarkedText>
    requires n.Other? && k <= |n.children|
    decreases n, k
  {
    if k == 0 then []
    else
      var child := n.children[k - 1];
      Due(source, offsets, n, k - 1) + if child.Other? then Due(source, offsets, child, |child.children|)
                                       else if child.value != [] then
                                         [MarkedText(child, LeafMark(source, offsets, n, child))]
                                       else []
  }

  /** No leaf is missed, marked twice or moved. */
  lemma {:induction false} EachLeafMarkedOnce(source: seq<unit>, offsets: map<nat, nat>, n: Node, k: nat)
    requires n.Other? && Plain(n) && k <= |n.children|
    ensures Found(Visited(source, offsets, n), k) == Due(source, offsets, n, k)
    decreases n, k
  {
    if k > 0 {
      var child := n.children[k - 1];
      EachLeafMarkedOnce(source, offsets, n, k - 1);
      VisitedChild(source, offsets, n, k - 1);
      assert Plain(child);
      if child.Other? {
        EachLeafMarkedOnce(source, offsets, child, |child.children|);
      } else if child.value != [] {
        FoundInWrapped(child, LeafMark(source, offsets, n, child));
      }
    }
  }

  lemma FoundInWrapped(leaf: Node, mark: Option<Mark>)
    requires leaf.Text? && leaf.value != []
    ensures mark.Some? ==> Found(Wrapped(leaf, mark), 1) == [MarkedText(leaf, mark)]
  {
    if mark.Some? {
      assert Found(Wrapped(leaf, mark), 0) == [];
    }
  }

  // ----- what a mark says -----

  lemma {:induction false} DecodeInjective(s: seq<unit>, t: seq<unit>)
    requires Decode(s) == Decode(t)
    ensures s == t
  {
    if s != [] && t != [] {
      var n := PointLength(s, 0);
      assert Decode(s)[0] == PointAt(s, 0) && Decode(t)[0] == PointAt(t, 0);
      SamePoint(s, t);
      assert Decode(s)[1..] == Decode(s[n..]) && Decode(t)[1..] == Decode(t[n..]);
      DecodeInjective(s[n..], t[n..]);
      assert s == s[..n] + s[n..] && t == t[..n] + t[n..];
    }
  }

  lemma SamePoint(s: seq<unit>, t: seq<unit>)
    requires s != [] && t != [] && PointAt(s, 0) == PointAt(t, 0)
    ensures PointLength(s, 0) == PointLength(t, 0)
    ensures s[..PointLength(s, 0)] == t[..PointLength(t, 0)]
  {
  }

  /**
   A leaf is marked exactly when its range is not empty and starts and ends at code-point boundaries. The mark
   then has the code-point positions of the range, is not empty, and is exact exactly when the code points it
   selects are those of the text.
   */
  lemma MarkIsExact(source: seq<unit>, offsets: map<nat, nat>, range: Range, value: seq<unit>)
    requires IsIndex(offsets, source)
    ensures var m := MarkOf(source, offsets, range, value);
      && (m.Some? <==> range.start.Some? && range.end.Some? && range.start.value < range.end.value
                       && Boundary(source, range.start.value) && Boundary(source, range.end.value))
      && (m.Some? ==>
            && m.value.start == |Decode(source[..range.start.value])|
            && m.value.end == |Decode(source[..range.end.value])|
            && m.value.start < m.value.end <= |Decode(source)|
            && (m.value.Exact? <==> Decode(source)[m.value.start..m.value.end] == Decode(value)))
  {
    var m := MarkOf(source, offsets, range, value);
    if m.Some? {
      var i, j := range.start.value, range.end.value;
      DecodeSlice(source, i, j);
      PrefixGrows(source, i, j);
      assert JsSlice(source, i, j) == source[i..j];
      if Decode(source[i..j]) == Decode(value) {
        DecodeInjective(source[i..j], value);
      }
    }
  }

  /**
   Code children have no range of their own. If the code's source range is proper, they get an exact mark only
   where they occur once in it; if they occur again, the mark covers all of the code and is not exact.
   */
  lemma CodeNeedsUniqueMatch(source: seq<unit>, offsets: map<nat, nat>, start: nat, end: nat, value: seq<unit>, i: nat,
                             j: nat)
    requires start <= end <= |source| && value != [] && i < j
    requires Occurs(source[start..end], value, i) && Occurs(source[start..end], value, j)
    ensures var range := RangeOf(source, "code", Range(Some(start), Some(end)), value, Range(None, None));
      && range == Range(Some(start), Some(end))
      && var m := MarkOf(source, offsets, range, value);
         m.Some? ==> m.value.Rendered?
  {
    var raw := source[start..end];
    assert JsSlice(source, start, end) == raw;
    var found := IndexFrom(raw, value, 0);
    assert found.Some? && found.value <= i;
    assert IndexFrom(raw, value, found.value + 1).Some?;
    assert |raw| > |value|;
  }

  /** A single occurrence is found, wherever it is, and its range holds exactly the text. */
  lemma CodeFindsUniqueMatch(source: seq<unit>, start: nat, end: nat, value: seq<unit>, i: nat)
    requires start <= end <= |source| && value != []
    requires Occurs(source[start..end], value, i)
    requires forall k: nat :: Occurs(source[start..end], value, k) ==> k == i
    ensures var range := RangeOf(source, "code", Range(Some(start), Some(end)), value, Range(None, None));
      && range == Range(Some(start + i), Some(start + i + |value|))
      && JsSlice(source, start + i, start + i + |value|) == value
  {
    var raw := source[start..end];
    assert JsSlice(source, start, end) == raw;
    var found := IndexFrom(raw, value, 0);
    assert found.Some? && Occurs(raw, value, found.value);
    assert IndexFrom(raw, value, i + 1).None?;
    assert raw[i..i + |value|] == source[start + i..start + i + |value|];
  }

  // ----- which mark each leaf gets, in terms of the source and of the tree alone -----

  /** The text stands at `i` in the part of the source between `from` and `to`. */
  ghost predicate StandsAt(source: seq<unit>, from: nat, to: nat, value: seq<unit>, i: nat) {
    from <= i && i + |value| <= to && i + |value| <= |source| && source[i..i + |value|] == value
  }

  ghost predicate StandsOnceAt(source: seq<unit>, from: nat, to: nat, value: seq<unit>, i: nat) {
    StandsAt(source, from, to, value, i) && forall k :: StandsAt(source, from, to, value, k) ==> k == i
  }

  /** A text leaf with the tag and the position of the element around it. */
  datatype Placed = Placed(tag: string, position: Range, leaf: Node)

  /** Where a text without a position of its own stands in code from `from` to `to`. */
  ghost predicate StandsInCode(source: seq<unit>, from: nat, to: nat, value: seq<unit>, i: nat, j: nat) {
    if exists k :: StandsOnceAt(source, from, to, value, k) then
      StandsOnceAt(source, from, to, value, i) && j == i + |value|
    else i == from && j == to
  }

  /**
   The leaf stands for `i..j` of the source: by its own position, or inside code without one, for its only occurrence
   in the code or, if there is none or another one, for all of the code.
   */
  ghost predicate StandsFor(source: seq<unit>, p: Placed, i: nat, j: nat)
    requires p.leaf.Text?
  {
    || p.leaf.position == Range(Some(i), Some(j))
    || (p.leaf.position.start == None && p.tag == "code"
        && exists from, to :: p.position == Range(Some(from), Some(to))
             && StandsInCode(source, from, to, p.leaf.value, i, j))
  }

  /** The place is not empty and does not cut through a code point. */
  ghost predicate Markable(source: seq<unit>, i: nat, j: nat) {
    i < j && Boundary(source, i) && Boundary(source, j)
  }

  /** The mark counts code points, and is exact exactly if the source has the text at this place. */
  ghost predicate MarksPlace(source: seq<unit>, i: nat, j: nat, value: seq<unit>, m: Mark)
    requires Markable(source, i, j)
  {
    && m.start == |Decode(source[..i])| && m.end == |Decode(source[..j])|
    && (m.Exact? <==> Decode(source[i..j]) == Decode(value))
  }

  /** The leaf has a mark exactly if it stands for a place that can be marked, and then it is the mark of that place. */
  ghost predicate MarkedRight(source: seq<unit>, p: Placed, mark: Option<Mark>)
    requires p.leaf.Text?
  {
    && (mark.Some? <==> exists i, j :: StandsFor(source, p, i, j) && Markable(source, i, j))
    && (forall i, j :: StandsFor(source, p, i, j) && Markable(source, i, j) && mark.Some? ==>
          MarksPlace(source, i, j, p.leaf.value, mark.value))
  }

  /** The text leaves of the first `k` children in document order. */
  function Leaves(n: Node, k: nat): (r: seq<Placed>)
    requires n.Other? && k <= |n.children|
    ensures forall x :: 0 <= x < |r| ==> r[x].leaf.Text?
    decreases n, k
  {
    if k == 0 then []
    else
      var child := n.children[k - 1];
      Leaves(n, k - 1) + if child.Other? then Leaves(child, |child.children|)
                         else if child.value != [] then [Placed(n.tag, n.position, child)] else []
  }

  /** The leaves of the rewritten tree are those of the original one, in order, each marked as its place demands. */
  ghost predicate LeavesMarked(source: seq<unit>, before: Node, after: Node, k: nat)
    requires before.Other? && after.Other? && k <= |before.children| && k <= |after.children|
  {
    var leaves, found := Leaves(before, k), Found(after, k);
    && |found| == |leaves|
    && forall x :: 0 <= x < |leaves| ==>
         found[x].leaf == leaves[x].leaf && MarkedRight(source, leaves[x], found[x].mark)
  }

  lemma CodeOccurrence(source: seq<unit>, from: nat, to: nat, value: seq<unit>, k: nat)
    requires value != []
    ensures Occurs(JsSlice(source, from, to), value, k) <==> StandsAt(source, from, to, value, from + k)
  {
    var raw := JsSlice(source, from, to);
    var end := if to < |source| then to else |source|;
    if from < end {
      assert raw == source[from..end];
      if k + |value| <= |raw| {
        assert raw[k..k + |value|] == source[from + k..from + k + |value|];
      }
    }
  }

  lemma CodeOccursOnce(source: seq<unit>, from: nat, to: nat, value: seq<unit>)
    requires value != []
    ensures var raw := JsSlice(source, from, to);
      var found := IndexFrom(raw, value, 0);
      && (forall i: nat :: StandsOnceAt(source, from, to, value, i) <==>
            found.Some? && i == from + found.value && IndexFrom(raw, value, found.value + 1).None?)
  {
    var raw := JsSlice(source, from, to);
    var found := IndexFrom(raw, value, 0);
    forall k: nat ensures Occurs(raw, value, k) <==> StandsAt(source, from, to, value, from + k) {
      CodeOccurrence(source, from, to, value, k);
    }
    forall i: nat | StandsAt(source, from, to, value, i) ensures Occurs(raw, value, i - from) {
      CodeOccurrence(source, from, to, value, i - from);
    }
    if found.Some? {
      assert StandsAt(source, from, to, value, from + found.value);
      var again := IndexFrom(raw, value, found.value + 1);
      if again.Some? {
        assert StandsAt(source, from, to, value, from + again.value);
      }
    }
  }

  lemma FoundInCode(source: seq<unit>, from: nat, to: nat, value: seq<unit>, i: nat, j: nat)
    requires value != []
    ensures var found := IndexFrom(JsSlice(source, from, to), value, 0);
      StandsInCode(source, from, to, value, i, j)
      <==> if found.Some? && IndexFrom(JsSlice(source, from, to), value, found.value + 1).None? then
             i == from + found.value && j == i + |value|
           else i == from && j == to
  {
    CodeOccursOnce(source, from, to, value);
    var raw := JsSlice(source, from, to);
    var found := IndexFrom(raw, value, 0);
    if found.Some? && IndexFrom(raw, value, found.value + 1).None? {
      assert StandsOnceAt(source, from, to, value, from + found.value);
    }
  }

  /** The computed range is where the leaf stands, if that is anywhere. */
  lemma RangeIsPlace(source: seq<unit>, p: Placed, i: nat, j: nat)
    requires p.leaf.Text? && p.leaf.value != []
    ensures StandsFor(source, p, i, j)
       <==> RangeOf(source, p.tag, p.position, p.leaf.value, p.leaf.position) == Range(Some(i), Some(j))
  {
    if p.leaf.position.start.None? && p.tag == "code" && p.position.start.Some? && p.position.end.Some? {
      var from, to := p.position.start.value, p.position.end.value;
      assert p.position == Range(Some(from), Some(to));
      FoundInCode(source, from, to, p.leaf.value, i, j);
    }
  }

  lemma LeafMarkedRight(source: seq<unit>, offsets: map<nat, nat>, n: Node, leaf: Node)
    requires IsIndex(offsets, source) && n.Other? && leaf.Text? && leaf.value != []
    ensures MarkedRight(source, Placed(n.tag, n.position, leaf), LeafMark(source, offsets, n, leaf))
  {
    var p := Placed(n.tag, n.position, leaf);
    var range := RangeOf(source, n.tag, n.position, leaf.value, leaf.position);
    var mark := LeafMark(source, offsets, n, leaf);
    MarkIsExact(source, offsets, range, leaf.value);
    forall i, j ensures StandsFor(source, p, i, j) <==> range == Range(Some(i), Some(j)) {
      RangeIsPlace(source, p, i, j);
    }
    if mark.Some? {
      var i, j := range.start.value, range.end.value;
      assert range == Range(Some(i), Some(j)) && StandsFor(source, p, i, j);
      DecodeSlice(source, i, j);
    }
  }

  /** Every text leaf of the tree is marked right, and exactly those that can be marked are. */
  lemma {:induction false} EachLeafMarkedRight(source: seq<unit>, offsets: map<nat, nat>, n: Node, k: nat)
    requires IsIndex(offsets, source) && n.Other? && Plain(n) && k <= |n.children|
    ensures LeavesMarked(source, n, Visited(source, offsets, n), k)
    decreases n, k
  {
    if k > 0 {
      var child := n.children[k - 1];
      EachLeafMarkedRight(source, offsets, n, k - 1);
      VisitedChild(source, offsets, n, k - 1);
      assert Plain(child);
      if child.Other? {
        EachLeafMarkedRight(source, offsets, child, |child.children|);
      } else if child.value != [] {
        LeafMarkedRight(source, offsets, n, child);
        FoundInWrapped(child, LeafMark(source, offsets, n, child));
      }
    }
  }
}

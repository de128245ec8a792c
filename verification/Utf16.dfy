/**
 UTF-16 strings as JavaScript holds them, and the index from code units to code points that
 src/components/shared/markdown-content.server.ts builds (RFC 2781, section 2).
 */
module Utf16 {
  import opened Common

  type unit = x: int | 0 <= x < 0x1_0000

  predicate High(u: unit) {
    0xd800 <= u < 0xdc00
  }

  predicate Low(u: unit) {
    0xdc00 <= u < 0xe000
  }

  /** How many units the code point at `i` takes; a lone surrogate counts as a point. */
  function PointLength(s: seq<unit>, i: nat): nat
    requires i < |s|
  {
    if High(s[i]) && i + 1 < |s| && Low(s[i + 1]) then 2 else 1
  }

  function Combine(high: unit, low: unit): nat
    requires High(high) && Low(low)
  {
    0x1_0000 + (high - 0xd800) as int * 0x400 + (low - 0xdc00) as int
  }

  function PointAt(s: seq<unit>, i: nat): nat
    requires i < |s|
  {
    if PointLength(s, i) == 2 then Combine(s[i], s[i + 1]) else s[i]
  }

  /** The code points of a string. */
  function Decode(s: seq<unit>): seq<nat> {
    if s == [] then [] else [PointAt(s, 0)] + Decode(s[PointLength(s, 0)..])
  }

  /** A position that does not separate the two halves of a surrogate pair. */
  predicate Boundary(s: seq<unit>, i: nat) {
    i <= |s| && !(0 < i < |s| && High(s[i - 1]) && Low(s[i]))
  }

  lemma FirstPoint(s: seq<unit>, i: nat)
    requires 0 < i && Boundary(s, i)
    ensures PointLength(s, 0) <= i && Boundary(s[PointLength(s, 0)..], i - PointLength(s, 0))
    ensures PointLength(s[..i], 0) == PointLength(s, 0) && PointAt(s[..i], 0) == PointAt(s, 0)
  {
  }

  lemma DecodeHead(s: seq<unit>, i: nat)
    requires 0 < i && Boundary(s, i)
    ensures var n := PointLength(s, 0);
      n <= i && Decode(s[..i]) == [PointAt(s, 0)] + Decode(s[n..][..i - n])
  {
    var n := PointLength(s, 0);
    FirstPoint(s, i);
    assert s[..i][n..] == s[n..][..i - n];
  }

  /** Cutting at a boundary cuts between code points. */
  lemma {:induction false} DecodeSplits(s: seq<unit>, i: nat)
    requires Boundary(s, i)
    ensures Decode(s) == Decode(s[..i]) + Decode(s[i..])
    decreases |s|
  {
    if i == 0 {
      assert s[0..] == s;
    } else {
      var n := PointLength(s, 0);
      var head, rest := [PointAt(s, 0)], s[n..];
      FirstPoint(s, i);
      DecodeHead(s, i);
      DecodeSplits(rest, i - n);
      assert rest[i - n..] == s[i..];
      Associates(head, Decode(rest[..i - n]), Decode(s[i..]));
    }
  }

  /** Between two boundaries stand the code points of the slice. */
  lemma DecodeSlice(s: seq<unit>, i: nat, j: nat)
    requires i <= j && Boundary(s, i) && Boundary(s, j)
    ensures |Decode(s[..i])| <= |Decode(s[..j])| <= |Decode(s)|
    ensures Decode(s)[|Decode(s[..i])|..|Decode(s[..j])|] == Decode(s[i..j])
  {
    DecodeSplits(s, j);
    assert s[..j][..i] == s[..i] && s[..j][i..] == s[i..j];
    DecodeSplits(s[..j], i);
  }

  lemma DecodeNonEmpty(s: seq<unit>)
    requires s != []
    ensures Decode(s) != []
  {
  }

  /** The index: its keys are exactly the boundaries, each with the number of code points before it. */
  ghost predicate IsIndex(offsets: map<nat, nat>, s: seq<unit>) {
    forall i: nat :: (i in offsets <==> Boundary(s, i)) && (i in offsets ==> offsets[i] == |Decode(s[..i])|)
  }

  /** It is strictly increasing, from 0 to the number of code points. */
  lemma IndexIncreases(offsets: map<nat, nat>, s: seq<unit>, i: nat, j: nat)
    requires IsIndex(offsets, s) && i in offsets && j in offsets
    ensures i < j <==> offsets[i] < offsets[j]
    ensures 0 in offsets && offsets[0] == 0 && |s| in offsets && offsets[|s|] == |Decode(s)|
  {
    assert s[..|s|] == s && s[..0] == [];
    assert Boundary(s, 0) && Boundary(s, |s|);
    if i < j {
      PrefixGrows(s, i, j);
    } else if j < i {
      PrefixGrows(s, j, i);
    }
  }

  lemma PrefixGrows(s: seq<unit>, i: nat, j: nat)
    requires i < j && Boundary(s, i) && Boundary(s, j)
    ensures |Decode(s[..i])| < |Decode(s[..j])|
  {
    assert s[..j][..i] == s[..i] && s[..j][i..] == s[i..j];
    DecodeSplits(s[..j], i);
    DecodeNonEmpty(s[i..j]);
  }

  /** The boundaries before `n`, each with the number of code points before it. */
  ghost predicate IndexedBelow(offsets: map<nat, nat>, s: seq<unit>, n: nat) {
    forall i: nat :: (i in offsets <==> i < n && Boundary(s, i))
                     && (i in offsets ==> offsets[i] == |Decode(s[..i])|)
  }

  lemma PointStep(s: seq<unit>, i: nat)
    requires i < |s| && Boundary(s, i)
    ensures var j := i + PointLength(s, i);
      && Boundary(s, j)
      && |Decode(s[..j])| == |Decode(s[..i])| + 1
      && forall k: nat :: i < k < j ==> !Boundary(s, k)
  {
    var j := i + PointLength(s, i);
    var point := s[i..j];
    assert s[..j][..i] == s[..i] && s[..j][i..] == point;
    DecodeSplits(s[..j], i);
    assert point[PointLength(point, 0)..] == [];
    assert |Decode(point)| == 1;
  }

  method BuildOffsets(source: seq<unit>) returns (offsets: map<nat, nat>)
    ensures IsIndex(offsets, source)
  {
    offsets := map[];
    var utf16, points := 0, 0;
    while utf16 < |source|
      invariant Boundary(source, utf16)
      invariant points == |Decode(source[..utf16])|
      invariant IndexedBelow(offsets, source, utf16)
    {
      PointStep(source, utf16);
      offsets := offsets[utf16 := points];
      points := points + 1;
      utf16 := utf16 + PointLength(source, utf16);
    }
    offsets := offsets[utf16 := points];
  }
}

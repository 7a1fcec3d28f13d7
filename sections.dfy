/** Sections: the immutable rectangles of the binary space partition, their face
    bitmask, the vertical and horizontal splits, and the stable sort by area that
    `divide` uses to pick the leaf it splits. */
module Sections {

  /** A face bitmask; only the low four bits are ever set. */
  type Face = bv4

  const FACE_NONE: Face := 0
  const FACE_TOP: Face := 1
  const FACE_LEFT: Face := 2
  const FACE_RIGHT: Face := 4
  const FACE_BOTTOM: Face := 8

  predicate IsFace(f: Face)
  {
    f == FACE_TOP || f == FACE_LEFT || f == FACE_RIGHT || f == FACE_BOTTOM
  }

  /** The slot of a face in a room's door array: its bit position (base-2 logarithm),
      as an exact table instead of the source's floating-point logarithm. */
  function FaceIndex(face: Face): (i: nat)
    requires IsFace(face)
    ensures i < 4 && (1 as Face) << i == face
  {
    if face == FACE_TOP then 0
    else if face == FACE_LEFT then 1
    else if face == FACE_RIGHT then 2
    else 3
  }

  /** Distinct faces occupy distinct door slots. */
  lemma FaceIndexInjective(f: Face, g: Face)
    requires IsFace(f) && IsFace(g) && f != g
    ensures FaceIndex(f) != FaceIndex(g)
  {
  }

  /** A node of the partition tree. `parent` is the index of the section it was split
      from in the section registry, or -1 for the root (the source's null). */
  datatype Section = Section(left: int, top: int, width: int, height: int, face: Face, parent: int)
  {
    function Right(): int { left + width }
    function Bottom(): int { top + height }
    function Area(): int { width * height }

    /** Cell (x, y) lies in this rectangle. */
    predicate Holds(x: int, y: int)
    {
      left <= x < Right() && top <= y < Bottom()
    }

    /** `c` lies inside this rectangle. */
    predicate Contains(c: Section)
    {
      left <= c.left && c.Right() <= Right() && top <= c.top && c.Bottom() <= Bottom()
    }
  }

  /** The two children of a vertical split of `p` at offset `d`; `parent` is the registry
      index `p` is about to receive. */
  function VSplit(p: Section, d: int, parent: int): (c: (Section, Section))
    ensures c.0.left == p.left && c.0.width == d
    ensures c.0.Right() - 1 == c.1.left && c.1.Right() == p.Right()
    ensures c.0.top == p.top == c.1.top && c.0.height == p.height == c.1.height
    ensures c.0.face == p.face | FACE_RIGHT && c.1.face == p.face | FACE_LEFT
    ensures c.0.parent == parent == c.1.parent
    ensures 1 <= d <= p.width ==> p.Contains(c.0) && p.Contains(c.1)
  {
    var c1 := Section(p.left, p.top, d, p.height, p.face | FACE_RIGHT, parent);
    var c2 := Section(c1.Right() - 1, p.top, p.width - d + 1, p.height, p.face | FACE_LEFT, parent);
    (c1, c2)
  }

  /** The two children of a horizontal split of `p` at offset `d`. */
  function HSplit(p: Section, d: int, parent: int): (c: (Section, Section))
    ensures c.0.top == p.top && c.0.height == d
    ensures c.0.Bottom() - 1 == c.1.top && c.1.Bottom() == p.Bottom()
    ensures c.0.left == p.left == c.1.left && c.0.width == p.width == c.1.width
    ensures c.0.face == p.face | FACE_BOTTOM && c.1.face == p.face | FACE_TOP
    ensures c.0.parent == parent == c.1.parent
    ensures 1 <= d <= p.height ==> p.Contains(c.0) && p.Contains(c.1)
  {
    var c1 := Section(p.left, p.top, p.width, d, p.face | FACE_BOTTOM, parent);
    var c2 := Section(p.left, c1.Bottom() - 1, p.width, p.height - d + 1, p.face | FACE_TOP, parent);
    (c1, c2)
  }

  /** A split never clears a face bit the parent had, and sets the bit of the shared side. */
  lemma SplitKeepsFaces(p: Section, d: int, parent: int)
    ensures var (a, b) := VSplit(p, d, parent);
      a.face & p.face == p.face && b.face & p.face == p.face &&
      a.face & FACE_RIGHT != 0 && b.face & FACE_LEFT != 0
    ensures var (a, b) := HSplit(p, d, parent);
      a.face & p.face == p.face && b.face & p.face == p.face &&
      a.face & FACE_BOTTOM != 0 && b.face & FACE_TOP != 0
  {
  }

  /** `divide` cuts across the longer side: vertically when the section is wider than
      high, horizontally otherwise; this is the length of the side it cuts. */
  function SplitSpan(p: Section): int
  {
    if p.width > p.height then p.width else p.height
  }

  /** The two children of the cut of `p` at offset `d`. */
  function Split(p: Section, d: int, parent: int): (Section, Section)
  {
    if p.width > p.height then VSplit(p, d, parent) else HSplit(p, d, parent)
  }

  /** A cut at an offset within the longer side keeps the shorter side, yields two children
      inside the parent that share one line (their lengths along the cut side add up to
      one more than the parent's), and leaves no cell of the parent outside both. */
  lemma SplitCovers(p: Section, d: int, parent: int)
    requires 1 <= d <= SplitSpan(p)
    ensures SplitSpan(p) >= p.width && SplitSpan(p) >= p.height
    ensures var (a, b) := Split(p, d, parent);
      p.Contains(a) && p.Contains(b) &&
      (p.width > p.height ==> a.height == p.height == b.height && a.width + b.width == p.width + 1) &&
      (p.width <= p.height ==> a.width == p.width == b.width && a.height + b.height == p.height + 1) &&
      forall x, y :: p.Holds(x, y) ==> a.Holds(x, y) || b.Holds(x, y)
  {
  }

  // ---------------------------------------------------------------------------
  // The stable sort of the leaf list, descending by area
  // ---------------------------------------------------------------------------

  predicate SortedByArea(s: seq<Section>)
  {
    forall i, j :: 0 <= i < j < |s| ==> s[i].Area() >= s[j].Area()
  }

  /** Inserts `x` in front of the first element whose area is not larger, so that `x`
      stays before the equal-area elements that followed it in the input. */
  function InsertByArea(x: Section, s: seq<Section>): seq<Section>
  {
    if s == [] || s[0].Area() <= x.Area() then [x] + s
    else [s[0]] + InsertByArea(x, s[1..])
  }

  /** `sections.sort((a, b) => b.getArea() - a.getArea())`: a stable insertion sort,
      descending by area (the engine's sort is stable). */
  function SortByArea(s: seq<Section>): (r: seq<Section>)
    ensures |r| == |s|
  {
    if s == [] then []
    else
      InsertByAreaPerm(s[0], SortByArea(s[1..]));
      InsertByArea(s[0], SortByArea(s[1..]))
  }

  lemma {:induction false} InsertByAreaPerm(x: Section, s: seq<Section>)
    ensures multiset(InsertByArea(x, s)) == multiset(s) + multiset{x}
    ensures |InsertByArea(x, s)| == |s| + 1
  {
    if s != [] && s[0].Area() > x.Area() {
      InsertByAreaPerm(x, s[1..]);
      assert s == [s[0]] + s[1..];
    }
  }

  /** Inserting keeps every area under a bound that `x` and all of `s` are under. */
  lemma {:induction false} InsertByAreaBounded(x: Section, s: seq<Section>, bound: int)
    requires x.Area() <= bound && forall k :: 0 <= k < |s| ==> s[k].Area() <= bound
    ensures forall k :: 0 <= k < |InsertByArea(x, s)| ==> InsertByArea(x, s)[k].Area() <= bound
  {
    if s != [] && s[0].Area() > x.Area() {
      InsertByAreaBounded(x, s[1..], bound);
    }
  }

  lemma {:induction false} InsertByAreaSorted(x: Section, s: seq<Section>)
    requires SortedByArea(s)
    ensures SortedByArea(InsertByArea(x, s))
  {
    if s != [] && s[0].Area() > x.Area() {
      var t := InsertByArea(x, s[1..]);
      InsertByAreaSorted(x, s[1..]);
      InsertByAreaBounded(x, s[1..], s[0].Area());
      var r := [s[0]] + t;
      assert InsertByArea(x, s) == r;
      forall i, j | 0 <= i < j < |r| ensures r[i].Area() >= r[j].Area() {
        if i == 0 { assert r[j] == t[j - 1]; } else { assert r[i] == t[i - 1] && r[j] == t[j - 1]; }
      }
    }
  }

  /** The sort returns a permutation of its input, ordered by non-increasing area. */
  lemma {:induction false} SortByAreaSorted(s: seq<Section>)
    ensures var r := SortByArea(s);
      SortedByArea(r) && multiset(r) == multiset(s) && |r| == |s|
  {
    if s != [] {
      var t := SortByArea(s[1..]);
      SortByAreaSorted(s[1..]);
      InsertByAreaSorted(s[0], t);
      InsertByAreaPerm(s[0], t);
      assert SortByArea(s) == InsertByArea(s[0], t);
      assert s == [s[0]] + s[1..];
      assert multiset(s) == multiset(s[1..]) + multiset{s[0]};
    }
  }

  /** The sections of `s` whose area is `a`, in their order in `s`. */
  function SameArea(s: seq<Section>, a: int): seq<Section>
  {
    if s == [] then []
    else (if s[0].Area() == a then [s[0]] else []) + SameArea(s[1..], a)
  }

  /** Inserting `x` puts it in front of the sections of its own area and keeps the order
      of every area class. */
  lemma {:induction false} InsertKeepsOrder(x: Section, s: seq<Section>, a: int)
    ensures SameArea(InsertByArea(x, s), a) == if x.Area() == a then [x] + SameArea(s, a) else SameArea(s, a)
  {
    if s == [] || s[0].Area() <= x.Area() {
      assert ([x] + s)[1..] == s;
    } else {
      InsertKeepsOrder(x, s[1..], a);
      assert ([s[0]] + InsertByArea(x, s[1..]))[1..] == InsertByArea(x, s[1..]);
    }
  }

  /** The sort is stable: sections of equal area keep their relative order, which decides
      which of two equal-area leaves `divide` cuts and where the others end up. */
  lemma {:induction false} SortByAreaStable(s: seq<Section>, a: int)
    ensures SameArea(SortByArea(s), a) == SameArea(s, a)
  {
    if s != [] {
      SortByAreaStable(s[1..], a);
      InsertKeepsOrder(s[0], SortByArea(s[1..]), a);
    }
  }

  /** `k` is the first position holding a maximum-area section. */
  predicate IsFirstLargest(s: seq<Section>, k: int)
  {
    0 <= k < |s| &&
    (forall j :: 0 <= j < |s| ==> s[j].Area() <= s[k].Area()) &&
    (forall j :: 0 <= j < k ==> s[j].Area() < s[k].Area())
  }

  /** The position of the first maximum-area section. */
  function FirstLargest(s: seq<Section>): (k: nat)
    requires s != []
    ensures IsFirstLargest(s, k)
  {
    if |s| == 1 then 0
    else
      var k' := FirstLargest(s[1..]);
      if s[1 + k'].Area() > s[0].Area() then 1 + k' else 0
  }

  /** What `divide` takes as element 0 after sorting: the FIRST section of maximum area
      in the list's current order (stability decides ties). */
  lemma {:induction false} SortHeadIsFirstLargest(s: seq<Section>)
    requires s != []
    ensures SortByArea(s) != [] && SortByArea(s)[0] == s[FirstLargest(s)]
  {
    SortByAreaSorted(s);
    if |s| > 1 {
      SortHeadIsFirstLargest(s[1..]);
      SortByAreaSorted(s[1..]);
    }
  }
}

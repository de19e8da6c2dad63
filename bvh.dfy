/** BVHNode (bvhtree.h): the bounding volume hierarchy. The constructor sorts
    the shared object vector in place, range by range, and splits each range
    in half; Intersect walks the tree, pruning by box and narrowing the
    interval of the right subtree to the left hit. The file is a top-level
    one, so boxes are those of bounds.h: Union without padding and
    Bounds3::Empty. */
module Bvh {
  import opened Prims
  import B = Bounds
  import I = Intervals
  import X = Intersections
  import E = ExtReal
  import R = Rays

  /** The four shapes a node takes: no children and no core (an empty
      range), a core only (one object), two objects as direct children, or
      two sub-nodes. */
  datatype Node =
    | Empty(bounds: B.Bounds3)
    | Leaf(core: Prim, bounds: B.Bounds3)
    | Pair(first: Prim, second: Prim, bounds: B.Bounds3)
    | Inner(left: Node, right: Node, bounds: B.Bounds3)

  /** The objects a tree holds, each as often as it occurs. */
  function Contents(n: Node): multiset<Prim> {
    match n
    case Empty(_) => multiset{}
    case Leaf(p, _) => multiset{p}
    case Pair(p, q, _) => multiset{p, q}
    case Inner(l, r, _) => Contents(l) + Contents(r)
  }

  /** No node of the tree is an empty one. */
  predicate NoEmpty(n: Node) {
    match n
    case Empty(_) => false
    case Inner(l, r, _) => NoEmpty(l) && NoEmpty(r)
    case _ => true
  }

  // ------------------------------------------------------------ construction

  /** `bounds = Empty; for (obj : objects) bounds = Union(bounds, obj->BBox())`. */
  function BoxOfAll(objs: seq<Prim>): B.Bounds3
    decreases |objs|
  {
    if |objs| == 0 then B.EmptyBox else B.Union(BoxOfAll(objs[..|objs| - 1]), objs[|objs| - 1].box, false)
  }

  /** The sort key: the centroid of the object's box on the split axis. */
  function Key(p: Prim, axis: int): E.Ext {
    I.Centroid(B.Axis(p.box, axis))
  }

  /** q does not compare below p. */
  predicate InOrder(p: Prim, q: Prim, axis: int) {
    !E.Lt(Key(q, axis), Key(p, axis))
  }

  /** No neighbouring pair is inverted by the comparator. */
  predicate Sorted(s: seq<Prim>, axis: int) {
    forall k :: 0 <= k < |s| - 1 ==> InOrder(s[k], s[k + 1], axis)
  }

  /** std::sort of [start, end) with the centroid comparator, as an exchange
      insertion sort: everything outside the range is kept, the range is
      permuted and ends with no neighbouring pair inverted. */
  method SortRange(a: array<Prim>, start: nat, end: nat, axis: int)
    requires start <= end <= a.Length
    modifies a
    ensures a[..start] == old(a[..start]) && a[end..] == old(a[end..])
    ensures multiset(a[start..end]) == multiset(old(a[start..end]))
    ensures Sorted(a[start..end], axis)
  {
    if end - start < 2 {
      return;
    }
    var i := start + 1;
    while i < end
      invariant start + 1 <= i <= end
      invariant a[..start] == old(a[..start]) && a[end..] == old(a[end..])
      invariant multiset(a[start..end]) == multiset(old(a[start..end]))
      invariant forall k :: start <= k < i - 1 ==> InOrder(a[k], a[k + 1], axis)
    {
      Insert(a, start, end, i, axis);
      i := i + 1;
    }
  }

  /** One pass of the insertion sort: a[i] moves left past every neighbour
      that compares above it, so [start, i] ends with no inverted pair. */
  method Insert(a: array<Prim>, start: nat, end: nat, i: nat, axis: int)
    requires start < i < end <= a.Length
    requires forall k :: start <= k < i - 1 ==> InOrder(a[k], a[k + 1], axis)
    modifies a
    ensures a[..start] == old(a[..start]) && a[end..] == old(a[end..])
    ensures multiset(a[start..end]) == multiset(old(a[start..end]))
    ensures forall k :: start <= k < i ==> InOrder(a[k], a[k + 1], axis)
  {
    var j := i;
    while j > start && E.Lt(Key(a[j], axis), Key(a[j - 1], axis))
      invariant start <= j <= i
      invariant a[..start] == old(a[..start]) && a[end..] == old(a[end..])
      invariant multiset(a[start..end]) == multiset(old(a[start..end]))
      invariant forall k :: start <= k < i && k != j - 1 ==> InOrder(a[k], a[k + 1], axis)
      invariant start < j < i ==> InOrder(a[j - 1], a[j + 1], axis)
    {
      SwapNeighbours(a, start, end, j);
      j := j - 1;
    }
  }

  /** Exchanges a[j - 1] and a[j] inside [start, end). */
  method SwapNeighbours(a: array<Prim>, start: nat, end: nat, j: nat)
    requires start < j < end <= a.Length
    modifies a
    ensures a[..] == old(a[..])[j - 1 := old(a[j])][j := old(a[j - 1])]
    ensures a[..start] == old(a[..start]) && a[end..] == old(a[end..])
    ensures multiset(a[start..end]) == multiset(old(a[start..end]))
  {
    ghost var s := a[start..end];
    a[j - 1], a[j] := a[j], a[j - 1];
    assert a[start..end] == s[j - 1 - start := s[j - start]][j - start := s[j - 1 - start]];
  }

  /** BVHNode(objects, start, end). The range is permuted in place and every
      object of it ends in exactly one slot of the tree; nothing outside the
      range moves. */
  method Build(objects: array<Prim>, start: nat, end: nat) returns (n: Node)
    requires start <= end <= objects.Length
    modifies objects
    ensures objects[..start] == old(objects[..start]) && objects[end..] == old(objects[end..])
    ensures multiset(objects[start..end]) == multiset(old(objects[start..end]))
    ensures Contents(n) == multiset(objects[start..end])
    ensures start == end ==> n == Empty(B.EmptyBox)
    ensures start < end ==> NoEmpty(n)
    ensures end - start == 1 ==> n == Leaf(objects[start], objects[start].box)
    ensures end - start == 2 ==>
              n == Pair(objects[start], objects[start + 1], B.Union(objects[start].box, objects[start + 1].box, false))
    ensures end - start > 2 ==> n.Inner? && n.bounds == BoxOfAll(old(objects[..]))
    decreases end - start, 1
  {
    var len := end - start;
    if len == 0 {
      n := Empty(B.EmptyBox);
    } else if len == 1 {
      n := Leaf(objects[start], objects[start].box);
      assert objects[start..end] == [objects[start]];
    } else if len == 2 {
      n := Pair(objects[start], objects[start + 1], B.Union(objects[start].box, objects[start + 1].box, false));
      assert objects[start..end] == [objects[start], objects[start + 1]];
    } else {
      n := Split(objects, start, end);
    }
  }

  /** The case of more than two objects: the box of the whole vector, its
      longest axis, the sort of the range along it, and the two halves
      [start, mid) and [mid, end) with mid = start + len / 2. */
  method Split(objects: array<Prim>, start: nat, end: nat) returns (n: Node)
    requires start + 2 < end <= objects.Length
    modifies objects
    ensures objects[..start] == old(objects[..start]) && objects[end..] == old(objects[end..])
    ensures multiset(objects[start..end]) == multiset(old(objects[start..end]))
    ensures Contents(n) == multiset(objects[start..end])
    ensures NoEmpty(n) && n.Inner? && n.bounds == BoxOfAll(old(objects[..]))
    decreases end - start, 0
  {
    var bounds := UnionOfAll(objects);
    var axis := B.MaxAxis(bounds);
    SortRange(objects, start, end, axis);
    var mid := start + (end - start) / 2;
    ghost var sorted := objects[..];
    var left := Build(objects, start, mid);
    ghost var afterLeft := objects[..];
    var right := Build(objects, mid, end);
    n := Inner(left, right, bounds);
    SplitFrame(sorted, afterLeft, objects[..], start, mid, end);
  }

  /** The loop that unions the box of every object of the vector, inside the
      range or not. */
  method UnionOfAll(objects: array<Prim>) returns (bounds: B.Bounds3)
    ensures bounds == BoxOfAll(objects[..])
  {
    bounds := B.EmptyBox;
    for k := 0 to objects.Length
      invariant bounds == BoxOfAll(objects[..k])
    {
      assert objects[..k + 1][..k] == objects[..k];
      bounds := B.Union(bounds, objects[k].box, false);
    }
    assert objects[..objects.Length] == objects[..];
  }

  /** The bookkeeping of the two recursive calls: the left call only touches
      [start, mid), the right one only [mid, end). */
  lemma SplitFrame(sorted: seq<Prim>, afterLeft: seq<Prim>, final: seq<Prim>, start: nat, mid: nat, end: nat)
    requires start <= mid <= end <= |sorted| == |afterLeft| == |final|
    requires afterLeft[..start] == sorted[..start] && afterLeft[mid..] == sorted[mid..]
    requires multiset(afterLeft[start..mid]) == multiset(sorted[start..mid])
    requires final[..mid] == afterLeft[..mid] && final[end..] == afterLeft[end..]
    requires multiset(final[mid..end]) == multiset(afterLeft[mid..end])
    ensures final[..start] == sorted[..start] && final[end..] == sorted[end..]
    ensures final[start..mid] == afterLeft[start..mid]
    ensures multiset(final[start..end]) == multiset(final[start..mid]) + multiset(final[mid..end])
    ensures multiset(final[start..end]) == multiset(sorted[start..end])
  {
    assert final[start..end] == final[start..mid] + final[mid..end];
    assert sorted[start..end] == sorted[start..mid] + sorted[mid..end];
    assert final[start..mid] == final[..mid][start..];
    assert afterLeft[start..mid] == afterLeft[..mid][start..];
    assert afterLeft[mid..end] == afterLeft[mid..][..end - mid];
    assert sorted[mid..end] == sorted[mid..][..end - mid];
    assert final[..start] == final[..mid][..start];
    assert afterLeft[..start] == afterLeft[..mid][..start];
    assert final[end..] == afterLeft[end..];
    assert afterLeft[end..] == afterLeft[mid..][end - mid..];
    assert sorted[end..] == sorted[mid..][end - mid..];
  }

  /** BVHNode(Scene scene): the scene is taken by value, so the tree is built
      over a copy and the caller's list keeps its order. */
  method FromScene(objs: seq<Prim>) returns (n: Node)
    ensures Contents(n) == multiset(objs)
    ensures |objs| == 0 ==> n == Empty(B.EmptyBox)
    ensures |objs| > 0 ==> NoEmpty(n)
  {
    var copy := new Prim[|objs|](i requires 0 <= i < |objs| => objs[i]);
    assert copy[0..|objs|] == objs;
    n := Build(copy, 0, |objs|);
  }

  // ------------------------------------------------------------ traversal

  /** Interval(ray_time._min, isect_l ? isect.time : ray_time._max). */
  function Narrowed(rayT: I.Interval, leftHit: bool, isect: X.Intersection): I.Interval {
    I.Make(rayT.lo, if leftHit then E.Fin(isect.time) else rayT.hi)
  }

  /** The result of a traversal as written: either the hit flag and the
      record, or a dereference of a null child. */
  datatype Outcome = Found(hit: bool, isect: X.Intersection) | NullDeref

  /** BVHNode::Intersect as written. A node with no core and no children
      falls through to `left->Intersect` on a null pointer. */
  function IntersectAsWritten(n: Node, ray: R.Ray, rayT: I.Interval, isect: X.Intersection, hit: HitFn): (r: Outcome)
    ensures !B.SlabHit(n.bounds, ray, rayT) ==> r == Found(false, isect)
    ensures B.SlabHit(n.bounds, ray, rayT) && n.Empty? ==> r == NullDeref
    ensures B.SlabHit(n.bounds, ray, rayT) && n.Leaf? ==> r == Found(hit(n.core, rayT, isect).0, hit(n.core, rayT, isect).1)
  {
    if !B.SlabHit(n.bounds, ray, rayT) then Found(false, isect)
    else match n
      case Empty(_) => NullDeref
      case Leaf(p, _) =>
        var h := hit(p, rayT, isect);
        Found(h.0, h.1)
      case Pair(p, q, _) =>
        var l := hit(p, rayT, isect);
        var r := hit(q, Narrowed(rayT, l.0, l.1), l.1);
        Found(l.0 || r.0, r.1)
      case Inner(left, right, _) =>
        match IntersectAsWritten(left, ray, rayT, isect, hit)
        case NullDeref => NullDeref
        case Found(lh, li) =>
          match IntersectAsWritten(right, ray, Narrowed(rayT, lh, li), li, hit)
          case NullDeref => NullDeref
          case Found(rh, ri) => Found(lh || rh, ri)
  }

  /** BVHNode::Intersect with the empty node reporting a miss. */
  function Intersect(n: Node, ray: R.Ray, rayT: I.Interval, isect: X.Intersection, hit: HitFn): (r: (bool, X.Intersection))
    ensures !B.SlabHit(n.bounds, ray, rayT) ==> r == (false, isect)
    ensures n.Empty? ==> r == (false, isect)
    ensures B.SlabHit(n.bounds, ray, rayT) && n.Leaf? ==> r == hit(n.core, rayT, isect)
  {
    if !B.SlabHit(n.bounds, ray, rayT) then (false, isect)
    else match n
      case Empty(_) => (false, isect)
      case Leaf(p, _) => hit(p, rayT, isect)
      case Pair(p, q, _) =>
        var l := hit(p, rayT, isect);
        var r := hit(q, Narrowed(rayT, l.0, l.1), l.1);
        (l.0 || r.0, r.1)
      case Inner(left, right, _) =>
        var l := Intersect(left, ray, rayT, isect, hit);
        var r := Intersect(right, ray, Narrowed(rayT, l.0, l.1), l.1, hit);
        (l.0 || r.0, r.1)
  }

  // ------------------------------------------------------------ lemmas

  /** The tree of an empty scene dereferences a null child on every ray
      whose interval has min < max: the Empty box passes the slab test. */
  lemma AsWrittenFaultsOnEmptyScene(ray: R.Ray, rayT: I.Interval, isect: X.Intersection, hit: HitFn)
    requires B.NotNaN(rayT) && E.Lt(rayT.lo, rayT.hi)
    ensures IntersectAsWritten(Empty(B.EmptyBox), ray, rayT, isect, hit) == NullDeref
  {
    B.EmptyBoxPasses(ray, rayT);
  }

  /** On a tree with no empty node the traversal as written never faults and
      agrees with the corrected one. */
  lemma {:induction false} AsWrittenAgrees(n: Node, ray: R.Ray, rayT: I.Interval, isect: X.Intersection, hit: HitFn)
    requires NoEmpty(n)
    ensures IntersectAsWritten(n, ray, rayT, isect, hit) ==
            Found(Intersect(n, ray, rayT, isect, hit).0, Intersect(n, ray, rayT, isect, hit).1)
  {
    if B.SlabHit(n.bounds, ray, rayT) && n.Inner? {
      AsWrittenAgrees(n.left, ray, rayT, isect, hit);
      var l := Intersect(n.left, ray, rayT, isect, hit);
      AsWrittenAgrees(n.right, ray, Narrowed(rayT, l.0, l.1), l.1, hit);
    }
  }

  /** A miss of an object leaves the record as it was. */
  ghost predicate Clean(hit: HitFn) {
    forall p: Prim, iv: I.Interval, r: X.Intersection :: !hit(p, iv, r).0 ==> hit(p, iv, r).1 == r
  }

  /** With objects that leave the record alone on a miss, so does the tree. */
  lemma {:induction false} MissLeavesRecord(n: Node, ray: R.Ray, rayT: I.Interval, isect: X.Intersection, hit: HitFn)
    requires Clean(hit)
    ensures !Intersect(n, ray, rayT, isect, hit).0 ==> Intersect(n, ray, rayT, isect, hit).1 == isect
  {
    if B.SlabHit(n.bounds, ray, rayT) && n.Inner? {
      MissLeavesRecord(n.left, ray, rayT, isect, hit);
      var l := Intersect(n.left, ray, rayT, isect, hit);
      MissLeavesRecord(n.right, ray, Narrowed(rayT, l.0, l.1), l.1, hit);
    }
  }

  /** A time inside the narrowed interval lies inside the original one. */
  lemma NarrowedInside(rayT: I.Interval, leftHit: bool, isect: X.Intersection, t: real)
    requires leftHit ==> I.Contains(rayT, isect.time)
    requires I.Contains(Narrowed(rayT, leftHit, isect), t)
    ensures I.Contains(rayT, t)
    ensures leftHit ==> E.Le(E.Fin(t), E.Fin(isect.time))
  {
    if leftHit {
      E.LeTrans(E.Fin(t), E.Fin(isect.time), rayT.hi);
    }
  }

  /** With sound and clean objects, a reported hit lies in the caller's
      interval and, when the left subtree hit, no later than that hit. */
  lemma {:induction false} HitWithinInterval(n: Node, ray: R.Ray, rayT: I.Interval, isect: X.Intersection, hit: HitFn)
    requires Sound(hit) && Clean(hit)
    ensures Intersect(n, ray, rayT, isect, hit).0 ==> I.Contains(rayT, Intersect(n, ray, rayT, isect, hit).1.time)
  {
    if B.SlabHit(n.bounds, ray, rayT) {
      match n
      case Empty(_) =>
      case Leaf(p, _) =>
      case Pair(p, q, _) =>
        var l := hit(p, rayT, isect);
        var iv := Narrowed(rayT, l.0, l.1);
        var r := hit(q, iv, l.1);
        if r.0 {
          NarrowedInside(rayT, l.0, l.1, r.1.time);
        }
      case Inner(left, right, _) =>
        HitWithinInterval(left, ray, rayT, isect, hit);
        var l := Intersect(left, ray, rayT, isect, hit);
        var iv := Narrowed(rayT, l.0, l.1);
        HitWithinInterval(right, ray, iv, l.1, hit);
        MissLeavesRecord(right, ray, iv, l.1, hit);
        var r := Intersect(right, ray, iv, l.1, hit);
        if r.0 {
          NarrowedInside(rayT, l.0, l.1, r.1.time);
        }
    }
  }

  /** The boxes of a list, once none has a NaN end, are all spanned by the
      box of the whole list. */
  lemma {:induction false} BoxOfAllIncludes(objs: seq<Prim>, k: nat)
    requires forall j :: 0 <= j < |objs| ==> B.BoxNotNaN(objs[j].box)
    requires k < |objs|
    ensures B.BoxNotNaN(BoxOfAll(objs))
    ensures B.BoxIncludes(BoxOfAll(objs), objs[k].box)
    decreases |objs|
  {
    var init := objs[..|objs| - 1];
    var last := objs[|objs| - 1];
    if |init| > 0 {
      BoxOfAllIncludes(init, if k < |init| then k else 0);
    }
    B.UnionIncludes(BoxOfAll(init), last.box, false);
    if k < |init| {
      BoxIncludesTrans(BoxOfAll(objs), BoxOfAll(init), objs[k].box);
    }
  }

  lemma BoxIncludesTrans(a: B.Bounds3, b: B.Bounds3, c: B.Bounds3)
    requires B.BoxIncludes(a, b) && B.BoxIncludes(b, c)
    ensures B.BoxIncludes(a, c)
  {
    B.IncludesTrans(a.x, b.x, c.x);
    B.IncludesTrans(a.y, b.y, c.y);
    B.IncludesTrans(a.z, b.z, c.z);
  }

  /** Once no key is NaN, the neighbour order of the sort is a full order:
      every object compares no greater than every later one. */
  lemma {:induction false} SortedIsOrdered(s: seq<Prim>, axis: int, i: nat, j: nat)
    requires Sorted(s, axis)
    requires forall k :: 0 <= k < |s| ==> !Key(s[k], axis).NaN?
    requires i <= j < |s|
    ensures E.Le(Key(s[i], axis), Key(s[j], axis))
    decreases j - i
  {
    E.LeTotal(Key(s[i], axis), Key(s[i], axis));
    if i < j {
      SortedIsOrdered(s, axis, i + 1, j);
      E.LeTotal(Key(s[i], axis), Key(s[i + 1], axis));
      E.LeTrans(Key(s[i], axis), Key(s[i + 1], axis), Key(s[j], axis));
    }
  }
}

/** Scene (include/scene.h, source/scene.h): a list of objects with a running
    bounding box, the nearest-hit scan, the total area and the choice of a
    light by area. The two copies agree on everything they share; the older
    one has no Area, Sample or SampleLights. Union is the padded one of
    include/bounds.h; the bounds.h that source/shapes.h
    includes is not part of this model. */
module Scenes {
  import opened Prims
  import opened Wrappers
  import B = Bounds
  import I = Intervals
  import X = Intersections
  import E = ExtReal

  // ------------------------------------------------------ the nearest-hit scan

  /** The variables of the loop in Scene::Intersect: happened, closest,
      temp_isect and the caller's isect. */
  datatype ScanState = ScanState(happened: bool, closest: E.Ext, temp: X.Intersection, isect: X.Intersection)

  /** The state before the loop: nothing found, closest = ray_time._max,
      and `temp0` for the default-constructed temp_isect. */
  function ScanStart(rayT: I.Interval, temp0: X.Intersection, isect: X.Intersection): ScanState {
    ScanState(false, rayT.hi, temp0, isect)
  }

  /** The call one pass makes: the object on [ray_time._min, closest], with
      temp_isect as the record. */
  function Query(st: ScanState, p: Prim, lo: E.Ext, hit: HitFn): (bool, X.Intersection) {
    hit(p, I.Make(lo, st.closest), st.temp)
  }

  /** One pass: temp_isect keeps whatever the call wrote; a hit also sets
      happened, narrows closest to the hit time and copies the record out. */
  function ScanStep(st: ScanState, p: Prim, lo: E.Ext, hit: HitFn): ScanState {
    var r := Query(st, p, lo, hit);
    if r.0 then ScanState(true, E.Fin(r.1.time), r.1, r.1) else st.(temp := r.1)
  }

  /** The loop over a list of objects, in order. */
  function Scan(objs: seq<Prim>, lo: E.Ext, hit: HitFn, st: ScanState): ScanState
    decreases |objs|
  {
    if |objs| == 0 then st
    else ScanStep(Scan(objs[..|objs| - 1], lo, hit, st), objs[|objs| - 1], lo, hit)
  }

  /** The call made for object k, in the state the first k passes left. */
  function CallAt(objs: seq<Prim>, k: nat, lo: E.Ext, hit: HitFn, st: ScanState): (bool, X.Intersection)
    requires k < |objs|
  {
    Query(Scan(objs[..k], lo, hit, st), objs[k], lo, hit)
  }

  // ------------------------------------------------------------- areas

  /** Scene::Area: the sum of the objects' areas, in order. */
  function TotalArea(objs: seq<Prim>): real
    decreases |objs|
  {
    if |objs| == 0 then 0.0 else TotalArea(objs[..|objs| - 1]) + objs[|objs| - 1].area
  }

  /** The sum of the areas of the objects that shine. */
  function ShiningArea(objs: seq<Prim>): real
    decreases |objs|
  {
    if |objs| == 0 then 0.0
    else ShiningArea(objs[..|objs| - 1]) + (if objs[|objs| - 1].shines then objs[|objs| - 1].area else 0.0)
  }

  /** The first shining object from index i on whose running shining total
      reaches `partial`. */
  function FirstLight(objs: seq<Prim>, partial: real, i: nat): (r: Option<nat>)
    requires i <= |objs|
    ensures r.Some? ==> i <= r.value < |objs| && objs[r.value].shines
    decreases |objs| - i
  {
    if i == |objs| then None
    else if objs[i].shines && partial <= ShiningArea(objs[..i + 1]) then Some(i)
    else FirstLight(objs, partial, i + 1)
  }

  /** The light SampleLights picks for the draw `rnd`. */
  function ChosenLight(objs: seq<Prim>, rnd: real): (r: Option<nat>)
    ensures r.Some? ==> r.value < |objs| && objs[r.value].shines
  {
    FirstLight(objs, rnd * ShiningArea(objs), 0)
  }

  // ------------------------------------------------------------- the class

  class Scene {
    var objects: seq<Prim>
    var bounds: B.Bounds3

    /** Scene() = default: no objects, a default-constructed box. */
    constructor ()
      ensures objects == [] && bounds == B.DefaultBox
    {
      objects := [];
      bounds := B.DefaultBox;
    }

    /** Scene(object): the object is pushed but `bounds` stays
        default-constructed. */
    constructor FromObject(p: Prim)
      ensures objects == [p] && bounds == B.DefaultBox
    {
      objects := [p];
      bounds := B.DefaultBox;
    }

    /** AddObject: appended at the end, and the box grows by its box. */
    method AddObject(p: Prim)
      modifies this
      ensures objects == old(objects) + [p]
      ensures bounds == B.Union(old(bounds), p.box, true)
    {
      objects := objects + [p];
      bounds := B.Union(bounds, p.box, true);
    }

    /** Clear empties the list and leaves `bounds` as it was. */
    method Clear()
      modifies this
      ensures objects == [] && bounds == old(bounds)
    {
      objects := [];
    }

    /** Scene::Intersect. `temp0` is the default-constructed temp_isect. */
    method Intersect(rayT: I.Interval, isect: X.Intersection, temp0: X.Intersection, hit: HitFn)
      returns (happened: bool, out: X.Intersection)
      ensures happened == Scan(objects, rayT.lo, hit, ScanStart(rayT, temp0, isect)).happened
      ensures out == Scan(objects, rayT.lo, hit, ScanStart(rayT, temp0, isect)).isect
    {
      happened := false;
      var closest := rayT.hi;
      var temp := temp0;
      out := isect;
      for i := 0 to |objects|
        invariant ScanState(happened, closest, temp, out) == Scan(objects[..i], rayT.lo, hit, ScanStart(rayT, temp0, isect))
      {
        assert objects[..i + 1][..i] == objects[..i];
        var r := hit(objects[i], I.Make(rayT.lo, closest), temp);
        temp := r.1;
        if r.0 {
          happened := true;
          closest := E.Fin(temp.time);
          out := temp;
        }
      }
      assert objects[..|objects|] == objects;
    }

    /** Scene::Area. */
    method Area() returns (area: real)
      ensures area == TotalArea(objects)
    {
      area := 0.0;
      for i := 0 to |objects|
        invariant area == TotalArea(objects[..i])
      {
        assert objects[..i + 1][..i] == objects[..i];
        area := area + objects[i].area;
      }
      assert objects[..|objects|] == objects;
    }

    /** Scene::Sample does nothing. */
    method Sample(isect: X.Intersection, pdf: E.Ext) returns (isect': X.Intersection, pdf': E.Ext)
      ensures isect' == isect && pdf' == pdf
    {
      isect', pdf' := isect, pdf;
    }

    /** SampleLights. `rnd` is the RandomFloat() draw; the first loop sums
        the shining area, the second samples the first shining object whose
        running total reaches rnd times that sum, and returns. */
    method SampleLights(isect: X.Intersection, pdf: E.Ext, rnd: real, sample: SampleFn)
      returns (isect': X.Intersection, pdf': E.Ext)
      ensures ChosenLight(objects, rnd).None? ==> isect' == isect && pdf' == pdf
      ensures ChosenLight(objects, rnd).Some? ==> (isect', pdf') == sample(objects[ChosenLight(objects, rnd).value], isect, pdf)
    {
      var lightsArea := 0.0;
      for i := 0 to |objects|
        invariant lightsArea == ShiningArea(objects[..i])
      {
        assert objects[..i + 1][..i] == objects[..i];
        if objects[i].shines {
          lightsArea := lightsArea + objects[i].area;
        }
      }
      assert objects[..|objects|] == objects;
      var partial := rnd * lightsArea;
      ChosenAt(objects, rnd, lightsArea, partial);
      lightsArea := 0.0;
      isect', pdf' := isect, pdf;
      for i := 0 to |objects|
        invariant lightsArea == ShiningArea(objects[..i])
        invariant ChosenLight(objects, rnd) == FirstLight(objects, partial, i)
      {
        assert objects[..i + 1][..i] == objects[..i];
        if objects[i].shines {
          lightsArea := lightsArea + objects[i].area;
          if partial <= lightsArea {
            assert lightsArea == ShiningArea(objects[..i + 1]);
            assert FirstLight(objects, partial, i) == Some(i);
            var s := sample(objects[i], isect, pdf);
            isect', pdf' := s.0, s.1;
            return;
          }
        }
      }
    }
  }

  // ------------------------------------------------------------- lemmas

  lemma PrefixOfPrefix(objs: seq<Prim>, k: nat)
    requires k < |objs|
    ensures objs[..|objs| - 1][..k] == objs[..k]
  {
  }

  /** The scan reports a hit exactly when one of its calls does. */
  lemma {:induction false} ScanHappened(objs: seq<Prim>, lo: E.Ext, hit: HitFn, st: ScanState)
    ensures Scan(objs, lo, hit, st).happened <==>
            (st.happened || exists k: nat :: k < |objs| && CallAt(objs, k, lo, hit, st).0)
    decreases |objs|
  {
    if |objs| > 0 {
      var init := objs[..|objs| - 1];
      var n := |objs| - 1;
      ScanHappened(init, lo, hit, st);
      forall k: nat | k < |init|
        ensures CallAt(objs, k, lo, hit, st) == CallAt(init, k, lo, hit, st)
      {
        PrefixOfPrefix(objs, k);
      }
      assert objs[..n] == init;
      assert CallAt(objs, n, lo, hit, st) == Query(Scan(init, lo, hit, st), objs[n], lo, hit);
      if Scan(objs, lo, hit, st).happened && !st.happened {
        if Scan(init, lo, hit, st).happened {
          var k: nat :| k < |init| && CallAt(init, k, lo, hit, st).0;
          assert CallAt(objs, k, lo, hit, st).0;
        } else {
          assert CallAt(objs, n, lo, hit, st).0;
        }
      }
    }
  }

  /** The record the scan returns is the caller's when no call hits, and
      otherwise the record of the last call that hit, whose time is the
      final `closest`. */
  lemma {:induction false} ScanLastHit(objs: seq<Prim>, lo: E.Ext, hit: HitFn, st: ScanState, k: nat)
    requires k < |objs| && CallAt(objs, k, lo, hit, st).0
    requires forall j: nat :: k < j < |objs| ==> !CallAt(objs, j, lo, hit, st).0
    ensures Scan(objs, lo, hit, st).isect == CallAt(objs, k, lo, hit, st).1
    ensures Scan(objs, lo, hit, st).closest == E.Fin(CallAt(objs, k, lo, hit, st).1.time)
    decreases |objs|
  {
    var init := objs[..|objs| - 1];
    if k < |objs| - 1 {
      assert objs[..|objs| - 1] == init;
      assert !CallAt(objs, |objs| - 1, lo, hit, st).0;
      PrefixOfPrefix(objs, k);
      forall j: nat | k < j < |init|
        ensures !CallAt(init, j, lo, hit, st).0
      {
        PrefixOfPrefix(objs, j);
        assert CallAt(objs, j, lo, hit, st) == CallAt(init, j, lo, hit, st);
      }
      ScanLastHit(init, lo, hit, st, k);
      assert init[..k] == objs[..k];
    }
  }

  lemma {:induction false} ScanNoHit(objs: seq<Prim>, lo: E.Ext, hit: HitFn, st: ScanState)
    requires forall j: nat :: j < |objs| ==> !CallAt(objs, j, lo, hit, st).0
    ensures Scan(objs, lo, hit, st).isect == st.isect
    ensures Scan(objs, lo, hit, st).happened == st.happened
    ensures Scan(objs, lo, hit, st).closest == st.closest
    decreases |objs|
  {
    if |objs| > 0 {
      var init := objs[..|objs| - 1];
      forall j: nat | j < |init|
        ensures !CallAt(init, j, lo, hit, st).0
      {
        PrefixOfPrefix(objs, j);
        assert CallAt(objs, j, lo, hit, st) == CallAt(init, j, lo, hit, st);
      }
      ScanNoHit(init, lo, hit, st);
      assert objs[..|objs| - 1] == init;
      assert !CallAt(objs, |objs| - 1, lo, hit, st).0;
    }
  }

  /** With shapes that report times inside their interval, `closest` never
      grows past where it started, and a reported hit lies in the caller's
      interval. */
  lemma {:induction false} ScanNarrows(objs: seq<Prim>, lo: E.Ext, hit: HitFn, st: ScanState)
    requires Sound(hit)
    ensures var s := Scan(objs, lo, hit, st);
      s.closest == st.closest || E.Le(s.closest, st.closest)
    ensures var s := Scan(objs, lo, hit, st);
      s.happened && !st.happened ==> I.Contains(I.Make(lo, st.closest), s.isect.time)
    ensures var s := Scan(objs, lo, hit, st);
      s.happened && !st.happened ==> s.closest == E.Fin(s.isect.time)
    decreases |objs|
  {
    if |objs| > 0 {
      var init := objs[..|objs| - 1];
      var s0 := Scan(init, lo, hit, st);
      ScanNarrows(init, lo, hit, st);
      var r := Query(s0, objs[|objs| - 1], lo, hit);
      if r.0 {
        assert I.Contains(I.Make(lo, s0.closest), r.1.time);
        if s0.closest != st.closest {
          E.LeTrans(E.Fin(r.1.time), s0.closest, st.closest);
        }
      }
    }
  }

  /** The scan of Scene::Intersect, from its start state. */
  lemma IntersectWithinInterval(objs: seq<Prim>, rayT: I.Interval, temp0: X.Intersection, isect: X.Intersection,
                                hit: HitFn)
    requires Sound(hit)
    ensures var s := Scan(objs, rayT.lo, hit, ScanStart(rayT, temp0, isect));
      (s.happened ==> I.Contains(rayT, s.isect.time) && s.closest == E.Fin(s.isect.time)) &&
      (!s.happened ==> s.isect == isect)
  {
    var st := ScanStart(rayT, temp0, isect);
    ScanNarrows(objs, rayT.lo, hit, st);
    ScanHappened(objs, rayT.lo, hit, st);
    if !Scan(objs, rayT.lo, hit, st).happened {
      ScanNoHit(objs, rayT.lo, hit, st);
    }
    assert I.Make(rayT.lo, rayT.hi).lo == rayT.lo && I.Make(rayT.lo, rayT.hi).hi == rayT.hi;
  }

  /** The total area of a concatenation is the sum of the totals. */
  lemma {:induction false} TotalAreaAppend(a: seq<Prim>, b: seq<Prim>)
    ensures TotalArea(a + b) == TotalArea(a) + TotalArea(b)
    decreases |b|
  {
    if |b| > 0 {
      assert (a + b)[..|a + b| - 1] == a + b[..|b| - 1];
      assert (a + b)[|a + b| - 1] == b[|b| - 1];
      TotalAreaAppend(a, b[..|b| - 1]);
    } else {
      assert a + b == a;
    }
  }

  /** The shining area never exceeds the total area when no area is
      negative, and is zero when nothing shines. */
  lemma {:induction false} ShiningAreaBounds(objs: seq<Prim>)
    requires forall k :: 0 <= k < |objs| ==> objs[k].area >= 0.0
    ensures 0.0 <= ShiningArea(objs) <= TotalArea(objs)
    ensures (forall k :: 0 <= k < |objs| ==> !objs[k].shines) ==> ShiningArea(objs) == 0.0
    decreases |objs|
  {
    if |objs| > 0 {
      ShiningAreaBounds(objs[..|objs| - 1]);
    }
  }

  /** The chosen light shines, its running total reaches `partial`, and the
      running total of every earlier light falls short of it. */
  lemma {:induction false} FirstLightIsFirst(objs: seq<Prim>, partial: real, i: nat)
    requires i <= |objs|
    ensures var c := FirstLight(objs, partial, i);
      c.Some? ==> (i <= c.value < |objs| && objs[c.value].shines && partial <= ShiningArea(objs[..c.value + 1]) &&
                   forall j :: i <= j < c.value && objs[j].shines ==> ShiningArea(objs[..j + 1]) < partial)
    ensures FirstLight(objs, partial, i).None? ==>
              forall j :: i <= j < |objs| && objs[j].shines ==> ShiningArea(objs[..j + 1]) < partial
    decreases |objs| - i
  {
    if i < |objs| {
      FirstLightIsFirst(objs, partial, i + 1);
    }
  }

  /** After the last shining object the running shining total is the whole
      shining area. */
  lemma {:induction false} NoLightAfter(objs: seq<Prim>, k: nat)
    requires k < |objs|
    requires forall j :: k < j < |objs| ==> !objs[j].shines
    ensures ShiningArea(objs[..k + 1]) == ShiningArea(objs)
    decreases |objs| - k
  {
    if k < |objs| - 1 {
      var init := objs[..|objs| - 1];
      assert init[..k + 1] == objs[..k + 1];
      NoLightAfter(init, k);
    } else {
      assert objs[..k + 1] == objs;
    }
  }

  lemma {:induction false} LastLight(objs: seq<Prim>) returns (last: nat)
    requires exists k :: 0 <= k < |objs| && objs[k].shines
    ensures last < |objs| && objs[last].shines && forall j :: last < j < |objs| ==> !objs[j].shines
    decreases |objs|
  {
    if objs[|objs| - 1].shines {
      last := |objs| - 1;
    } else {
      var init := objs[..|objs| - 1];
      var k :| 0 <= k < |objs| && objs[k].shines;
      assert init[k] == objs[k];
      last := LastLight(init);
    }
  }

  lemma SameShare(rnd: real, a: real, b: real)
    requires a == b
    ensures rnd * a == rnd * b
  {
  }

  lemma ChosenAt(objs: seq<Prim>, rnd: real, total: real, partial: real)
    requires total == ShiningArea(objs) && partial == rnd * total
    ensures ChosenLight(objs, rnd) == FirstLight(objs, partial, 0)
  {
    SameShare(rnd, total, ShiningArea(objs));
  }

  lemma ScaledNotAbove(rnd: real, s: real)
    requires 0.0 <= rnd <= 1.0 && s >= 0.0
    ensures rnd * s <= s
  {
    assert s - rnd * s == (1.0 - rnd) * s;
  }

  /** A target no larger than the shining total finds a light exactly when
      one shines. */
  lemma LightFound(objs: seq<Prim>, partial: real)
    requires partial <= ShiningArea(objs)
    ensures (exists k :: 0 <= k < |objs| && objs[k].shines) <==> FirstLight(objs, partial, 0).Some?
  {
    FirstLightIsFirst(objs, partial, 0);
    if exists k :: 0 <= k < |objs| && objs[k].shines {
      var last := LastLight(objs);
      NoLightAfter(objs, last);
    }
  }

  /** With no negative area, a draw in [0, 1] always picks a light when one
      shines; when none shines nothing is sampled. */
  lemma LightChosen(objs: seq<Prim>, rnd: real)
    requires forall k :: 0 <= k < |objs| ==> objs[k].area >= 0.0
    requires 0.0 <= rnd <= 1.0
    ensures (exists k :: 0 <= k < |objs| && objs[k].shines) <==> ChosenLight(objs, rnd).Some?
  {
    ShiningAreaBounds(objs);
    ScaledNotAbove(rnd, ShiningArea(objs));
    LightFound(objs, rnd * ShiningArea(objs));
  }
}

/** The objects a Scene or a BVH node holds, seen through the Shapes interface
    of include/shapes.h: what the aggregates ask of an object is its box, its
    area, whether it shines, and the results of its Intersect and Sample. */
module Prims {
  import B = Bounds
  import I = Intervals
  import X = Intersections
  import E = ExtReal

  /** One object: BBox(), Area(), Shines() (false unless a shape says
      otherwise) and an identity standing for the shared pointer. */
  datatype Prim = Prim(box: B.Bounds3, area: real, shines: bool, id: nat)

  /** object->Intersect(ray, interval, isect) for the ray of the current
      query: whether the object is hit within the interval, and the record
      as the call leaves it (a miss may leave parts of it written). */
  type HitFn = (Prim, I.Interval, X.Intersection) -> (bool, X.Intersection)

  /** object->Sample(isect, pdf): the record and the pdf as the call leaves
      them. */
  type SampleFn = (Prim, X.Intersection, E.Ext) -> (X.Intersection, E.Ext)

  /** Every shape of the renderer reports a hit time inside the interval it
      was given (the sphere's open test and the quads' closed tests both
      imply the closed test). */
  ghost predicate Sound(hit: HitFn) {
    forall p: Prim, iv: I.Interval, r: X.Intersection :: hit(p, iv, r).0 ==> I.Contains(iv, hit(p, iv, r).1.time)
  }
}

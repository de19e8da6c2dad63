/** The Intersection record that every shape fills in (struct Intersection in
    include/shapes.h, source/shapes.h and shapes.h), and SetOutward. */
module Intersections {
  import opened Vectors
  import R = Rays

  /** The three copies of the renderer: the top-level files, source/ and
      include/. They differ in which fields of the record a hit writes. */
  datatype Snapshot = Early | Source | Include

  /** The record a hit writes. `material` and `shape` (the object pointer)
      stand for shared pointers, as indices. The top-level record has no u, v
      or shape and the source/ record no shape; a hit of those copies leaves
      the missing fields as they are. */
  datatype Intersection = Intersection(
    coords: Vector3,
    normal: Vector3,
    time: real,
    u: real,
    v: real,
    outside: bool,
    material: nat,
    shape: nat)

  /** Intersection::SetOutward: records whether the ray arrives from outside
      (Dot(dir, outward) < 0) and stores the normal turned against the ray. */
  function SetOutward(isect: Intersection, ray: R.Ray, outward: Vector3): (r: Intersection)
    ensures r.outside <==> Dot(ray.dir, outward) < 0.0
    ensures r.normal == (if r.outside then outward else Neg(outward))
    ensures Dot(ray.dir, r.normal) <= 0.0
    ensures r.coords == isect.coords && r.time == isect.time && r.u == isect.u && r.v == isect.v
    ensures r.material == isect.material && r.shape == isect.shape
  {
    DotNeg(ray.dir, outward);
    var outside := Dot(ray.dir, outward) < 0.0;
    isect.(outside := outside, normal := if outside then outward else Neg(outward))
  }

  lemma DotNeg(a: Vector3, w: Vector3)
    ensures Dot(a, Neg(w)) == -Dot(a, w)
  {
  }

  /** The stored normal has the length of the outward normal it came from. */
  lemma SetOutwardLength(isect: Intersection, ray: R.Ray, outward: Vector3)
    ensures Length2(SetOutward(isect, ray, outward).normal) == Length2(outward)
  {
    NegLength(outward);
  }

  lemma NegLength(w: Vector3)
    ensures Length2(Neg(w)) == Length2(w)
  {
  }

  /** SetOutward looks only at the ray and the outward normal: applied twice it
      gives the same record as applied once. */
  lemma SetOutwardIdempotent(isect: Intersection, ray: R.Ray, outward: Vector3)
    ensures SetOutward(SetOutward(isect, ray, outward), ray, outward) == SetOutward(isect, ray, outward)
  {
  }
}

/** Ray (ray.h): an origin, a direction and a time stamp for motion blur. */
module Rays {
  import opened Vectors

  /** Ray(o, d, t) stores its three arguments unchanged. */
  datatype Ray = Ray(org: Vector3, dir: Vector3, time: real)

  /** Ray(o, d): the two-argument constructor, time 0. */
  function StillRay(o: Vector3, d: Vector3): (r: Ray)
    ensures r.org == o && r.dir == d && r.time == 0.0
  {
    Ray(o, d, 0.0)
  }

  /** ray(t) = org + dir * t. */
  function At(r: Ray, t: real): (p: Vector3)
    ensures Sub(p, r.org) == Scale(r.dir, t)
  {
    Add(r.org, Scale(r.dir, t))
  }

  /** The ray starts at its origin, and the points at two parameters differ by
      the direction scaled by the difference of the parameters. */
  lemma AtAffine(r: Ray, s: real, t: real)
    ensures At(r, 0.0) == r.org
    ensures Sub(At(r, s), At(r, t)) == Scale(r.dir, s - t)
  {
  }
}

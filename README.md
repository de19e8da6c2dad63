# Simple-RT core, modelled in Dafny

Simple-RT is a small CPU path tracer written in C++. The repository holds
three near-identical snapshots of its headers:

- an early one at the top level (`interval.h`, `vector.h`, `bounds.h`,
  `shapes.h`, `bvhtree.h`, ...);
- a middle one under `source/`;
- the newest one under `include/`.

This project models the geometric, combinatorial and index-arithmetic core
those snapshots share, and proves properties of that model. The core is:

- intervals and axis-aligned boxes, including the slab ray-box test;
- the sphere, triangle and quad intersection routines, and how they write
  the intersection out-record;
- the bounding volume hierarchy: construction and traversal;
- the scene aggregate: nearest-hit scan, area sum and area-weighted light
  choice;
- the Perlin permutation tables and their hashed indexing;
- image buffer lookup, float-to-byte conversion and textures;
- the PPM colour writer.

Where the snapshots differ, one model carries the difference explicitly:

- `Bounds.Union` and `Bounds.FromPoints` take a `padded` flag, since
  `include/bounds.h` pads thin axes and `bounds.h` does not.
- `Spheres.Intersect` takes the snapshot, since the copies write different
  record fields.
- The two-triangle quad of `include/shapes.h` and the plane quad of
  `source/shapes.h` are two modules.

Modelling conventions:

- A C++ `double` is a Dafny `real`. Interval ends, box sizes and slab-test
  times are extended reals `NegInf | Fin(r) | PosInf | NaN`, with IEEE
  comparison rules: every comparison with NaN is false. `std::min` and
  `std::max` are written as the library defines them.
- `static_cast<int>` truncates toward zero, and the C++ `%` has the sign of
  its dividend. Both are written out in `Global`. Bitwise `&` and `^` on
  `int` are defined arithmetically in `Bits`.
- Computations the model cannot see become parameters, constrained by what
  the callers may assume:
  - `std::sqrt` is a root `r` with `r >= 0 && r * r == x`;
  - `std::pow` for gamma is a function parameter;
  - random draws are numbers handed in;
  - `Sphere::CountUV` is a pair handed in;
  - `PerlinInterpolate` is an interpolator handed in;
  - an object's own `Intersect` and `Sample` are oracles `HitFn` and
    `SampleFn`, with their obligations stated as predicates (`Sound`,
    `Clean`);
  - the stb_image decoder's result is an input of `Image.Load`.
- The intersection out-record passed by reference is a value passed in and
  returned. "Left untouched on a false return" is then `res.1 == isect`.
- State the source changes in place is imperative Dafny, proved against the
  functions that specify it:
  - `Scene`, `Image`, `Perlin` and the mutable `Vector3` operators are
    classes;
  - the BVH sort and split and `GeneratePerlin` work in place on an `array`;
  - the slab loop, the scene scan, the area sum, the light search, the
    conversion loop of `Load` and the turbulence loop are methods with loop
    invariants.

`MaxAxis` uses strict comparisons, so on a tie it returns the higher
axis index, not the lower one; the model keeps that tie-break.

## Model

| member | source | states |
|---|---|---|
| Global.TruncBounds | include/texture.h:44-46 | `static_cast<int>` of a double is the integer toward zero: within 1 of x and no farther from 0 than x, for both signs |
| Global.TruncMonotone | source/image.h:80 | the int conversion never maps a larger value to a smaller integer |
| Global.CRemParity | include/texture.h:47 | the C++ `% 2` is 0 exactly for even values, negative ones included, and it is -1 for odd negatives |
| ExtReal.LeTotal | include/global.h:56-58 | on non-NaN doubles, `<=` is total and `<` is its strict converse |
| ExtReal.LeTrans | include/global.h:56-58 | `<=` on doubles is transitive, and strict when either step is strict |
| ExtReal.MinMaxBounds | include/global.h:56-58 | `std::min` and `std::max` return one of their arguments, below (above) both |
| ExtReal.MinMaxMonotone | include/global.h:56-58 | `std::min` and `std::max` are monotone in both arguments |
| Intervals.Make | include/interval.h:11 | the pair constructor stores min and max, and with finite ends size = max - min |
| Intervals.FiniteContains | include/interval.h:18 | a finite interval contains exactly the values between its ends, inclusive |
| Intervals.DefaultIsEmpty | include/interval.h:10 | the default interval is (+inf, -inf) with size 0, and it contains and surrounds no value |
| Intervals.EmptyContainsNothing | source/interval.cpp:3 | `Interval::Empty` is built by the pair constructor as (+inf, -inf), its size is -inf so it differs from the default interval, and it contains and surrounds nothing |
| Intervals.UniverseContainsAll | source/interval.cpp:4 | `Interval::Universe` is (-inf, +inf) with size +inf, and it contains and surrounds every finite value |
| Intervals.HullContains | include/interval.h:12-15 | the union interval contains every value either operand contains |
| Intervals.HullBounds | include/interval.h:12-15 | the union's min lies at or below both mins and its max at or above both maxes |
| Intervals.HullWithEmpty | include/interval.h:12-15 | a union with `Empty`, on either side, has the other operand's ends |
| Intervals.SurroundsImpliesContains | include/interval.h:18-19 | an open surround implies closed containment; the ends of a finite interval are contained but not surrounded |
| Intervals.ClampInRange | include/interval.h:20 | for finite min <= max, Clamp lands in the interval and leaves a contained value unchanged |
| Intervals.ClampRealProperties | interval.h:16 | for min <= max, the clamp lies in [min, max]; it is the identity inside, the nearest end outside, and monotone |
| Intervals.CentroidIsMidpoint | include/interval.h:21 | the centroid of a finite interval is (min + max) / 2, and that point is contained when min <= max |
| Intervals.ExpandGrowsSize | include/interval.h:22 | Expand(a) keeps the centroid; with finite ends and a consistent size, the size grows by exactly a; for a >= 0 it spans the original |
| Vectors.Normalize | include/vector.h:56-57 | for a vector of positive length, Normalize (with the 1e12 prescale of tiny vectors) is v / len and a unit vector |
| Vectors.NormalizeEarly | vector.h:45-46 | the older Normalize (prescale by 1 / EPS_DEUX) is also v / len and a unit vector |
| Vectors.NormalizeIgnoresPrescale | include/vector.h:50-57 | IsZero holds for every all-negative vector, and the two copies' prescales never change the normalised result |
| Vectors.Refract | include/vector.h:115-124 | Refract succeeds exactly when sin^2 of the incident angle is below eta^2 (cos clamped to at most 1), and on failure `wt` is left as it was |
| Vectors.RefractSnell | include/vector.h:115-124 | for a unit normal, the refracted direction has normal component -cos_t, and its tangential part is -(wi - (wi . n) n) / eta |
| Vectors.CosPhi | include/vector.h:105-108 | Cosφ lies in [-1, 1] and is 1 when sinθ is 0 |
| Vectors.SinPhi | include/vector.h:109-112 | Sinφ lies in [-1, 1] and is 0 when sinθ is 0 |
| Vectors.IndexComponentwise | include/vector.h:18 | `operator[]` maps 0 to x, 1 to y and every other index to z, and sums, differences, scalings, Min and Max act per component |
| Vectors.MinLeMax | include/vector.h:32-41 | on every component, Min(a, b) <= a, b <= Max(a, b) |
| Vectors.DotCross | include/vector.h:90-94 | Dot is symmetric, and Cross(a, b) is orthogonal to both a and b |
| Vectors.ReflectProperties | include/vector.h:113-114 | for a unit n, reflection keeps the normal component, and reflecting twice gives back w |
| Vectors.LerpEnds | vector.h:48 | Lerp is v1 at 0 and v2 at 1 |
| Vectors.Length2Nonneg | include/vector.h:51 | the squared length is never negative |
| Vectors.Length2Zero | include/vector.h:51 | only the zero vector has squared length 0 |
| Vectors.MutableVector3.constructor | include/vector.h:15 | the constructor stores the three components |
| Vectors.MutableVector3.AddAssign | include/vector.h:25 | `+=` leaves the vector equal to the old value plus the operand |
| Vectors.MutableVector3.SubAssign | include/vector.h:26 | `-=` leaves the old value minus the operand |
| Vectors.MutableVector3.MulAssign | include/vector.h:27 | `*=` leaves the old value scaled by the factor |
| Vectors.MutableVector3.DivAssign | include/vector.h:28 | `/=` by a nonzero divisor leaves the old value divided by it |
| Vectors.MutableVector3.SetIndex | include/vector.h:19 | assigning through `operator[]` sets the indexed component (z for any index other than 0 and 1) and keeps the other two |
| Vectors.MutableVector3.Unitize | include/vector.h:58 | Unitize replaces the vector by its normalisation, a unit vector |
| Rays.StillRay | ray.h:13 | the two-argument constructor stores origin and direction and sets time to 0 |
| Rays.At | ray.h:16 | the point at t is the origin displaced by t times the direction |
| Rays.AtAffine | ray.h:16 | the point at 0 is the origin, and two points differ by the direction times the difference of their times |
| Intersections.SetOutward | include/shapes.h:21-24 | `outside` is set exactly when the ray runs against the outward normal; the stored normal always faces against the ray; no other field changes |
| Intersections.SetOutwardLength | include/shapes.h:21-24 | the stored normal is as long as the outward normal |
| Intersections.SetOutwardIdempotent | include/shapes.h:21-24 | setting the same outward normal twice gives the record of setting it once |
| Triangles.TriangleIsect | include/mathematics.h:9-29 | a near-singular determinant (below EPS_QUAT) rejects before anything is written; t is written only on success, while u is already written whenever the determinant passes; success holds exactly when (u, v) lies in the triangle widened by EPS_DEUX |
| Triangles.HitOnPlane | include/mathematics.h:13-26 | with a nonzero determinant, the ray point at the computed t is p0 + u e1 + v e2 for the computed u, v (Cramer's rule) |
| Triangles.TriangleHitOnTriangle | include/mathematics.h:9-29 | a reported hit lies on the triangle's plane at the reported (u, v), and (u, v) is within the widened triangle |
| Triangles.PlaneCoordinatesUnique | include/mathematics.h:13-26 | with a nonzero determinant the plane point is unique: for any ray point on the plane at coordinates (a, b) and time s, the computed u, v and t are a, b and s |
| Triangles.TriangleFindsPoint | include/mathematics.h:9-29 | conversely, a ray that meets a point of the widened triangle at s, with a determinant that passes the test, is reported as a hit at s with that point's (u, v), whatever the incoming t, u and v |
| Spheres.ClampRadius | include/shapes.h:47 | the stored radius is the given one when at least EPS_DEUX, else EPS_DEUX |
| Spheres.StaticSphere | include/shapes.h:46-50 | the static constructor keeps the centre, material and id, and its radius is at least EPS_DEUX |
| Spheres.MovingSphere | include/shapes.h:52-59 | the moving constructor starts at the first centre and its radius is at least EPS_DEUX |
| Spheres.Area | include/shapes.h:64 | the area of a sphere is positive |
| Spheres.Chosen | include/shapes.h:76-80 | the time Intersect reports is one of the two roots of the ray-sphere quadratic |
| Spheres.Intersect | include/shapes.h:65-90 | a false return leaves the record as it was; a hit happens exactly when the discriminant is at least EPS_DEUX and the near or the far root lies strictly inside the interval; the time is the chosen root, and the point is the ray at that time |
| Spheres.Sample | include/shapes.h:91-99 | the pdf is 1 / Area(); the sample is centre + r * unit with the inward normal -unit, and `outside` is false |
| Spheres.LeadingPositive | include/shapes.h:68-72 | a passing discriminant implies a nonzero ray direction, so the leading coefficient is positive |
| Spheres.HitOnSphere | include/shapes.h:76-83 | a hit lies on the sphere, at distance r from the centre for the ray's time |
| Spheres.QuadraticRoots | include/shapes.h:71-79 | every solution of the quadratic is the near or the far root |
| Spheres.NearNotAfterFar | include/shapes.h:76-78 | the near root is never after the far root |
| Spheres.HitIsNearest | include/shapes.h:76-80 | a hit reports the earliest point on the sphere that the interval surrounds |
| Spheres.MissIsComplete | include/shapes.h:72-79 | when the discriminant passes, any point of the ray on the sphere inside the interval makes Intersect succeed |
| Spheres.MeetingNeedsDiscriminant | include/shapes.h:71 | a ray that meets the sphere has a non-negative discriminant |
| Spheres.HitNormal | include/shapes.h:81-82 | a hit stores a unit normal facing against the ray, and `outside` tells whether the ray runs towards the centre |
| Spheres.HitWrites | include/shapes.h:81-87 | every snapshot writes the material; `source/` and `include/` write u and v from CountUV, the early copy does not; only `include/` writes the object id |
| Spheres.BallInBox | include/shapes.h:48-49 | the box centre ± r holds every point of the ball on every axis |
| Spheres.StaticBoxHoldsBall | include/shapes.h:46-50 | a static sphere's box holds its whole ball |
| Spheres.MovingBoxHoldsEnds | include/shapes.h:52-59 | a moving sphere is at its first centre at time 0 and at its second at time 1, and its box spans both end balls' boxes |
| Spheres.BoxFinite | include/shapes.h:48-49 | a sphere's box has no NaN end |
| Spheres.SampleOnSphere | include/shapes.h:91-99 | for a unit direction, the sampled point lies on the sphere and its normal is a unit vector |
| Quads.MakeQuad | include/shapes.h:125-131 | the plain constructor keeps its corner and edges, does not cull, stores the unit normal of u × v and the area \|u × v\|, and its box is the union of the diagonal boxes |
| Quads.MakeCulledQuad | include/shapes.h:144-156 | the culling constructor keeps the given normal, normalised, and culls back faces |
| Quads.IntersectAsWritten | include/shapes.h:167-190 | the code as written agrees with the corrected Intersect on every hit |
| Quads.Intersect | include/shapes.h:167-190 | a false return leaves the record as it was; a hit happens exactly when the quad is not culled, one of the two triangles is hit and t is in the closed interval; it writes t, the point, u, v, the material and the object |
| Quads.Sample | include/shapes.h:191-199 | the sample is vert0 + u vec_u + v vec_v at time 0, and the pdf is 1 / area (+inf for a zero area) |
| Quads.OppositeCorner | include/shapes.h:176-177 | the point (a, b) of the triangle from the far corner is the point (1 - a, 1 - b) of the quad |
| Quads.TwoTrianglesOnQuad | include/shapes.h:170-178 | the two-triangle test puts a hit on the quad's plane at the reported (u, v), inside one of the two widened triangles |
| Quads.TwoTrianglesFindPoint | include/shapes.h:170-178 | conversely, a ray that meets the plane at a point (a, b) of either widened triangle, with a determinant that passes the test, is reported at that time with (a, b) |
| Quads.FindsPointOnQuad | include/shapes.h:167-180 | a ray that is not culled and meets the closed parallelogram at a time inside the interval, with a determinant that passes the test, is a hit at that time with that point's (u, v) |
| Quads.FirstTriangleFirst | include/shapes.h:174-175 | when the first triangle is hit, it alone decides the result |
| Quads.HitOnQuad | include/shapes.h:174-182 | a hit lies on the quad at the reported (u, v), at a time inside the interval |
| Quads.HitNormal | include/shapes.h:185-188 | a hit's normal faces against the ray; a culling quad keeps its own normal and leaves `outside` as it was, while the others go through SetOutward |
| Quads.BackFacesRejected | include/shapes.h:168-169 | a culling quad the ray meets from behind is never hit, and the record is untouched, in both versions |
| Quads.AsWrittenOnlyLeaksUV | include/shapes.h:174-180 | the code as written returns the same flag as the corrected version, and a false return differs from the input only in u and v |
| Quads.AsWrittenLeaksUV | include/shapes.h:174-180 | on the unit square, a ray from (0.25, 0.25, 1) straight down with the interval [2, 3] misses, yet the code as written returns u = v = 0.25 in the record |
| Quads.LeakOutsideInterval | include/shapes.h:175-180 | whenever the first triangle is hit outside the interval, the code as written returns false with that triangle's u and v in the record |
| Quads.BoxHoldsCorners | include/shapes.h:159-164 | the quad's box holds all four corners |
| PlaneQuads.MakePlaneQuad | source/shapes.h:109-117 | the constructor stores the unit normal of u × v, constant = pin · normal and w = n / (n · n), so that w · (u × v) = 1, and the box of the two diagonals |
| PlaneQuads.MadeWellFormed | source/shapes.h:112-116 | a constructed quad has a normal orthogonal to both edges, a consistent constant and w · (u × v) = 1 |
| PlaneQuads.Interior | source/shapes.h:160-167 | Interior accepts exactly when both coordinates lie in [0, 1], writing u and v only then |
| PlaneQuads.Intersect | source/shapes.h:141-159 | a false return leaves the record as it was; a hit happens exactly when the ray is not parallel to the plane, the plane time is in the closed interval and alpha and beta lie in [0, 1]; time and point are set |
| PlaneQuads.PlaneTimeOnPlane | source/shapes.h:145 | the ray point at the computed time satisfies the plane equation |
| PlaneQuads.HitOnPlane | source/shapes.h:141-158 | every hit point lies on the quad's plane |
| PlaneQuads.ParallelRejected | source/shapes.h:142-144 | a ray within EPS_DEUX of parallel is rejected and the record is untouched |
| PlaneQuads.AlphaBeta | source/shapes.h:148-150 | for the point pin + a u + b v, the computed alpha is a and beta is b |
| PlaneQuads.PlanePointOnPlane | source/shapes.h:114 | every point pin + a u + b v of a well-formed quad satisfies the plane equation |
| PlaneQuads.HitsInteriorPoint | source/shapes.h:141-158 | a non-parallel ray that reaches an interior point of the quad inside the interval is a hit at that time, with those (u, v) |
| PlaneQuads.ReachedAtPlaneTime | source/shapes.h:145 | a non-parallel ray reaches the plane only at the computed time |
| PlaneQuads.BoxHoldsCorners | source/shapes.h:134-139 | the box holds all four corners |
| Bounds.MaxAxis | include/bounds.h:48-51 | MaxAxis returns an axis index 0, 1 or 2 |
| Bounds.MaxAxisHighestMaximum | include/bounds.h:48-51 | MaxAxis picks an axis of greatest size, and no later axis is as large, so ties go to the higher index |
| Bounds.SlabStep | include/bounds.h:36-44 | one axis pass never lowers the working min and never raises the working max |
| Bounds.Intersect | include/bounds.h:31-47 | the slab loop over a local copy of the interval returns the slab-test verdict, and the caller's interval cannot change |
| Bounds.PadProperties | include/bounds.h:15-17 | padding keeps a wide axis exactly, and grows a thin one by EPS_UNIT about its centroid; the result is at least EPS_UNIT wide and spans the original |
| Bounds.FromPointsProperties | include/bounds.h:19-26 | the point-pair box is finite and ordered on every axis and holds both points; unpadded, its ends are the min and the max of the coordinates; padded, every axis is at least EPS_UNIT wide |
| Bounds.FlatBoxUnpadded | bounds.h:14-18 | the older copy leaves a flat axis with size 0, while the newer pads it to EPS_UNIT |
| Bounds.ExpandIncludes | include/interval.h:22 | expanding by a non-negative amount spans the original interval |
| Bounds.PadIncludes | include/bounds.h:15-17 | a padded axis spans the original one |
| Bounds.HullIncludes | include/bounds.h:65-70 | one axis of a union, padded or not, spans both operands' axes |
| Bounds.UnionIncludes | include/bounds.h:65-70 | every axis of Union(A, B) spans the corresponding axes of A and of B |
| Bounds.UnionWithEmpty | bounds.h:52-59 | unpadded, Union(Empty, B) is B exactly; padded, it is B when B has no thin axis |
| Bounds.SurfaceAreaFinite | include/bounds.h:52-55 | with finite sizes, the surface area is 2 (xy + xz + yz), and it is non-negative for non-negative sizes |
| Bounds.SlabRejectsInverted | include/bounds.h:41-44 | an input interval with min >= max is rejected for every box and ray |
| Bounds.EmptyAxisStep | include/bounds.h:36-44 | an empty axis leaves the working interval unchanged |
| Bounds.EmptyBoxPasses | bounds.h:59 | the empty box passes the slab test exactly when the interval is non-empty |
| Bounds.SlabTimesNested | include/bounds.h:36-40 | for a nonzero direction component, a wider slab gives an earlier entry and a later exit |
| Bounds.SlabFromMonotone | include/bounds.h:34-46 | from any axis on, a slab loop that passes for a box also passes for an enclosing box started on a wider working interval |
| Bounds.SlabMonotone | include/bounds.h:31-47 | with nonzero direction components, a ray that passes the test for a box passes it for any box that encloses it, such as a union |
| Bvh.SortRange | bvhtree.h:38-45 | the sort permutes only [start, end), keeps everything outside the range, and leaves no neighbouring pair inverted by the centroid comparator |
| Bvh.Insert | bvhtree.h:38-45 | one insertion step extends the sorted prefix by one element, permuting only the range |
| Bvh.Build | bvhtree.h:17-53 | the build permutes only its range, and the tree holds exactly that range's primitives; 0 primitives give an empty node with the Empty box; 1 gives a leaf with its box; 2 give a pair under the union of their boxes; more give an inner node bounded by the union over the whole object list, and then no node is empty |
| Bvh.Split | bvhtree.h:33-51 | for more than two primitives, the tree holds exactly the range's primitives, it has no empty node, and its box is the union of the whole list |
| Bvh.UnionOfAll | bvhtree.h:33-34 | the loop computes the union of every object's box, starting from Empty |
| Bvh.FromScene | bvhtree.h:16 | the tree of a scene holds exactly the scene's objects (the caller's list is a value, so its order is kept); it is an empty node only for an empty scene |
| Bvh.IntersectAsWritten | bvhtree.h:56-65 | a box miss returns false with the record untouched, a leaf delegates with the same interval, and a node with neither core nor children dereferences a null child |
| Bvh.Intersect | bvhtree.h:56-65 | the corrected traversal returns false for a box miss and for an empty node, and a leaf delegates with the same interval |
| Bvh.AsWrittenFaultsOnEmptyScene | bvhtree.h:57-62 | for every ray and every non-empty interval, the tree of an empty scene passes its box test and then dereferences a null child |
| Bvh.AsWrittenAgrees | bvhtree.h:56-65 | on a tree with no empty node, the code as written and the corrected traversal agree |
| Bvh.MissLeavesRecord | bvhtree.h:56-65 | when the objects leave the record alone on a miss, so does the traversal |
| Bvh.NarrowedInside | bvhtree.h:63 | the right subtree's interval, whose max is the left hit's time, lies inside the original interval and ends at that time |
| Bvh.HitWithinInterval | bvhtree.h:56-65 | when the objects report hits inside the interval they are given, a traversal hit lies inside the original interval |
| Bvh.BoxOfAllIncludes | bvhtree.h:33-34 | the union of all boxes spans every object's box |
| Bvh.SortedIsOrdered | bvhtree.h:43-44 | a sorted range has non-decreasing centroid keys between any two positions |
| Bvh.SplitFrame | bvhtree.h:48-51 | sorting and then building the two halves at mid permutes the range as a whole and keeps everything outside it |
| Scenes.FirstLight | include/scene.h:52-60 | the light search returns an index at or after its start, and only of a shining object |
| Scenes.ChosenLight | include/scene.h:44-61 | the light SampleLights picks is a shining object of the scene |
| Scenes.Scene.constructor | include/scene.h:13 | a new scene has no objects and default bounds |
| Scenes.Scene.FromObject | include/scene.h:14 | the single-object constructor holds that object but leaves bounds at the default |
| Scenes.Scene.AddObject | include/scene.h:17-20 | AddObject appends at the end, keeps earlier entries, and sets bounds to the union of the old bounds and the object's box |
| Scenes.Scene.Clear | include/scene.h:21 | Clear removes every object and leaves bounds as it was |
| Scenes.Scene.Intersect | include/scene.h:22-34 | the loop returns the flag and the record of the linear scan over the objects in order |
| Scenes.Scene.Area | include/scene.h:36-42 | the loop returns the sum of the objects' areas |
| Scenes.Scene.Sample | include/scene.h:43 | Scene::Sample changes nothing |
| Scenes.Scene.SampleLights | include/scene.h:44-61 | with no light chosen nothing is written; otherwise the record and the pdf are exactly the chosen object's own Sample result, with no selection factor |
| Scenes.ScanHappened | include/scene.h:26-33 | the scan reports a hit exactly when some object's call reports one |
| Scenes.ScanLastHit | include/scene.h:26-32 | the scan ends with the record of the last hitting call, and closest is that hit's time |
| Scenes.ScanNoHit | include/scene.h:26-33 | without any hit, the scan leaves the flag, closest and the record as they were |
| Scenes.ScanNarrows | include/scene.h:27-29 | closest never increases, and a new hit lies inside [min, old closest] with closest set to its time |
| Scenes.IntersectWithinInterval | include/scene.h:22-34 | a scene hit lies inside the input interval and sets closest to its time; without a hit the record is untouched |
| Scenes.TotalAreaAppend | include/scene.h:36-42 | the area of a concatenation is the sum of the areas |
| Scenes.ShiningAreaBounds | include/scene.h:45-49 | for non-negative areas, the shining area lies between 0 and the total area, and it is 0 when nothing shines |
| Scenes.FirstLightIsFirst | include/scene.h:52-60 | the chosen light is the first shining object whose running shining area reaches the target; without one, every shining object's running total is below the target |
| Scenes.NoLightAfter | include/scene.h:51-55 | after the last shining object, the running total is the whole shining area |
| Scenes.LastLight | include/scene.h:52-60 | a scene with a shining object has a last one |
| Scenes.ChosenAt | include/scene.h:50 | SampleLights searches with target RandomFloat() times the total shining area |
| Scenes.LightFound | include/scene.h:52-60 | for a target at most the shining area, the search finds a light exactly when some object shines |
| Scenes.LightChosen | include/scene.h:44-61 | with non-negative areas and a draw in [0, 1], SampleLights samples exactly when some object shines |
| Bits.AndLowOnes | include/perlin.h:34-36 | with a mask of n low one bits, `&` keeps the value mod 2^n, negative values included |
| Bits.Low8 | include/perlin.h:34 | `x & 255` is x mod 256, in [0, 255] |
| Bits.XorBelow | include/perlin.h:34-36 | the XOR of two values below 2^n stays below 2^n |
| Perlins.RandomIntAsWritten | include/global.h:62-67 | the function-static distribution is fixed by the first call, and every draw lies in that first range |
| Perlins.RandomInt | include/global.h:62-67 | an intended draw lies in [a, b] |
| Perlins.AsWrittenIgnoresRange | include/global.h:65 | after a first call with [0, 255], a call asking for [0, 1] can return 200 |
| Perlins.AsWrittenDrawsInTable | include/perlin.h:64-69 | as written, every shift is still an index of the 256-entry table |
| Perlins.CorrectedDrawsInTable | include/perlin.h:65 | the intended draw for step i lies in [0, i], an index of the table |
| Perlins.Identity | include/perlin.h:62-63 | the first loop leaves perlin[i] = i for every index |
| Perlins.Shuffled | include/perlin.h:61-70 | the table after any number of swaps still has 256 entries |
| Perlins.GeneratePerlin | include/perlin.h:61-70 | the in-place fill and swap loop leaves the table equal to the specified shuffle of the identity |
| Perlins.NewTable | include/perlin.h:15-17 | a generated table is a permutation of 0..255, so every entry is an index |
| Perlins.CopyVectors | include/perlin.h:12-13 | the constructor's first loop stores all 256 random vectors in order |
| Perlins.ShuffledIsPermutation | include/perlin.h:64-69 | swapping in-range entries keeps a permutation of 0..255 after every step, for any shifts in [0, 255] |
| Perlins.PermutationEntries | include/perlin.h:33-36 | every entry of a permutation table is an index of the table |
| Perlins.Wrap | include/perlin.h:34-36 | `(i + di) & 255` is an index, equal to (i + di) mod 256, for every int |
| Perlins.Hash | include/perlin.h:33-36 | the XOR of the three table entries is an index of rand_vectors |
| Perlins.XorOfIndices | include/perlin.h:34-36 | the XOR of three table indices is a table index |
| Perlins.Cube | include/perlin.h:29-36 | Noise gathers eight corner vectors |
| Perlins.CornerPosition | include/perlin.h:30-36 | corner (di, dj, dk) sits at position 4 di + 2 dj + dk of the gathered cube |
| Perlins.Frac | include/perlin.h:22-24 | the fractional part x - floor(x) lies in [0, 1) |
| Perlins.TermWithin | include/perlin.h:45 | step k of the turbulence sum lies within 0.5^k times the interpolator's bound |
| Perlins.ReachStep | include/perlin.h:44-48 | the bound on n steps is the bound on n - 1 steps plus step n - 1's weight |
| Perlins.OctavesBounded | include/perlin.h:40-50 | the sum of n octaves stays within B (2 - 2 * 0.5^n) |
| Perlins.ReachBelowTwice | include/perlin.h:46 | the n-step bound never exceeds twice the interpolator's bound |
| Perlins.TurbulenceBelowTwice | include/perlin.h:40-50 | turbulence never exceeds twice the interpolator's bound, at any depth |
| Perlins.Perlin.constructor | include/perlin.h:11-18 | a new Perlin holds the given vectors and three tables, each a permutation of 0..255 |
| Perlins.Perlin.Noise | include/perlin.h:21-39 | Noise returns the interpolation of the eight hashed corner vectors of the point's cell |
| Perlins.Perlin.CornerVector | include/perlin.h:33-36 | the corner lookup reads the vector at the hashed index of the three wrapped coordinates |
| Perlins.Perlin.Turbulence | include/perlin.h:40-50 | the loop runs `depth` steps with weight 0.5^k and point scaled by 2^k, and returns the absolute value of the sum, so the result is non-negative |
| Perlins.OctaveStep | include/perlin.h:45-47 | one loop step adds exactly the next octave to the accumulated sum |
| Images.FloatToByteBucket | source/image.h:75-81 | inside (0, 1), the byte is the index of the 1/256-wide bucket holding the value |
| Images.FloatToByteMonotone | source/image.h:75-81 | a larger value never converts to a smaller byte |
| Images.ToBytes | source/image.h:51-52 | the byte buffer has one byte per float, each the conversion of the float at the same position |
| Images.SizeNeedsData | source/image.h:62-63 | Width and Height are 0 while no floats are loaded and positive while they are |
| Images.ClampIndex | source/image.h:58-59 | the clamped index lies in [0, n - 1]; it is the identity inside and the nearest end outside |
| Images.PixelData | source/image.h:55-61 | PixelData returns the magenta sentinel exactly when there is no buffer; otherwise its three bytes lie inside the buffer |
| Images.Pixel | source/image.h:55-61 | a pixel read is always three bytes |
| Images.OffsetInBuffer | source/image.h:60 | with scanline = 3 W, a clamped pixel's offset and its two following bytes lie inside the W H 3 byte buffer |
| Images.PixelsApart | source/image.h:45-60 | pixel (x, y) starts at 3 (y W + x), and two different pixels never share a byte |
| Images.PixelAt | source/image.h:58-60 | inside the image the clamps are the identity |
| Images.RowMajor | source/image.h:45 | scanline * y + 3 x equals 3 (y W + x) |
| Images.RowsApart | source/image.h:60 | a pixel of an earlier row ends before any pixel of a later row |
| Images.Convert | source/image.h:47-52 | the conversion loop fills a fresh buffer with the byte of every float, in order |
| Images.Image.constructor | source/image.h:22 | a new image has no data and every size 0 |
| Images.Image.Load | source/image.h:41-54 | Load succeeds exactly when decoding does; a failure clears the floats and keeps the buffer and the sizes; a success stores the floats and the size, sets the scanline to 3 W, and fills a fresh buffer with the converted bytes |
| Textures.MakeChecker | include/texture.h:37-38 | the checker stores scale_inv with scale_inv * scale = 1, and its children as given |
| Textures.MakeColourChecker | include/texture.h:39-40 | the colour checker has two solid children of the given colours |
| Textures.Lookup | include/texture.h:68-71 | the pixel ImageTexture reads is inside the image |
| Textures.ScaledIndex | include/texture.h:70-71 | a fraction in [0, 1] of the last index truncates to an index, 0 at 0 and the last index at 1 |
| Textures.SolidIgnoresInputs | include/texture.h:27 | a solid colour returns its albedo whatever u, v and p are |
| Textures.CheckerParity | include/texture.h:43-49 | the checker returns its even child's value unchanged exactly when the sum of the truncated scaled coordinates is even, negative sums included, and otherwise its odd child's |
| Textures.ImageValueIsPixel | include/texture.h:72-77 | with data, each component is the looked-up byte / 255, so the colour lies in the unit cube |
| Textures.ImageWithoutData | include/texture.h:66 | without data, the image texture is cyan (0, 1, 1) |
| Textures.LookupCorners | include/texture.h:67-71 | u = 0 reads the first column and u = 1 the last; v = 1 reads the first row and v = 0 the last |
| Textures.ValueInUnitCube | include/texture.h:43-49 | a texture built from images and from solid colours in the unit cube always returns a colour in the unit cube |
| Colours.Quantise | include/colour.h:16-19 | each channel quantises to a byte in [0, 255] |
| Colours.QuantiseEnds | include/colour.h:16-19 | a post-gamma value at or below 0 gives 0, and one at or above 1 - EPS_DEUX gives 255 |
| Colours.QuantiseMonotone | include/colour.h:17-19 | the byte never decreases as the post-gamma value grows |
| Colours.QuantiseBucket | include/colour.h:17 | inside the intensity interval, the byte is the index of the 1/256-wide bucket holding the value |
| Colours.Decimal | include/colour.h:21 | an int is written as a non-empty string of decimal digits |
| Colours.DecimalRoundTrip | include/colour.h:21 | reading back the digits written for n gives n |
| Colours.DecimalNoLeadingZero | include/colour.h:21 | only 0 is written with a leading zero |
| Colours.LineRoundTrip | include/colour.h:21 | a pixel line (three numbers, single spaces, a newline) reads back as its three numbers |
| Colours.WriteColourReadsBack | include/colour.h:11-22 | the line WriteColour emits reads back as the three quantised channels |

## Left out

- The BSDF family (`material.h`, `source/material.h`, `include/material.h`, `include/conductor.h`, `include/dielectric.h`): radiometric floating-point formulas and random half-vector sampling.
- The camera, the integrator and the render loop (`camera.h`, `include/camera.h`): OpenMP rendering, recursive Monte Carlo radiance and a stdout stream.
- The scene scripts (`main.cpp`, `source/main.cpp`): random placement and timing.
- The mt19937 generator and the progress bar of `global.h`: random draws are parameters. The function-static quirk of `RandomInt` is modelled.
- `include/transformation.h` and `include/objects.h`: Eigen matrices, a foreign library, and a box builder made from transformed quads.
- Quads.MakeCulledQuad: takes the vertex, the edges and the normal with the transform already applied; `Transform::Apply` itself is not modelled. The transform-taking constructor without a normal (`include/shapes.h:132-143`) is MakeQuad on the transformed vertex and edges.
- `Sphere::CountUV`, `RandomVec3Unit`, `SampleU_Hemisphere`, `ToLocal` / `ToWorld`, `NoiseTexture` and `PerlinInterpolate`: transcendental or random. CountUV, the unit sample and the interpolator are parameters, and the interpolator's range bound is a hypothesis.
- The `Image` constructor's file-name search and the stb_image decode: file I/O and a third-party library. The decoder's result is an input of `Load`. `MaxBytes`, the largest buffer the decoder hands out, bounds the sizes. A failed decode is assumed not to change the stored width and height.
- `Shines` (`source/shapes.cpp`): it delegates to the material, so it is a boolean field of the primitive record.
- Floating-point rounding, signed zeros and overflow: doubles are reals. `1.0 / 0.0` is +inf, and infinities and NaN exist only where interval ends and slab times can hold them.
- Rays.At: the parameter of `operator()` is a `float` in `ray.h`; the model does not narrow t, it is a real.
- Global.TruncBounds: a double outside the `int` range makes `static_cast<int>` undefined; the model truncates every real.
- Textures.CheckerParity: the sum of three truncated ints may overflow in C++; the model adds unbounded integers.
- Textures.MakeChecker: requires a nonzero scale; the source divides by it and then converts an infinite product to int, which is undefined.
- Images.Image.Load: `total_bytes` is a `uint32`; the model reduces the size mod 2^32, and the sizes the decoder hands out keep it exact.
- Quads.MakeQuad: requires a nonzero u × v; the source then normalises a zero vector.
- Quads.MakeCulledQuad: requires a nonzero normal, for the same reason.
- Bvh.SortRange: `std::sort` is modelled as an insertion sort; the result is stated as sorted and a permutation of the range, which is all the source relies on. A null element makes the comparator throw; null pointers are not modelled.
- Bvh.Build: the recursion is over `Prim` values; the shared pointers and the tree's aliasing are not modelled.
- Colours.WriteColourReadsBack: the stream write is modelled as the returned line; the stream itself is not modelled.
- Vectors.CosPhi: `Cosφ² + Sinφ² = 1` is not stated; only the range and the sinθ = 0 case are.
- Vectors.Refract: the clamp on cos_i is modelled, but the absence of total internal reflection for eta > 1 is not stated.
- Vectors.Refract: requires eta != 0; for eta = 0 both copies (include/vector.h:115-124, vector.h:80) divide by zero and yield infinities or NaN, which the model does not represent.
- Vectors.Normalize: requires a vector of positive length; for the zero vector both copies (include/vector.h:56-57, vector.h:45-46) divide 0 by 0 and return NaN components, which the model does not represent.
- Vectors.NormalizeEarly: the same zero-vector restriction as Normalize, for the copy at vector.h:45-46.
- Scenes.Scene.AddObject: uses the padded Union of include/bounds.h for both scene copies; the bounds.h that source/scene.h reaches through source/shapes.h is not part of this model.
- Spheres.Sample: the sample point comes from `RandomVec3Unit`, a parameter; only unit directions are considered in SampleOnSphere.
- Quads.Sample: u and v are parameters; their range [0, 1) is not constrained.

## Findings

| source | as written | input that shows it | evidently intended | confidence | as-written member | corrected member |
|---|---|---|---|---|---|---|
| include/shapes.h:174-180 | `Quad::Intersect` copies the triangle's u and v into the record before checking t against the interval, so a false return can leave u and v changed | the unit square and the ray from (0.25, 0.25, 1) in direction (0, 0, -1) with the interval [2, 3]: the result is false with u = v = 0.25 written | a false return leaves the record untouched, as every other shape does | not executed | Quads.IntersectAsWritten | Quads.Intersect |
| bvhtree.h:57-62 | a node built from an empty range has the Empty box, no core and no children; the slab test passes for such a box, and the traversal then calls `left->Intersect` on a null pointer | the tree of an empty scene, any ray, and any interval with min < max | an empty tree reports no hit | not executed | Bvh.IntersectAsWritten | Bvh.Intersect |
| include/global.h:62-67 | `RandomInt` keeps its distribution in a function-static that the first call constructs, so later calls ignore their own bounds | a first call with (0, 255) followed by a call with (0, 1): the second can return 200 | a draw in [a, b] on every call, so the Perlin shuffle is a Fisher-Yates shuffle | not executed | Perlins.RandomIntAsWritten | Perlins.RandomInt |

- Quads.AsWrittenLeaksUV exhibits the first finding. Quads.AsWrittenOnlyLeaksUV shows that only u and v differ.
- Bvh.AsWrittenFaultsOnEmptyScene exhibits the second finding. Bvh.AsWrittenAgrees shows that the two traversals agree on every tree without an empty node. `Bvh.FromScene` builds such a tree for every non-empty scene.
- Perlins.AsWrittenIgnoresRange exhibits the third finding. Perlins.CorrectedDrawsInTable states the intended range. The table is a permutation either way (Perlins.ShuffledIsPermutation, for any shifts in [0, 255]), but as written it is not a uniform shuffle.

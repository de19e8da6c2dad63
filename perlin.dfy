/** Perlin (include/perlin.h): 256 random unit vectors and three permutation
    tables of 0..255, the hashed lookup of the eight lattice corners around a
    point, and the octave loop of Turbulence. The random vectors, the
    RandomInt draws and the trilinear blend PerlinInterpolate are inputs. */
module Perlins {
  import V = Vectors
  import G = Global
  import opened Bits
  import opened Wrappers

  const PointCount: nat := 256

  // ------------------------------------------------------------ RandomInt

  /** std::uniform_int_distribution<>(a, b): the range it draws from. */
  datatype IntDist = IntDist(a: int, b: int)

  /** One draw from a distribution; `raw` stands for the engine's output. */
  function Pick(d: IntDist, raw: nat): (r: int)
    requires d.a <= d.b
    ensures d.a <= r <= d.b
  {
    d.a + raw % (d.b - d.a + 1)
  }

  /** RandomInt(a, b) as written (include/global.h): the distribution is a
      function-static, so the range of the very first call is kept for every
      later call. `fixed` is that static (None before the first call); the
      result is the draw and the static after the call. */
  function RandomIntAsWritten(fixed: Option<IntDist>, a: int, b: int, raw: nat): (r: (int, IntDist))
    requires fixed.Some? ==> fixed.value.a <= fixed.value.b
    requires fixed.None? ==> a <= b
    ensures fixed.Some? ==> r.1 == fixed.value
    ensures fixed.None? ==> r.1 == IntDist(a, b)
    ensures r.1.a <= r.0 <= r.1.b
  {
    var d := if fixed.Some? then fixed.value else IntDist(a, b);
    (Pick(d, raw), d)
  }

  /** RandomInt(a, b) as its name promises: a draw from [a, b]. */
  function RandomInt(a: int, b: int, raw: nat): (r: int)
    requires a <= b
    ensures a <= r <= b
  {
    Pick(IntDist(a, b), raw)
  }

  /** The first call of GeneratePerlin, RandomInt(0, 255), fixes the static
      to [0, 255] (the ensures of RandomIntAsWritten); a later call
      RandomInt(0, 1) can then return 200. */
  lemma AsWrittenIgnoresRange(d: IntDist, later: (int, IntDist))
    requires d == IntDist(0, 255)
    requires later == RandomIntAsWritten(Some(d), 0, 1, 200)
    ensures later.0 == 200
  {
    PickInside(d, 200);
  }

  /** A raw value inside the width of the range is drawn as the minimum plus
      that value. */
  lemma PickInside(d: IntDist, raw: nat)
    requires d.a <= d.b && raw <= d.b - d.a
    ensures Pick(d, raw) == d.a + raw
  {
    RemainderUnique(raw, d.b - d.a + 1, 0, raw);
  }

  /** Every draw after that first call lies in [0, 255], whatever range is
      asked for: inside the table, although not inside [0, i]. */
  lemma AsWrittenDrawsInTable(i: int, raw: nat)
    ensures var d := RandomIntAsWritten(None, 0, PointCount - 1, 0).1;
      0 <= RandomIntAsWritten(Some(d), 0, i, raw).0 < PointCount
  {
  }

  /** The draws of the corrected RandomInt(0, i) lie in the table too. */
  lemma CorrectedDrawsInTable(i: int, raw: nat)
    requires 0 <= i < PointCount
    ensures 0 <= RandomInt(0, i, raw) <= i < PointCount
  {
  }

  // ------------------------------------------------------------ the shuffle

  /** perlin[i] = i. */
  function Identity(n: nat): (s: seq<int>)
    ensures |s| == n && forall i :: 0 <= i < n ==> s[i] == i
  {
    seq(n, i => i)
  }

  /** The 255 shifts one GeneratePerlin call draws, in order: the k-th is
      the shift for i = 255 - k, and every one is an index of the table. */
  predicate Draws(shifts: seq<int>) {
    |shifts| == PointCount - 1 && forall k :: 0 <= k < |shifts| ==> 0 <= shifts[k] < PointCount
  }

  /** The table after the first k swaps of the second loop. */
  function Shuffled(shifts: seq<int>, k: nat): (s: seq<int>)
    requires Draws(shifts) && k <= |shifts|
    ensures |s| == PointCount
    decreases k
  {
    if k == 0 then Identity(PointCount)
    else
      var t := Shuffled(shifts, k - 1);
      var i := PointCount - k;
      t[i := t[shifts[k - 1]]][shifts[k - 1] := t[i]]
  }

  /** A table holds every value of 0..255 exactly once. */
  predicate IsPermutation(s: seq<int>) {
    multiset(s) == multiset(Identity(PointCount))
  }

  /** GeneratePerlin: fill with the identity, then for i from 255 down to 1
      swap perlin[i] with perlin[shift]. */
  method GeneratePerlin(perlin: array<int>, shifts: seq<int>)
    requires perlin.Length == PointCount && Draws(shifts)
    modifies perlin
    ensures perlin[..] == Shuffled(shifts, |shifts|)
  {
    for i := 0 to PointCount
      invariant forall k :: 0 <= k < i ==> perlin[k] == k
    {
      perlin[i] := i;
    }
    assert perlin[..] == Identity(PointCount);
    var i := PointCount - 1;
    while i > 0
      invariant 0 <= i < PointCount
      invariant perlin[..] == Shuffled(shifts, PointCount - 1 - i)
    {
      var shift := shifts[PointCount - 1 - i];
      var temp := perlin[i];
      perlin[i] := perlin[shift];
      perlin[shift] := temp;
      i := i - 1;
    }
  }

  /** A fresh table filled by GeneratePerlin: a permutation of 0..255. */
  method NewTable(shifts: seq<int>) returns (perlin: array<int>)
    requires Draws(shifts)
    ensures fresh(perlin)
    ensures perlin[..] == Shuffled(shifts, |shifts|)
    ensures IsPermutation(perlin[..]) && Indices(perlin[..])
  {
    perlin := new int[PointCount];
    GeneratePerlin(perlin, shifts);
    ShuffledIsPermutation(shifts, |shifts|);
    PermutationEntries(perlin[..]);
  }

  /** The loop of the constructor that stores the random vectors in order. */
  method CopyVectors(vectors: seq<V.Vector3>) returns (rv: array<V.Vector3>)
    requires |vectors| == PointCount
    ensures fresh(rv) && rv[..] == vectors
  {
    rv := new V.Vector3[PointCount];
    for i := 0 to PointCount
      invariant forall k :: 0 <= k < i ==> rv[k] == vectors[k]
    {
      rv[i] := vectors[i];
    }
  }

  /** Each swap keeps the multiset, so every table is a permutation of
      0..255 for any shifts in [0, 255]. */
  lemma {:induction false} ShuffledIsPermutation(shifts: seq<int>, k: nat)
    requires Draws(shifts) && k <= |shifts|
    ensures IsPermutation(Shuffled(shifts, k))
    decreases k
  {
    if k > 0 {
      ShuffledIsPermutation(shifts, k - 1);
    }
  }

  /** A table of PointCount entries, each an index of the table. */
  predicate Indices(s: seq<int>) {
    |s| == PointCount && forall k :: 0 <= k < |s| ==> 0 <= s[k] < PointCount
  }

  /** The entries of a permutation table are indices of the table. */
  lemma PermutationEntries(s: seq<int>)
    requires IsPermutation(s)
    ensures Indices(s)
  {
    assert |s| == |multiset(s)| == |multiset(Identity(PointCount))| == PointCount;
    forall k | 0 <= k < |s|
      ensures 0 <= s[k] < PointCount
    {
      assert s[k] in multiset(s);
      assert s[k] in Identity(PointCount);
    }
  }

  // ------------------------------------------------------------ hashing

  /** The contents of the four member arrays. */
  datatype Tables = Tables(vectors: seq<V.Vector3>, x: seq<int>, y: seq<int>, z: seq<int>)

  predicate TablesOk(t: Tables) {
    |t.vectors| == PointCount && Indices(t.x) && Indices(t.y) && Indices(t.z)
  }

  /** (n & 255) on an int: an index of the table, n mod 256. */
  function Wrap(n: int): (r: int)
    ensures 0 <= r < PointCount && r == n % 256
  {
    Low8(n);
    And(n, 255, 32)
  }

  /** perlin_x[(i+di) & 255] ^ perlin_y[(j+dj) & 255] ^ perlin_z[(k+dk) & 255]. */
  function Hash(t: Tables, x: int, y: int, z: int): (r: int)
    requires TablesOk(t)
    ensures 0 <= r < PointCount
  {
    var a := t.x[Wrap(x)];
    var b := t.y[Wrap(y)];
    var c := t.z[Wrap(z)];
    XorOfIndices(a, b, c);
    Xor(Xor(a, b, 32), c, 32)
  }

  /** The XOR of three table entries is an index of the table. */
  lemma XorOfIndices(a: int, b: int, c: int)
    requires 0 <= a < PointCount && 0 <= b < PointCount && 0 <= c < PointCount
    ensures 0 <= Xor(Xor(a, b, 32), c, 32) < PointCount
  {
    Pow2Eight();
    XorBelow(a, b, 8, 32);
    XorBelow(Xor(a, b, 32), c, 8, 32);
  }

  /** cube[di][dj][dk], flattened as 4 di + 2 dj + dk. */
  function Cube(t: Tables, i: int, j: int, k: int): (c: seq<V.Vector3>)
    requires TablesOk(t)
    ensures |c| == 8
  {
    seq(8, n requires 0 <= n < 8 => Corner(t, i, j, k, n / 4, (n / 2) % 2, n % 2))
  }

  /** The vector of corner (di, dj, dk) of cell (i, j, k). */
  function Corner(t: Tables, i: int, j: int, k: int, di: int, dj: int, dk: int): V.Vector3
    requires TablesOk(t)
  {
    t.vectors[Hash(t, i + di, j + dj, k + dk)]
  }

  /** The flattened position 4 di + 2 dj + dk names corner (di, dj, dk). */
  lemma CornerPosition(t: Tables, i: int, j: int, k: int, di: int, dj: int, dk: int)
    requires TablesOk(t) && 0 <= di < 2 && 0 <= dj < 2 && 0 <= dk < 2
    ensures Cube(t, i, j, k)[4 * di + 2 * dj + dk] == Corner(t, i, j, k, di, dj, dk)
  {
    var n := 4 * di + 2 * dj + dk;
    assert n / 4 == di && (n / 2) % 2 == dj && n % 2 == dk by {
      if di == 0 && dj == 0 && dk == 0 { assert n == 0; }
      else if di == 0 && dj == 0 { assert n == 1; }
      else if di == 0 && dk == 0 { assert n == 2; }
      else if di == 0 { assert n == 3; }
      else if dj == 0 && dk == 0 { assert n == 4; }
      else if dj == 0 { assert n == 5; }
      else if dk == 0 { assert n == 6; }
      else { assert n == 7; }
    }
  }

  /** The fractional part of a coordinate, point.x - Floor(point.x). */
  function Frac(x: real): (f: real)
    ensures 0.0 <= f < 1.0
  {
    x - x.Floor as real
  }

  /** PerlinInterpolate(cube, u, v, w), which is not part of this model. */
  type Interpolator = (seq<V.Vector3>, real, real, real) -> real

  /** Noise(point). */
  function NoiseAt(t: Tables, blend: Interpolator, p: V.Vector3): real
    requires TablesOk(t)
  {
    blend(Cube(t, p.x.Floor, p.y.Floor, p.z.Floor), Frac(p.x), Frac(p.y), Frac(p.z))
  }

  // ------------------------------------------------------------ turbulence

  function Pow(b: real, n: nat): real
    decreases n
  {
    if n == 0 then 1.0 else Pow(b, n - 1) * b
  }

  /** Step k of the octave loop adds 0.5^k times the noise at the point
      scaled by 2^k. */
  function Term(t: Tables, blend: Interpolator, p: V.Vector3, k: nat): real
    requires TablesOk(t)
  {
    Pow(0.5, k) * NoiseAt(t, blend, V.Scale(p, Pow(2.0, k)))
  }

  /** The sum the octave loop accumulates over its first n steps. */
  function Octaves(t: Tables, blend: Interpolator, p: V.Vector3, n: nat): real
    requires TablesOk(t)
    decreases n
  {
    if n == 0 then 0.0 else Octaves(t, blend, p, n - 1) + Term(t, blend, p, n - 1)
  }

  lemma {:induction false} PowPositive(b: real, n: nat)
    requires b > 0.0
    ensures Pow(b, n) > 0.0
    decreases n
  {
    if n > 0 {
      PowPositive(b, n - 1);
      assert Pow(b, n - 1) * b > 0.0 * b;
    }
  }

  /** The blend never leaves [-B, B]. */
  ghost predicate BlendWithin(blend: Interpolator, bound: real) {
    forall c: seq<V.Vector3>, u: real, v: real, w: real :: -bound <= blend(c, u, v, w) <= bound
  }

  /** B 0.5^k, the bound on step k. */
  function Weight(bound: real, k: nat): real {
    Pow(0.5, k) * bound
  }

  /** B (2 - 2 * 0.5^n), the bound on the first n steps together. */
  function Reach(bound: real, n: nat): real {
    bound * (2.0 - 2.0 * Pow(0.5, n))
  }

  /** Step k stays within B 0.5^k. */
  lemma TermWithin(t: Tables, blend: Interpolator, p: V.Vector3, k: nat, bound: real)
    requires TablesOk(t) && BlendWithin(blend, bound)
    ensures -Weight(bound, k) <= Term(t, blend, p, k) <= Weight(bound, k)
  {
    var w := Pow(0.5, k);
    var x := NoiseAt(t, blend, V.Scale(p, Pow(2.0, k)));
    assert -bound <= x <= bound;
    PowPositive(0.5, k);
    assert w * (bound - x) >= 0.0;
    assert w * (x + bound) >= 0.0;
  }

  /** One more step widens the bound by exactly the step's weight. */
  lemma ReachStep(bound: real, n: nat)
    requires n > 0
    ensures Reach(bound, n) == Reach(bound, n - 1) + Weight(bound, n - 1)
  {
    var w := Pow(0.5, n - 1);
    assert Pow(0.5, n) == w * 0.5;
    assert bound * (2.0 - 2.0 * (w * 0.5)) == bound * (2.0 - 2.0 * w) + w * bound;
  }

  /** With a blend bounded by B, the octave sum stays within
      B (2 - 2 * 0.5^n). */
  lemma {:induction false} OctavesBounded(t: Tables, blend: Interpolator, p: V.Vector3, n: nat, bound: real)
    requires TablesOk(t) && BlendWithin(blend, bound)
    ensures -Reach(bound, n) <= Octaves(t, blend, p, n) <= Reach(bound, n)
    decreases n
  {
    if n > 0 {
      OctavesBounded(t, blend, p, n - 1, bound);
      TermWithin(t, blend, p, n - 1, bound);
      ReachStep(bound, n);
    }
  }

  lemma WeightNonNegative(bound: real, k: nat)
    requires bound >= 0.0
    ensures Weight(bound, k) >= 0.0
  {
    PowPositive(0.5, k);
    assert Pow(0.5, k) * bound >= 0.0;
  }

  /** The bound stays within [0, 2 B] however many octaves are summed. */
  lemma {:induction false} ReachBelowTwice(bound: real, n: nat)
    requires bound >= 0.0
    ensures 0.0 <= Reach(bound, n) <= 2.0 * bound
    decreases n
  {
    WeightNonNegative(bound, n);
    assert Reach(bound, n) == 2.0 * bound - 2.0 * Weight(bound, n);
    if n > 0 {
      ReachBelowTwice(bound, n - 1);
      ReachStep(bound, n);
      WeightNonNegative(bound, n - 1);
    }
  }

  /** Turbulence with a blend bounded by B never exceeds 2 B, whatever the
      depth. */
  lemma TurbulenceBelowTwice(t: Tables, blend: Interpolator, p: V.Vector3, n: nat, bound: real)
    requires TablesOk(t) && BlendWithin(blend, bound) && bound >= 0.0
    ensures G.Abs(Octaves(t, blend, p, n)) <= 2.0 * bound
  {
    OctavesBounded(t, blend, p, n, bound);
    ReachBelowTwice(bound, n);
  }

  // ------------------------------------------------------------ the class

  class Perlin {
    const randVectors: array<V.Vector3>
    const perlinX: array<int>
    const perlinY: array<int>
    const perlinZ: array<int>

    function Contents(): Tables
      reads this, randVectors, perlinX, perlinY, perlinZ
    {
      Tables(randVectors[..], perlinX[..], perlinY[..], perlinZ[..])
    }

    ghost predicate Valid()
      reads this, randVectors, perlinX, perlinY, perlinZ
    {
      TablesOk(Contents())
    }

    /** Perlin(): the vectors in order, then the x, y and z tables, each from
        its own 255 draws. */
    constructor (vectors: seq<V.Vector3>, sx: seq<int>, sy: seq<int>, sz: seq<int>)
      requires |vectors| == PointCount && Draws(sx) && Draws(sy) && Draws(sz)
      ensures Valid()
      ensures IsPermutation(perlinX[..]) && IsPermutation(perlinY[..]) && IsPermutation(perlinZ[..])
      ensures Contents() == Tables(vectors, Shuffled(sx, |sx|), Shuffled(sy, |sy|), Shuffled(sz, |sz|))
    {
      var rv := CopyVectors(vectors);
      var px := NewTable(sx);
      var py := NewTable(sy);
      var pz := NewTable(sz);
      randVectors, perlinX, perlinY, perlinZ := rv, px, py, pz;
    }

    /** Noise(point): the eight corner vectors, looked up through the hashed
        tables, go to the blend with the fractional coordinates. */
    method Noise(point: V.Vector3, blend: Interpolator) returns (r: real)
      requires Valid()
      ensures r == NoiseAt(Contents(), blend, point)
    {
      var u := point.x - point.x.Floor as real;
      var v := point.y - point.y.Floor as real;
      var w := point.z - point.z.Floor as real;
      var i := point.x.Floor;
      var j := point.y.Floor;
      var k := point.z.Floor;
      ghost var t := Contents();
      ghost var c := Cube(t, i, j, k);
      var cube: seq<V.Vector3> := [];
      for di := 0 to 2
        invariant |cube| == 4 * di && cube == c[..|cube|]
      {
        for dj := 0 to 2
          invariant |cube| == 4 * di + 2 * dj && cube == c[..|cube|]
        {
          for dk := 0 to 2
            invariant |cube| == 4 * di + 2 * dj + dk && cube == c[..|cube|]
          {
            var corner := CornerVector(i, j, k, di, dj, dk);
            CornerPosition(t, i, j, k, di, dj, dk);
            Extend(c, cube, corner);
            cube := cube + [corner];
          }
        }
      }
      assert cube == c;
      r := blend(cube, u, v, w);
    }

    /** The random vector at the hashed corner (x, y, z). */
    method CornerVector(i: int, j: int, k: int, di: int, dj: int, dk: int) returns (corner: V.Vector3)
      requires Valid()
      ensures corner == Corner(Contents(), i, j, k, di, dj, dk)
    {
      ghost var t := Contents();
      assert perlinX.Length == PointCount && perlinY.Length == PointCount && perlinZ.Length == PointCount;
      var h := Xor(Xor(perlinX[Wrap(i + di)], perlinY[Wrap(j + dj)], 32), perlinZ[Wrap(k + dk)], 32);
      assert h == Hash(t, i + di, j + dj, k + dk);
      corner := randVectors[h];
    }

    /** Turbulence(point, depth): `depth` steps, the weight halving and the
        point doubling at each, and the absolute value of the sum. */
    method Turbulence(point: V.Vector3, depth: int, blend: Interpolator) returns (r: real)
      requires Valid()
      ensures r == G.Abs(Octaves(Contents(), blend, point, if depth < 0 then 0 else depth))
      ensures r >= 0.0
    {
      var accum := 0.0;
      var temp := point;
      var weight := 1.0;
      var i := 0;
      while i < depth
        invariant 0 <= i && (depth >= 0 ==> i <= depth) && (depth < 0 ==> i == 0)
        invariant weight == Pow(0.5, i) && temp == V.Scale(point, Pow(2.0, i))
        invariant accum == Octaves(Contents(), blend, point, i)
      {
        var n := Noise(temp, blend);
        OctaveStep(Contents(), blend, point, i, weight, temp, accum, n);
        accum := accum + weight * n;
        weight := weight * 0.5;
        ScaleTwice(point, Pow(2.0, i), 2.0);
        temp := V.Scale(temp, 2.0);
        i := i + 1;
      }
      r := G.Abs(accum);
    }
  }

  /** Appending the next element of c to a prefix of c gives the next prefix. */
  lemma Extend<T>(c: seq<T>, prefix: seq<T>, x: T)
    requires |prefix| < |c| && prefix == c[..|prefix|] && x == c[|prefix|]
    ensures prefix + [x] == c[..|prefix| + 1]
  {
  }

  /** One step of the octave loop adds the next term of the sum. */
  lemma OctaveStep(t: Tables, blend: Interpolator, p: V.Vector3, i: nat, weight: real, temp: V.Vector3,
                   accum: real, n: real)
    requires TablesOk(t)
    requires weight == Pow(0.5, i) && temp == V.Scale(p, Pow(2.0, i))
    requires accum == Octaves(t, blend, p, i) && n == NoiseAt(t, blend, temp)
    ensures accum + weight * n == Octaves(t, blend, p, i + 1)
  {
  }

  lemma ScaleTwice(v: V.Vector3, a: real, b: real)
    ensures V.Scale(V.Scale(v, a), b) == V.Scale(v, a * b)
  {
    assert v.x * a * b == v.x * (a * b);
    assert v.y * a * b == v.y * (a * b);
    assert v.z * a * b == v.z * (a * b);
  }
}

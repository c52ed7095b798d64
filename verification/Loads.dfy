/** Combining the end effector and the load into one rigid body, as
    tools/model-reference/main.cpp does. Doubles are reals here. */
module Loads {
  import opened Geometry

  // ---------------------------------------------------------------------------------------
  // Three by three matrices
  // ---------------------------------------------------------------------------------------

  datatype Matrix = Matrix(
    xx: real, xy: real, xz: real,
    yx: real, yy: real, yz: real,
    zx: real, zy: real, zz: real)

  const ZERO := Matrix(0.0, 0.0, 0.0, 0.0, 0.0, 0.0, 0.0, 0.0, 0.0)

  const ORIGIN := Vec(0.0, 0.0, 0.0)

  function Add(a: Matrix, b: Matrix): Matrix {
    Matrix(a.xx + b.xx, a.xy + b.xy, a.xz + b.xz,
           a.yx + b.yx, a.yy + b.yy, a.yz + b.yz,
           a.zx + b.zx, a.zy + b.zy, a.zz + b.zz)
  }

  function Subtract(a: Matrix, b: Matrix): Matrix {
    Matrix(a.xx - b.xx, a.xy - b.xy, a.xz - b.xz,
           a.yx - b.yx, a.yy - b.yy, a.yz - b.yz,
           a.zx - b.zx, a.zy - b.zy, a.zz - b.zz)
  }

  function Times(k: real, a: Matrix): Matrix {
    Matrix(Product(k, a.xx), Product(k, a.xy), Product(k, a.xz),
           Product(k, a.yx), Product(k, a.yy), Product(k, a.yz),
           Product(k, a.zx), Product(k, a.zy), Product(k, a.zz))
  }

  function Multiply(a: Matrix, b: Matrix): Matrix {
    Matrix(a.xx * b.xx + a.xy * b.yx + a.xz * b.zx, a.xx * b.xy + a.xy * b.yy + a.xz * b.zy,
           a.xx * b.xz + a.xy * b.yz + a.xz * b.zz,
           a.yx * b.xx + a.yy * b.yx + a.yz * b.zx, a.yx * b.xy + a.yy * b.yy + a.yz * b.zy,
           a.yx * b.xz + a.yy * b.yz + a.yz * b.zz,
           a.zx * b.xx + a.zy * b.yx + a.zz * b.zx, a.zx * b.xy + a.zy * b.yy + a.zz * b.zy,
           a.zx * b.xz + a.zy * b.yz + a.zz * b.zz)
  }

  predicate Symmetric(a: Matrix) {
    a.xy == a.yx && a.xz == a.zx && a.yz == a.zy
  }

  function Row(p: real, q: real, r: real, v: Vec): real {
    Product(p, v.x) + Product(q, v.y) + Product(r, v.z)
  }

  function Apply(a: Matrix, v: Vec): Vec {
    Vec(Row(a.xx, a.xy, a.xz, v), Row(a.yx, a.yy, a.yz, v), Row(a.zx, a.zy, a.zz, v))
  }

  // ---------------------------------------------------------------------------------------
  // The code
  // ---------------------------------------------------------------------------------------

  function Skew(v: Vec): Matrix {
    Matrix(0.0, -v.z, v.y, v.z, 0.0, -v.x, -v.y, v.x, 0.0)
  }

  function SkewSquared(v: Vec): Matrix {
    Multiply(Skew(v), Skew(v))
  }

  /** A mass, its centre of mass in the flange frame, and its inertia about that centre. */
  datatype Body = Body(mass: real, center: Vec, inertia: Matrix)

  function At(v: Vec, i: nat): real
    requires i < 3
  {
    if i == 0 then v.x else if i == 1 then v.y else v.z
  }

  function Weighted(ma: real, a: real, mb: real, b: real): real
    requires 0.0 < ma + mb
  {
    (ma * a + mb * b) / (ma + mb)
  }

  function CenterOf(a: Body, b: Body): Vec {
    if a.mass + b.mass <= 0.0 then ORIGIN
    else Vec(Weighted(a.mass, a.center.x, b.mass, b.center.x),
             Weighted(a.mass, a.center.y, b.mass, b.center.y),
             Weighted(a.mass, a.center.z, b.mass, b.center.z))
  }

  method CombineCenterOfMass(a: Body, b: Body) returns (total: Vec)
    ensures total == CenterOf(a, b)
  {
    hide Weighted;
    var out := new real[3](_ => 0.0);
    if a.mass + b.mass > 0.0 {
      for i := 0 to 3
        invariant forall j | 0 <= j < i :: out[j] == Weighted(a.mass, At(a.center, j), b.mass, At(b.center, j))
      {
        out[i] := Weighted(a.mass, At(a.center, i), b.mass, At(b.center, i));
      }
      assert out[0] == Weighted(a.mass, At(a.center, 0), b.mass, At(b.center, 0));
      assert out[1] == Weighted(a.mass, At(a.center, 1), b.mass, At(b.center, 1));
    }
    total := Vec(out[0], out[1], out[2]);
  }

  /** A massless body's inertia is ignored. */
  function Effective(b: Body): Matrix {
    if b.mass == 0.0 then ZERO else b.inertia
  }

  /** The inertia about the flange. */
  function AtFlange(b: Body): Matrix {
    Subtract(Effective(b), Times(b.mass, SkewSquared(b.center)))
  }

  function CombineInertiaTensor(a: Body, b: Body, total: real, center: Vec): Matrix {
    if total == 0.0 then ZERO
    else Add(Add(AtFlange(a), AtFlange(b)), Times(total, SkewSquared(center)))
  }

  function Combined(a: Body, b: Body): Body {
    Body(a.mass + b.mass, CenterOf(a, b), CombineInertiaTensor(a, b, a.mass + b.mass, CenterOf(a, b)))
  }

  class LoadConfig {
    var ee: Body
    var load: Body
    var total: Body

    constructor (ee: Body, load: Body)
      ensures this.ee == ee && this.load == load
    {
      this.ee, this.load := ee, load;
    }

    method DeriveTotals()
      modifies this`total
      ensures total == Combined(ee, load)
    {
      hide CombineInertiaTensor, CenterOf;
      var mass := ee.mass + load.mass;
      var center := CombineCenterOfMass(ee, load);
      total := Body(mass, center, CombineInertiaTensor(ee, load, mass, center));
    }
  }

  // ---------------------------------------------------------------------------------------
  // What a body is at the flange: mass, first moment and inertia. Combining adds them.
  // ---------------------------------------------------------------------------------------

  datatype Moments = Moments(mass: real, first: Vec, inertia: Matrix)

  function MomentsOf(b: Body): Moments {
    Moments(b.mass, Scale(b.mass, b.center), AtFlange(b))
  }

  function Sum(a: Moments, b: Moments): Moments {
    Moments(a.mass + b.mass, Plus(a.first, b.first), Add(a.inertia, b.inertia))
  }

  /** A massless body is the zero body. */
  predicate Canonical(b: Body) {
    b.mass == 0.0 ==> b.center == ORIGIN && b.inertia == ZERO
  }

  lemma WeightedMoment(ma: real, a: real, mb: real, b: real)
    requires 0.0 < ma + mb
    ensures Product(ma + mb, Weighted(ma, a, mb, b)) == Product(ma, a) + Product(mb, b)
  {
  }

  lemma ScaledByZero(m: real, v: Vec)
    requires m == 0.0
    ensures Scale(m, v) == ORIGIN
  {
  }

  lemma FirstMomentsAdd(a: Body, b: Body)
    requires 0.0 <= a.mass && 0.0 <= b.mass
    ensures Scale(a.mass + b.mass, CenterOf(a, b)) == Plus(Scale(a.mass, a.center), Scale(b.mass, b.center))
  {
    hide Scale, CenterOf;
    if 0.0 < a.mass + b.mass {
      WeightedMoments(a, b);
    } else {
      NoMoment(a, b);
    }
  }

  lemma WeightedMoments(a: Body, b: Body)
    requires 0.0 < a.mass + b.mass
    ensures Scale(a.mass + b.mass, CenterOf(a, b)) == Plus(Scale(a.mass, a.center), Scale(b.mass, b.center))
  {
    hide Weighted, Product;
    WeightedMoment(a.mass, a.center.x, b.mass, b.center.x);
    WeightedMoment(a.mass, a.center.y, b.mass, b.center.y);
    WeightedMoment(a.mass, a.center.z, b.mass, b.center.z);
  }

  lemma NoCenter(a: Body, b: Body)
    requires a.mass == 0.0 && b.mass == 0.0
    ensures CenterOf(a, b) == ORIGIN
  {
    hide Weighted;
  }

  lemma NoMoment(a: Body, b: Body)
    requires a.mass == 0.0 && b.mass == 0.0
    ensures Scale(a.mass + b.mass, CenterOf(a, b)) == Plus(Scale(a.mass, a.center), Scale(b.mass, b.center))
  {
    hide Scale, CenterOf;
    NoCenter(a, b);
    ScaledByZero(a.mass, a.center);
    ScaledByZero(b.mass, b.center);
    ScaledByZero(a.mass + b.mass, ORIGIN);
  }

  lemma NothingAtFlange(b: Body)
    requires b.mass == 0.0
    ensures AtFlange(b) == ZERO
  {
    hide SkewSquared;
  }

  lemma TakenBack(a: Matrix, b: Matrix)
    ensures Subtract(Add(a, b), b) == a && Add(Subtract(a, b), b) == a
  {
  }

  /** Combining adds mass, first moment and inertia at the flange. */
  lemma CombiningAdds(a: Body, b: Body)
    requires 0.0 <= a.mass && 0.0 <= b.mass
    ensures MomentsOf(Combined(a, b)) == Sum(MomentsOf(a), MomentsOf(b)) && Canonical(Combined(a, b))
  {
    hide AtFlange, Scale;
    FirstMomentsAdd(a, b);
    InertiasAdd(a, b);
  }

  lemma InertiasAdd(a: Body, b: Body)
    requires 0.0 <= a.mass && 0.0 <= b.mass
    ensures AtFlange(Combined(a, b)) == Add(AtFlange(a), AtFlange(b))
  {
    hide SkewSquared, Times, Subtract, CenterOf;
    if a.mass + b.mass == 0.0 {
      NothingAtFlange(a);
      NothingAtFlange(b);
      NothingAtFlange(Combined(a, b));
    } else {
      hide AtFlange;
      TakeBack(a, b, a.mass + b.mass, CenterOf(a, b));
    }
  }

  lemma TakeBack(a: Body, b: Body, total: real, center: Vec)
    requires total != 0.0
    ensures AtFlange(Body(total, center, CombineInertiaTensor(a, b, total, center))) == Add(AtFlange(a), AtFlange(b))
  {
    hide SkewSquared, Times;
    var fa, fb := AtFlange(a), AtFlange(b);
    assert CombineInertiaTensor(a, b, total, center) == Add(Add(fa, fb), Times(total, SkewSquared(center)));
    TakenBack(Add(fa, fb), Times(total, SkewSquared(center)));
  }

  lemma ProductCancels(m: real, x: real, y: real)
    requires 0.0 < m && Product(m, x) == Product(m, y)
    ensures x == y
  {
    assert Product(m, x) / m == x && Product(m, y) / m == y;
  }

  /** The moments at the flange determine the body. */
  lemma MomentsDetermine(a: Body, b: Body)
    requires 0.0 <= a.mass && Canonical(a) && Canonical(b) && MomentsOf(a) == MomentsOf(b)
    ensures a == b
  {
    hide SkewSquared, Times, Product, Add, Subtract;
    if 0.0 < a.mass {
      ProductCancels(a.mass, a.center.x, b.center.x);
      ProductCancels(a.mass, a.center.y, b.center.y);
      ProductCancels(a.mass, a.center.z, b.center.z);
      TakenBack(a.inertia, Times(a.mass, SkewSquared(a.center)));
      TakenBack(b.inertia, Times(b.mass, SkewSquared(b.center)));
    }
  }

  lemma SumIsAssociative(a: Moments, b: Moments, c: Moments)
    ensures Sum(Sum(a, b), c) == Sum(a, Sum(b, c))
  {
  }

  lemma CombiningCommutes(a: Body, b: Body)
    ensures Combined(a, b) == Combined(b, a)
  {
    hide AtFlange, Times, SkewSquared;
  }

  lemma CombiningIsAssociative(a: Body, b: Body, c: Body)
    requires 0.0 <= a.mass && 0.0 <= b.mass && 0.0 <= c.mass
    ensures Combined(Combined(a, b), c) == Combined(a, Combined(b, c))
  {
    hide MomentsOf, Sum, CenterOf, CombineInertiaTensor, Canonical;
    CombiningAdds(a, b);
    CombiningAdds(b, c);
    CombiningAdds(Combined(a, b), c);
    CombiningAdds(a, Combined(b, c));
    SumIsAssociative(MomentsOf(a), MomentsOf(b), MomentsOf(c));
    MomentsDetermine(Combined(Combined(a, b), c), Combined(a, Combined(b, c)));
  }

  lemma NoMoments(b: Body)
    requires b.mass == 0.0
    ensures MomentsOf(b) == Moments(0.0, ORIGIN, ZERO)
  {
    hide SkewSquared;
  }

  lemma SumWithNothing(a: Moments)
    ensures Sum(a, Moments(0.0, ORIGIN, ZERO)) == a
  {
  }

  /** A massless load changes nothing, whatever centre and inertia it claims. */
  lemma MasslessIsNeutral(a: Body, load: Body)
    requires 0.0 <= a.mass && Canonical(a) && load.mass == 0.0
    ensures Combined(a, load) == a
  {
    hide MomentsOf, Sum, CenterOf, CombineInertiaTensor;
    CombiningAdds(a, load);
    NoMoments(load);
    SumWithNothing(MomentsOf(a));
    MomentsDetermine(Combined(a, load), a);
  }

  // ---------------------------------------------------------------------------------------
  // The parallel axis form
  // ---------------------------------------------------------------------------------------

  /** |d|^2 E - d d^T */
  function Spread(d: Vec): Matrix {
    Matrix(Product(d.y, d.y) + Product(d.z, d.z), -Product(d.x, d.y), -Product(d.x, d.z),
           -Product(d.y, d.x), Product(d.x, d.x) + Product(d.z, d.z), -Product(d.y, d.z),
           -Product(d.z, d.x), -Product(d.z, d.y), Product(d.x, d.x) + Product(d.y, d.y))
  }

  lemma SkewSquaredIsSpread(v: Vec)
    ensures SkewSquared(v) == Times(-1.0, Spread(v))
  {
    SkewSquaredEntries(v);
    forall x: real ensures Product(-1.0, x) == -x {
    }
    hide SkewSquared, Product;
  }

  lemma SkewSquaredEntries(v: Vec)
    ensures SkewSquared(v) == Matrix(
      -Product(v.y, v.y) - Product(v.z, v.z), Product(v.x, v.y), Product(v.x, v.z),
      Product(v.y, v.x), -Product(v.x, v.x) - Product(v.z, v.z), Product(v.y, v.z),
      Product(v.z, v.x), Product(v.z, v.y), -Product(v.x, v.x) - Product(v.y, v.y))
  {
  }

  /** What two point masses' second moment has over that of their sum at the common centre. */
  lemma SecondMoment(ma: real, ai: real, aj: real, mb: real, bi: real, bj: real)
    requires 0.0 < ma + mb
    ensures ma * (ai * aj) + mb * (bi * bj) - (ma + mb) * (Weighted(ma, ai, mb, bi) * Weighted(ma, aj, mb, bj))
         == ma * mb / (ma + mb) * ((ai - bi) * (aj - bj))
  {
    var m := ma + mb;
    var si, sj := ma * ai + mb * bi, ma * aj + mb * bj;
    var ci, cj := Weighted(ma, ai, mb, bi), Weighted(ma, aj, mb, bj);
    SecondMomentTimesMass(ma, ai, aj, mb, bi, bj);
    assert m * ci == si && m * cj == sj;
    assert (m * ci) * (m * cj) == m * (m * (ci * cj));
  }

  lemma SecondMomentTimesMass(ma: real, ai: real, aj: real, mb: real, bi: real, bj: real)
    ensures (ma + mb) * (ma * (ai * aj) + mb * (bi * bj)) - (ma * ai + mb * bi) * (ma * aj + mb * bj)
         == ma * mb * ((ai - bi) * (aj - bj))
  {
  }

  /** m i j */
  function Second(m: real, i: real, j: real): real {
    m * (i * j)
  }

  lemma SecondSums(m: real, i: real, j: real, k: real, l: real)
    ensures Product(m, Product(i, j) + Product(k, l)) == Second(m, i, j) + Second(m, k, l)
    ensures Product(m, -Product(i, j)) == -Second(m, i, j) == Product(m, -Product(j, i))
  {
  }

  lemma SpreadOfMass(m: real, v: Vec)
    ensures Times(m, Spread(v)) == Matrix(
      Second(m, v.y, v.y) + Second(m, v.z, v.z), -Second(m, v.x, v.y), -Second(m, v.x, v.z),
      -Second(m, v.x, v.y), Second(m, v.x, v.x) + Second(m, v.z, v.z), -Second(m, v.y, v.z),
      -Second(m, v.x, v.z), -Second(m, v.y, v.z), Second(m, v.x, v.x) + Second(m, v.y, v.y))
  {
    hide Product, Second;
    SecondSums(m, v.y, v.y, v.z, v.z);
    SecondSums(m, v.x, v.x, v.z, v.z);
    SecondSums(m, v.x, v.x, v.y, v.y);
    SecondSums(m, v.x, v.y, 0.0, 0.0);
    SecondSums(m, v.x, v.z, 0.0, 0.0);
    SecondSums(m, v.y, v.z, 0.0, 0.0);
  }

  function Reduced(ma: real, mb: real): real
    requires 0.0 < ma + mb
  {
    ma * mb / (ma + mb)
  }

  /** `SecondMoment` along two axes. */
  lemma AlongAxes(ma: real, ai: real, aj: real, mb: real, bi: real, bj: real)
    requires 0.0 < ma + mb
    ensures Second(ma, ai, aj) + Second(mb, bi, bj)
            - Second(ma + mb, Weighted(ma, ai, mb, bi), Weighted(ma, aj, mb, bj))
         == Second(Reduced(ma, mb), ai - bi, aj - bj)
  {
    SecondMoment(ma, ai, aj, mb, bi, bj);
  }

  lemma SpreadsCombine(a: Body, b: Body)
    requires 0.0 < a.mass + b.mass
    ensures Subtract(Add(Times(a.mass, Spread(a.center)), Times(b.mass, Spread(b.center))),
                     Times(a.mass + b.mass, Spread(CenterOf(a, b))))
         == Times(Reduced(a.mass, b.mass), Spread(Minus(a.center, b.center)))
  {
    hide Times, Spread, Second, Weighted, Reduced;
    var p, q, ma, mb := a.center, b.center, a.mass, b.mass;
    SpreadOfMass(ma, p);
    SpreadOfMass(mb, q);
    SpreadOfMass(ma + mb, CenterOf(a, b));
    SpreadOfMass(Reduced(ma, mb), Minus(p, q));
    AlongAxes(ma, p.x, p.x, mb, q.x, q.x);
    AlongAxes(ma, p.y, p.y, mb, q.y, q.y);
    AlongAxes(ma, p.z, p.z, mb, q.z, q.z);
    AlongAxes(ma, p.x, p.y, mb, q.x, q.y);
    AlongAxes(ma, p.x, p.z, mb, q.x, q.z);
    AlongAxes(ma, p.y, p.z, mb, q.y, q.z);
  }

  lemma NegatedScale(m: real, s: Matrix, t: Matrix)
    requires s == Times(-1.0, t)
    ensures Times(m, s) == Times(-1.0, Times(m, t))
  {
    forall x: real ensures Product(m, Product(-1.0, x)) == Product(-1.0, Product(m, x)) {
      NegatedProduct(m, x);
    }
    hide Product;
  }

  lemma NegatedProduct(m: real, x: real)
    ensures Product(m, Product(-1.0, x)) == Product(-1.0, Product(m, x))
  {
  }

  lemma NegatedMassTerm(m: real, v: Vec, a: Matrix)
    ensures Subtract(a, Times(m, SkewSquared(v))) == Add(a, Times(m, Spread(v)))
    ensures Add(a, Times(m, SkewSquared(v))) == Subtract(a, Times(m, Spread(v)))
  {
    hide SkewSquared, Spread;
    SkewSquaredIsSpread(v);
    NegatedScale(m, SkewSquared(v), Spread(v));
  }

  lemma Regrouped(ea: Matrix, fa: Matrix, eb: Matrix, fb: Matrix, t: Matrix)
    ensures Subtract(Add(Add(ea, fa), Add(eb, fb)), t) == Add(Add(ea, eb), Subtract(Add(fa, fb), t))
  {
  }

  /** The combined inertia is the sum of the two and of the reduced mass spread over the distance
      between the two centres. */
  lemma ParallelAxis(a: Body, b: Body)
    requires 0.0 <= a.mass && 0.0 <= b.mass && 0.0 < a.mass + b.mass
    ensures Combined(a, b).inertia
         == Add(Add(Effective(a), Effective(b)), Times(Reduced(a.mass, b.mass), Spread(Minus(a.center, b.center))))
  {
    hide SkewSquared, Spread, Times, Reduced, CenterOf, Effective, Add, Subtract;
    var total, center := a.mass + b.mass, CenterOf(a, b);
    NegatedMassTerm(a.mass, a.center, Effective(a));
    NegatedMassTerm(b.mass, b.center, Effective(b));
    NegatedMassTerm(total, center, Add(AtFlange(a), AtFlange(b)));
    Regrouped(Effective(a), Times(a.mass, Spread(a.center)), Effective(b), Times(b.mass, Spread(b.center)),
              Times(total, Spread(center)));
    SpreadsCombine(a, b);
  }

  /** Symmetric inertias combine to a symmetric one. */
  lemma SymmetryIsKept(a: Body, b: Body)
    requires Symmetric(a.inertia) && Symmetric(b.inertia)
    ensures Symmetric(Combined(a, b).inertia)
  {
    hide CenterOf;
    SkewSquareIsSymmetric(a.mass, a.center);
    SkewSquareIsSymmetric(b.mass, b.center);
    SkewSquareIsSymmetric(a.mass + b.mass, CenterOf(a, b));
    hide SkewSquared, Times;
  }

  lemma SkewSquareIsSymmetric(m: real, v: Vec)
    ensures Symmetric(Times(m, SkewSquared(v)))
  {
    assert Symmetric(SkewSquared(v));
  }

  // ---------------------------------------------------------------------------------------
  // Energy: the quadratic form of an inertia
  // ---------------------------------------------------------------------------------------

  function Energy(a: Matrix, w: Vec): real {
    Dot(w, Apply(a, w))
  }

  lemma EnergyAdds(a: Matrix, b: Matrix, w: Vec)
    ensures Energy(Add(a, b), w) == Energy(a, w) + Energy(b, w)
  {
    hide Dot;
    ApplyAdds(a, b, w);
    DotAdds(w, Apply(a, w), Apply(b, w));
  }

  lemma DotAdds(w: Vec, u: Vec, v: Vec)
    ensures Dot(w, Plus(u, v)) == Dot(w, u) + Dot(w, v)
  {
  }

  lemma RowAdds(p: real, q: real, r: real, s: real, t: real, u: real, w: Vec)
    ensures Row(p + s, q + t, r + u, w) == Row(p, q, r, w) + Row(s, t, u, w)
  {
  }

  lemma ApplyAdds(a: Matrix, b: Matrix, w: Vec)
    ensures Apply(Add(a, b), w) == Plus(Apply(a, w), Apply(b, w))
  {
    hide Row;
    RowAdds(a.xx, a.xy, a.xz, b.xx, b.xy, b.xz, w);
    RowAdds(a.yx, a.yy, a.yz, b.yx, b.yy, b.yz, w);
    RowAdds(a.zx, a.zy, a.zz, b.zx, b.zy, b.zz, w);
  }

  lemma EnergyScales(k: real, a: Matrix, w: Vec)
    ensures Energy(Times(k, a), w) == k * Energy(a, w)
  {
    hide Dot, Apply, Times, Scale;
    ApplyScales(k, a, w);
    DotScales(k, w, Apply(a, w));
  }

  lemma ProductAssociates(k: real, p: real, x: real)
    ensures Product(Product(k, p), x) == Product(k, Product(p, x))
  {
  }

  lemma ProductAdds(k: real, x: real, y: real, z: real)
    ensures Product(k, x) + Product(k, y) + Product(k, z) == Product(k, x + y + z)
  {
  }

  lemma RowScales(k: real, p: real, q: real, r: real, w: Vec)
    ensures Row(Product(k, p), Product(k, q), Product(k, r), w) == Product(k, Row(p, q, r, w))
  {
    hide Product;
    ProductAssociates(k, p, w.x);
    ProductAssociates(k, q, w.y);
    ProductAssociates(k, r, w.z);
    ProductAdds(k, Product(p, w.x), Product(q, w.y), Product(r, w.z));
  }

  lemma ApplyScales(k: real, a: Matrix, w: Vec)
    ensures Apply(Times(k, a), w) == Scale(k, Apply(a, w))
  {
    hide Row, Product;
    RowScales(k, a.xx, a.xy, a.xz, w);
    RowScales(k, a.yx, a.yy, a.yz, w);
    RowScales(k, a.zx, a.zy, a.zz, w);
  }

  lemma DotScales(k: real, w: Vec, v: Vec)
    ensures Dot(w, Scale(k, v)) == k * Dot(w, v)
  {
  }

  function Squares(a: real, b: real, c: real): real {
    a * a + b * b + c * c
  }

  function Mixed(a: real, u: real, b: real, v: real, c: real, t: real): real {
    a * u + b * v + c * t
  }

  lemma NormAndDot(d: Vec, w: Vec)
    ensures NormSq(d) == Squares(d.x, d.y, d.z) == Squares(d.y, d.x, d.z) == Squares(d.z, d.x, d.y)
    ensures Dot(d, w) == Mixed(d.x, w.x, d.y, w.y, d.z, w.z)
    ensures Dot(d, w) == Mixed(d.y, w.y, d.x, w.x, d.z, w.z) == Mixed(d.z, w.z, d.x, w.x, d.y, w.y)
  {
  }

  lemma SpreadApplied(d: Vec, w: Vec)
    ensures Apply(Spread(d), w) == Minus(Scale(NormSq(d), w), Scale(Dot(d, w), d))
  {
    hide Product, Squares, Mixed, NormSq, Dot;
    NormAndDot(d, w);
    SpreadRow(d.x, d.y, d.z, w.x, w.y, w.z);
    SpreadRow(d.y, d.x, d.z, w.y, w.x, w.z);
    SpreadRow(d.z, d.x, d.y, w.z, w.x, w.y);
  }

  lemma SpreadRow(a: real, b: real, c: real, u: real, v: real, t: real)
    ensures Product(Product(b, b) + Product(c, c), u) + Product(-Product(a, b), v) + Product(-Product(a, c), t)
         == Product(Squares(a, b, c), u) - Product(Mixed(a, u, b, v, c, t), a)
  {
  }

  lemma DotSubtracts(w: Vec, u: Vec, v: Vec)
    ensures Dot(w, Minus(u, v)) == Dot(w, u) - Dot(w, v)
  {
  }

  lemma DotCommutes(u: Vec, v: Vec)
    ensures Dot(u, v) == Dot(v, u)
  {
  }

  lemma SpreadIsNotNegative(d: Vec, w: Vec)
    ensures 0.0 <= Energy(Spread(d), w)
  {
    hide Dot, NormSq, Apply, Spread, Scale, Minus;
    SpreadApplied(d, w);
    DotSubtracts(w, Scale(NormSq(d), w), Scale(Dot(d, w), d));
    DotScales(NormSq(d), w, w);
    DotScales(Dot(d, w), w, d);
    DotCommutes(d, w);
    assert NormSq(w) == Dot(w, w) by {
      NormSqIsDot(w);
    }
    CauchySchwarz(d, w);
  }

  lemma NormSqIsDot(w: Vec)
    ensures NormSq(w) == Dot(w, w)
  {
  }

  /** Rigidly joining two bodies never loses rotational energy about any axis. */
  lemma EnergyIsKept(a: Body, b: Body, w: Vec)
    requires 0.0 <= a.mass && 0.0 <= b.mass && 0.0 < a.mass + b.mass
    ensures Energy(Effective(a), w) + Energy(Effective(b), w) <= Energy(Combined(a, b).inertia, w)
  {
    hide Energy, Spread, Times, Reduced, Effective, Combined;
    var k, spread := Reduced(a.mass, b.mass), Spread(Minus(a.center, b.center));
    ParallelAxis(a, b);
    EnergyAdds(Add(Effective(a), Effective(b)), Times(k, spread), w);
    EnergyAdds(Effective(a), Effective(b), w);
    EnergyScales(k, spread, w);
    SpreadIsNotNegative(Minus(a.center, b.center), w);
    ReducedIsNotNegative(a.mass, b.mass);
    NotNegative(k, Energy(spread, w));
  }

  lemma ReducedIsNotNegative(ma: real, mb: real)
    requires 0.0 <= ma && 0.0 <= mb && 0.0 < ma + mb
    ensures 0.0 <= Reduced(ma, mb)
  {
    NotNegative(ma, mb);
  }

  lemma NotNegative(x: real, y: real)
    requires 0.0 <= x && 0.0 <= y
    ensures 0.0 <= x * y
  {
  }
}

/** Vectors of three reals, and "no longer than" in squared form.

    Dafny's reals have no square root, so a length is never computed: `AtMost(v, r)` says
    |v| <= r as `0 <= r` and |v|^2 <= r^2. The triangle inequality is proved in that form. */
module Geometry {

  datatype Vec = Vec(x: real, y: real, z: real)

  function Plus(a: Vec, b: Vec): Vec {
    Vec(a.x + b.x, a.y + b.y, a.z + b.z)
  }

  function Minus(a: Vec, b: Vec): Vec {
    Vec(a.x - b.x, a.y - b.y, a.z - b.z)
  }

  function Product(k: real, x: real): real {
    k * x
  }

  function Scale(k: real, a: Vec): Vec {
    Vec(Product(k, a.x), Product(k, a.y), Product(k, a.z))
  }

  function Dot(a: Vec, b: Vec): real {
    a.x * b.x + a.y * b.y + a.z * b.z
  }

  function NormSq(a: Vec): real {
    Dot(a, a)
  }

  /** |v| <= r */
  predicate AtMost(v: Vec, r: real) {
    0.0 <= r && NormSq(v) <= r * r
  }

  lemma Positive(d: real, e: real)
    requires 0.0 < d && 0.0 < e
    ensures 0.0 < d * e
  {
  }

  lemma SquareStrict(x: real, y: real)
    requires 0.0 <= y < x
    ensures y * y < x * x
  {
    var d, e := x - y, x + y;
    assert d * e == x * x - y * y;
    Positive(d, e);
  }

  lemma SquareMonotone(x: real, y: real)
    requires 0.0 <= y && x * x <= y * y
    ensures x <= y
  {
    if y < x {
      SquareStrict(x, y);
    }
  }

  lemma ProductMonotone(a: real, b: real, c: real, d: real)
    requires 0.0 <= a <= c && 0.0 <= b <= d
    ensures a * b <= c * d
  {
    assert a * b <= a * d;
    assert a * d <= c * d;
  }

  lemma Square(x: real)
    ensures 0.0 <= x * x
  {
  }

  lemma Lagrange(u: Vec, v: Vec, p: real, q: real, r: real)
    requires p == u.x * v.y - u.y * v.x && q == u.y * v.z - u.z * v.y && r == u.z * v.x - u.x * v.z
    ensures NormSq(u) * NormSq(v) == Dot(u, v) * Dot(u, v) + p * p + q * q + r * r
  {
  }

  /** The Cauchy-Schwarz inequality, through Lagrange's identity. */
  lemma CauchySchwarz(u: Vec, v: Vec)
    ensures Dot(u, v) * Dot(u, v) <= NormSq(u) * NormSq(v)
  {
    hide Dot, NormSq;
    var p, q, r := u.x * v.y - u.y * v.x, u.y * v.z - u.z * v.y, u.z * v.x - u.x * v.z;
    Square(p);
    Square(q);
    Square(r);
    Lagrange(u, v, p, q, r);
  }

  lemma NormSqNonNegative(u: Vec)
    ensures 0.0 <= NormSq(u)
  {
    Square(u.x);
    Square(u.y);
    Square(u.z);
  }

  /** |u| <= a and |v| <= b give |u + v| <= a + b. */
  lemma Triangle(u: Vec, v: Vec, a: real, b: real)
    requires AtMost(u, a) && AtMost(v, b)
    ensures AtMost(Plus(u, v), a + b)
  {
    var d := Dot(u, v);
    CauchySchwarz(u, v);
    NormSqNonNegative(u);
    NormSqNonNegative(v);
    ProductMonotone(NormSq(u), NormSq(v), a * a, b * b);
    assert (a * a) * (b * b) == (a * b) * (a * b);
    assert 0.0 <= a * b;
    SquareMonotone(d, a * b);
    assert NormSq(Plus(u, v)) == NormSq(u) + 2.0 * d + NormSq(v);
    assert (a + b) * (a + b) == a * a + 2.0 * (a * b) + b * b;
  }

  /** The same between three points. */
  lemma TriangleOfPoints(p: Vec, q: Vec, r: Vec, a: real, b: real)
    requires AtMost(Minus(q, p), a) && AtMost(Minus(r, q), b)
    ensures AtMost(Minus(r, p), a + b)
  {
    Triangle(Minus(q, p), Minus(r, q), a, b);
    assert Plus(Minus(q, p), Minus(r, q)) == Minus(r, p);
  }

  lemma AtMostWiden(v: Vec, a: real, b: real)
    requires AtMost(v, a) && a <= b
    ensures AtMost(v, b)
  {
    ProductMonotone(a, a, b, b);
  }

  lemma AtMostReverse(p: Vec, q: Vec, a: real)
    ensures AtMost(Minus(p, q), a) <==> AtMost(Minus(q, p), a)
  {
    var d := Minus(p, q);
    assert Minus(q, p) == Vec(-d.x, -d.y, -d.z);
    assert NormSq(Minus(q, p)) == NormSq(d);
  }

  lemma ScaledNorm(k: real, v: Vec)
    ensures NormSq(Scale(k, v)) == k * k * NormSq(v)
  {
    assert k * v.x * (k * v.x) == k * k * (v.x * v.x);
    assert k * v.y * (k * v.y) == k * k * (v.y * v.y);
    assert k * v.z * (k * v.z) == k * k * (v.z * v.z);
  }

  /** A point within `a` of one end and `b` of the other exists on the segment between two
      points no further apart than `a + b`: the partner of the triangle inequality. */
  lemma BetweenPoints(p: Vec, q: Vec, a: real, b: real) returns (t: real, m: Vec)
    requires 0.0 <= a && 0.0 <= b && AtMost(Minus(q, p), a + b)
    ensures 0.0 <= t <= 1.0 && m == Plus(p, Scale(t, Minus(q, p)))
    ensures AtMost(Minus(m, p), a) && AtMost(Minus(m, q), b)
  {
    hide AtMost, Minus, Plus, Scale, NormSq, Dot;
    var v := Minus(q, p);
    t := if a + b == 0.0 then 0.0 else a / (a + b);
    m := Plus(p, Scale(t, v));
    SegmentEnds(p, q, t);
    if a + b == 0.0 {
      StayAt(p, v);
      ZeroAtMost(p, 0.0);
      AtMostReverse(q, p, 0.0);
    } else {
      Fractions(a, b, a + b, t);
      AtMostScale(t, v, a + b, a);
      AtMostScale(t - 1.0, v, a + b, b);
    }
  }

  lemma StayAt(p: Vec, v: Vec)
    ensures Plus(p, Scale(0.0, v)) == p
  {
  }

  lemma SegmentEnds(p: Vec, q: Vec, t: real)
    ensures Minus(Plus(p, Scale(t, Minus(q, p))), p) == Scale(t, Minus(q, p))
    ensures Minus(Plus(p, Scale(t, Minus(q, p))), q) == Scale(t - 1.0, Minus(q, p))
  {
    var d := Minus(q, p);
    OneLess(t, d.x);
    OneLess(t, d.y);
    OneLess(t, d.z);
    hide Product;
  }

  lemma OneLess(t: real, d: real)
    ensures Product(t - 1.0, d) == Product(t, d) - d
  {
  }

  lemma AtMostScale(k: real, v: Vec, s: real, r: real)
    requires AtMost(v, s) && 0.0 <= r && (k * s == r || k * s == -r)
    ensures AtMost(Scale(k, v), r)
  {
    hide NormSq, Scale;
    ScaledNorm(k, v);
    NormSqNonNegative(v);
    Square(k);
    ProductMonotone(k * k, NormSq(v), k * k, s * s);
    SquareOfProduct(k, s, r);
  }

  lemma SquareOfProduct(k: real, s: real, r: real)
    requires k * s == r || k * s == -r
    ensures k * k * (s * s) == r * r
  {
    var ks := k * s;
    assert k * k * (s * s) == ks * ks;
  }

  lemma Fractions(a: real, b: real, s: real, t: real)
    requires 0.0 <= a && 0.0 <= b && s == a + b && 0.0 < s && t == a / s
    ensures 0.0 <= t <= 1.0 && t * s == a && (t - 1.0) * s == -b
  {
    assert t * s == a;
    assert (t - 1.0) * s == t * s - s;
  }

  lemma ZeroAtMost(p: Vec, r: real)
    requires 0.0 <= r
    ensures AtMost(Minus(p, p), r)
  {
    assert Minus(p, p) == Vec(0.0, 0.0, 0.0);
    Square(r);
  }

  /** k steps of r each. */
  function Times(k: nat, r: real): real {
    k as real * r
  }

  lemma TimesZeroAndNext(k: nat, r: real)
    ensures Times(0, r) == 0.0 && Times(k + 1, r) == r + Times(k, r)
    ensures 0.0 <= r ==> 0.0 <= Times(k, r)
  {
  }
}

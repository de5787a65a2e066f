/** Cosine similarity and zero padding of embedding vectors, over the reals. */
module Geometry {
  import opened Catalog

  const EMBEDDING_DIMENSIONS := 1536

  function Dot(a: seq<real>, b: seq<real>): real
    requires |a| == |b|
  {
    if a == [] then 0.0
    else Dot(a[..|a| - 1], b[..|b| - 1]) + a[|a| - 1] * b[|b| - 1]
  }

  /** The square root the platform provides, without its rounding. */
  ghost predicate IsSqrt(sqrt: real -> real) {
    forall x: real :: x >= 0.0 ==> sqrt(x) >= 0.0 && sqrt(x) * sqrt(x) == x
  }

  /** The cosine; zero for a length mismatch or a zero vector. */
  function Cosine(a: seq<real>, b: seq<real>, sqrt: real -> real): real {
    if |a| != |b| then 0.0
    else if Dot(a, a) == 0.0 || Dot(b, b) == 0.0 then 0.0
    else
      var scale := sqrt(Dot(a, a)) * sqrt(Dot(b, b));
      if scale == 0.0 then 0.0 else Dot(a, b) / scale
  }

  lemma DotSnoc(a: seq<real>, b: seq<real>, i: nat)
    requires |a| == |b| && i < |a|
    ensures Dot(a[..i + 1], b[..i + 1]) == Dot(a[..i], b[..i]) + a[i] * b[i]
  {
    assert a[..i + 1][..i] == a[..i] && b[..i + 1][..i] == b[..i];
  }

  /** Accumulates the three sums in one pass. */
  method CosineSimilarity(a: seq<real>, b: seq<real>, sqrt: real -> real) returns (c: real)
    requires IsSqrt(sqrt)
    ensures c == Cosine(a, b, sqrt)
    ensures -1.0 <= c <= 1.0
    ensures |a| == |b| && Dot(a, a) != 0.0 && Dot(b, b) != 0.0 ==>
              c * (sqrt(Dot(a, a)) * sqrt(Dot(b, b))) == Dot(a, b)
    ensures |a| != |b| || Dot(a, a) == 0.0 || Dot(b, b) == 0.0 ==> c == 0.0
  {
    hide Dot;
    CosineInRange(a, b, sqrt);
    CosineMeans(a, b, sqrt);
    if |a| != |b| {
      return 0.0;
    }
    var dot, magA, magB := 0.0, 0.0, 0.0;
    EmptyDot();
    assert a[..0] == [] && b[..0] == [];
    for i := 0 to |a|
      invariant dot == Dot(a[..i], b[..i]) && magA == Dot(a[..i], a[..i]) && magB == Dot(b[..i], b[..i])
    {
      DotSnoc(a, b, i);
      DotSnoc(a, a, i);
      DotSnoc(b, b, i);
      dot := dot + a[i] * b[i];
      magA := magA + a[i] * a[i];
      magB := magB + b[i] * b[i];
    }
    assert a[..|a|] == a && b[..|b|] == b;
    if magA == 0.0 || magB == 0.0 {
      return 0.0;
    }
    ScalePositive(a, b, sqrt);
    return dot / (sqrt(magA) * sqrt(magB));
  }

  lemma EmptyDot()
    ensures Dot([], []) == 0.0
  {
  }

  // ---- The Cauchy-Schwarz inequality ---------------------------------------

  lemma Square(x: real)
    ensures x * x >= 0.0
  {
  }

  lemma NonZeroSquare(x: real)
    requires x != 0.0
    ensures x * x > 0.0
  {
  }

  lemma SquaresGrow(d: real, s: real)
    requires d > s > 0.0
    ensures d * d > s * s
  {
    assert d * d - s * s == (d - s) * (d + s);
  }

  lemma NegativeProduct(p: real, q: real)
    requires p > 0.0 && q < 0.0
    ensures p * q < 0.0
  {
  }

  /** The terms of the sum of squares `(x*a[i] - y*b[i])^2`, collected. */
  function Spread(a: seq<real>, b: seq<real>, x: real, y: real): real
    requires |a| == |b|
  {
    x * x * Dot(a, a) - 2.0 * (x * y) * Dot(a, b) + y * y * Dot(b, b)
  }

  lemma SpreadStep(x: real, y: real, p: real, q: real, r: real, u: real, v: real)
    ensures x * x * (p + u * u) - 2.0 * (x * y) * (q + u * v) + y * y * (r + v * v)
         == (x * x * p - 2.0 * (x * y) * q + y * y * r) + (x * u - y * v) * (x * u - y * v)
  {
    assert (x * u - y * v) * (x * u - y * v) == x * u * (x * u) - 2.0 * (x * u * (y * v)) + y * v * (y * v);
    assert x * u * (x * u) == x * x * (u * u);
    assert y * v * (y * v) == y * y * (v * v);
    assert x * u * (y * v) == x * y * (u * v);
    assert x * x * (p + u * u) == x * x * p + x * x * (u * u);
    assert y * y * (r + v * v) == y * y * r + y * y * (v * v);
    assert 2.0 * (x * y) * (q + u * v) == 2.0 * (x * y) * q + 2.0 * (x * y * (u * v));
  }

  /** One coordinate more adds one square. */
  lemma SpreadGrows(a: seq<real>, b: seq<real>, x: real, y: real)
    requires |a| == |b| > 0
    ensures var n := |a| - 1;
            Spread(a, b, x, y) == Spread(a[..n], b[..n], x, y) + (x * a[n] - y * b[n]) * (x * a[n] - y * b[n])
  {
    var n := |a| - 1;
    var p, q, r := Dot(a[..n], a[..n]), Dot(a[..n], b[..n]), Dot(b[..n], b[..n]);
    assert Dot(a, a) == p + a[n] * a[n] && Dot(a, b) == q + a[n] * b[n] && Dot(b, b) == r + b[n] * b[n];
    hide Dot;
    SpreadStep(x, y, p, q, r, a[n], b[n]);
  }

  lemma {:induction false} SpreadNonNegative(a: seq<real>, b: seq<real>, x: real, y: real)
    requires |a| == |b|
    ensures Spread(a, b, x, y) >= 0.0
  {
    if a == [] {
      EmptySpread(x, y);
    } else {
      hide Spread;
      var n := |a| - 1;
      SpreadNonNegative(a[..n], b[..n], x, y);
      SpreadGrows(a, b, x, y);
      Square(x * a[n] - y * b[n]);
    }
  }

  lemma EmptySpread(x: real, y: real)
    ensures Spread([], [], x, y) == 0.0
  {
    EmptyDot();
  }

  lemma {:induction false} NormNonNegative(a: seq<real>)
    ensures Dot(a, a) >= 0.0
  {
    if a != [] {
      NormNonNegative(a[..|a| - 1]);
      Square(a[|a| - 1]);
    }
  }

  lemma {:induction false} ZeroNorm(a: seq<real>, b: seq<real>)
    requires |a| == |b| && Dot(a, a) == 0.0
    ensures Dot(a, b) == 0.0
  {
    if a != [] {
      var n := |a| - 1;
      NormNonNegative(a[..n]);
      Square(a[n]);
      if a[n] != 0.0 {
        NonZeroSquare(a[n]);
      }
      ZeroNorm(a[..n], b[..n]);
    }
  }

  lemma DivideOut(p: real, d: real, q: real)
    requires p > 0.0 && p * p * q - 2.0 * (p * d) * d + d * d * p >= 0.0
    ensures d * d <= p * q
  {
    assert p * p * q - 2.0 * (p * d) * d + d * d * p == p * (p * q - d * d);
    if p * q - d * d < 0.0 {
      NegativeProduct(p, p * q - d * d);
    }
  }

  /** For all vectors of one length. */
  lemma CauchySchwarz(a: seq<real>, b: seq<real>)
    requires |a| == |b|
    ensures Dot(a, b) * Dot(a, b) <= Dot(a, a) * Dot(b, b)
  {
    hide Dot;
    NormNonNegative(a);
    if Dot(a, a) == 0.0 {
      ZeroNorm(a, b);
    } else {
      SpreadNonNegative(b, a, Dot(a, a), Dot(a, b));
      DotCommutes(a, b);
      DivideOut(Dot(a, a), Dot(a, b), Dot(b, b));
    }
  }

  lemma {:induction false} DotCommutes(a: seq<real>, b: seq<real>)
    requires |a| == |b|
    ensures Dot(a, b) == Dot(b, a)
  {
    if a != [] {
      DotCommutes(a[..|a| - 1], b[..|b| - 1]);
    }
  }

  lemma ScalePositive(a: seq<real>, b: seq<real>, sqrt: real -> real)
    requires IsSqrt(sqrt) && Dot(a, a) != 0.0 && Dot(b, b) != 0.0
    ensures sqrt(Dot(a, a)) > 0.0 && sqrt(Dot(b, b)) > 0.0
    ensures sqrt(Dot(a, a)) * sqrt(Dot(b, b)) > 0.0
  {
    hide Dot;
    NormNonNegative(a);
    NormNonNegative(b);
  }

  lemma QuotientInRange(d: real, s: real)
    requires s > 0.0 && d * d <= s * s
    ensures -1.0 <= d / s <= 1.0
  {
    if d > s {
      SquaresGrow(d, s);
    } else if d < -s {
      SquaresGrow(-d, s);
    }
  }

  lemma SquaresOfProduct(s: real, t: real)
    ensures (s * t) * (s * t) == (s * s) * (t * t)
  {
  }

  lemma CosineInRange(a: seq<real>, b: seq<real>, sqrt: real -> real)
    requires IsSqrt(sqrt)
    ensures -1.0 <= Cosine(a, b, sqrt) <= 1.0
  {
    hide Dot;
    if |a| == |b| && Dot(a, a) != 0.0 && Dot(b, b) != 0.0 {
      var s, t := sqrt(Dot(a, a)), sqrt(Dot(b, b));
      ScalePositive(a, b, sqrt);
      CauchySchwarz(a, b);
      NormNonNegative(a);
      NormNonNegative(b);
      SquaresOfProduct(s, t);
      assert s * s == Dot(a, a) && t * t == Dot(b, b);
      assert Dot(a, b) * Dot(a, b) <= (s * t) * (s * t);
      QuotientInRange(Dot(a, b), s * t);
      assert Cosine(a, b, sqrt) == Dot(a, b) / (s * t);
    }
  }

  lemma QuotientTimes(d: real, s: real)
    requires s > 0.0
    ensures d / s * s == d
    ensures (d / s > 0.0 <==> d > 0.0) && (d / s < 0.0 <==> d < 0.0)
  {
    var q := d / s;
    assert q * s == d;
    if q > 0.0 {
      PositiveProduct(q, s);
    } else if q < 0.0 {
      NegativeProduct(s, q);
    }
  }

  lemma PositiveProduct(p: real, q: real)
    requires p > 0.0 && q > 0.0
    ensures p * q > 0.0
  {
  }

  /** The dot product over the two norms: it has the dot product's sign; and zero where
      that makes no sense. */
  lemma CosineMeans(a: seq<real>, b: seq<real>, sqrt: real -> real)
    requires IsSqrt(sqrt)
    ensures |a| == |b| && Dot(a, a) != 0.0 && Dot(b, b) != 0.0 ==>
              var c := Cosine(a, b, sqrt);
              && c * (sqrt(Dot(a, a)) * sqrt(Dot(b, b))) == Dot(a, b)
              && (c > 0.0 <==> Dot(a, b) > 0.0) && (c < 0.0 <==> Dot(a, b) < 0.0)
    ensures |a| != |b| || Dot(a, a) == 0.0 || Dot(b, b) == 0.0 ==> Cosine(a, b, sqrt) == 0.0
  {
    hide Dot;
    if |a| == |b| && Dot(a, a) != 0.0 && Dot(b, b) != 0.0 {
      var s := sqrt(Dot(a, a)) * sqrt(Dot(b, b));
      ScalePositive(a, b, sqrt);
      QuotientTimes(Dot(a, b), s);
      assert Cosine(a, b, sqrt) == Dot(a, b) / s;
    }
  }

  /** `b` is `k` times `a`. */
  predicate Multiple(a: seq<real>, k: real, b: seq<real>) {
    |b| == |a| && forall i :: 0 <= i < |a| ==> b[i] == k * a[i]
  }

  lemma DotLast(a: seq<real>, b: seq<real>, n: nat)
    requires |a| == |b| == n + 1
    ensures Dot(a, b) == Dot(a[..n], b[..n]) + a[n] * b[n]
  {
    hide Dot;
    DotSnoc(a, b, n);
    assert a[..n + 1] == a && b[..n + 1] == b;
  }

  lemma {:induction false} DotMultiple(a: seq<real>, k: real, b: seq<real>)
    requires Multiple(a, k, b)
    ensures Dot(a, b) == k * Dot(a, a) && Dot(b, b) == k * k * Dot(a, a)
  {
    hide Dot;
    EmptyDot();
    if a != [] {
      var n := |a| - 1;
      MultipleLast(a, k, b, n);
      hide Multiple;
      DotMultiple(a[..n], k, b[..n]);
      DotLast(a, b, n);
      DotLast(a, a, n);
      DotLast(b, b, n);
      LastTerm(k, a[n], b[n], Dot(a[..n], a[..n]), Dot(a, a), Dot(a[..n], b[..n]), Dot(a, b), Dot(b[..n], b[..n]),
               Dot(b, b));
    }
  }

  lemma MultipleLast(a: seq<real>, k: real, b: seq<real>, n: nat)
    requires Multiple(a, k, b) && |a| == n + 1
    ensures |b| == n + 1 && b[n] == k * a[n] && Multiple(a[..n], k, b[..n])
  {
  }

  lemma LastTerm(k: real, x: real, y: real, aa: real, aa': real, ab: real, ab': real, bb: real, bb': real)
    requires y == k * x && ab == k * aa && bb == k * k * aa
    requires aa' == aa + x * x && ab' == ab + x * y && bb' == bb + y * y
    ensures ab' == k * aa' && bb' == k * k * aa'
  {
    assert x * y == k * (x * x);
    assert y * y == k * k * (x * x);
  }

  lemma SameRoot(s: real, t: real)
    requires s >= 0.0 && t > 0.0 && s * s == t * t
    ensures s == t
  {
    assert (s - t) * (s + t) == 0.0 * (s + t);
    Cancels(s - t, s + t, 0.0);
  }

  /** The norm of a multiple. */
  lemma MultipleRoot(n: real, r: real, m: real, q: real, t: real)
    requires n > 0.0 && r > 0.0 && r * r == n && m > 0.0 && q == m * m * n && t >= 0.0 && t * t == q
    ensures t == m * r && r * t == m * n
  {
    PositiveProduct(m, r);
    SquaresOfProduct(m, r);
    SameRoot(t, m * r);
    assert r * (m * r) == m * (r * r);
  }

  lemma SquarePositive(k: real, n: real, q: real)
    requires k != 0.0 && n > 0.0 && q == k * k * n
    ensures q > 0.0
  {
    ScaledSquare(k, k * k, n);
  }

  lemma ScaledSquare(k: real, kk: real, n: real)
    requires k != 0.0 && kk == k * k && n > 0.0
    ensures kk * n > 0.0
  {
    NamedSquare(k, kk);
    PositiveProduct(kk, n);
  }

  lemma NamedSquare(x: real, y: real)
    requires x != 0.0 && y == x * x
    ensures y > 0.0
  {
    if x > 0.0 {
      NamedProduct(x, x, y);
    } else {
      assert y == -x * -x;
      NamedProduct(-x, -x, y);
    }
  }

  lemma NamedProduct(p: real, q: real, y: real)
    requires p > 0.0 && q > 0.0 && y == p * q
    ensures y > 0.0
  {
  }

  lemma NormNumbers(n: real, k: real, q: real, r: real, t: real)
    requires k != 0.0 && n > 0.0 && q == k * k * n && r > 0.0 && r * r == n && t > 0.0 && t * t == q
    ensures r * t == (if k > 0.0 then k else -k) * n
  {
    var m := if k > 0.0 then k else -k;
    SameSquare(k, m);
    SameTimes(k * k, m * m, n);
    MultipleRoot(n, r, m, q, t);
  }

  lemma SameTimes(x: real, y: real, n: real)
    requires x == y
    ensures x * n == y * n
  {
  }

  lemma MultipleNorms(a: seq<real>, k: real, b: seq<real>, sqrt: real -> real)
    requires IsSqrt(sqrt) && Multiple(a, k, b) && Dot(a, a) != 0.0 && k != 0.0
    ensures Dot(a, a) > 0.0 && Dot(b, b) > 0.0 && Dot(a, b) == k * Dot(a, a)
    ensures sqrt(Dot(a, a)) * sqrt(Dot(b, b)) == (if k > 0.0 then k else -k) * Dot(a, a)
  {
    hide *;
    NormNonNegative(a);
    DotMultiple(a, k, b);
    var n, q := Dot(a, a), Dot(b, b);
    SquarePositive(k, n, q);
    NonZeroRoot(n, sqrt);
    NonZeroRoot(q, sqrt);
    NormNumbers(n, k, q, sqrt(n), sqrt(q));
  }

  /** A positive multiple of a vector that is not zero, itself for one, is as similar to
      it as can be, and a negative one as unlike. */
  lemma CosineOfMultiple(a: seq<real>, k: real, b: seq<real>, sqrt: real -> real)
    requires IsSqrt(sqrt) && Multiple(a, k, b) && Dot(a, a) != 0.0 && k != 0.0
    ensures Dot(b, b) != 0.0
    ensures Cosine(a, b, sqrt) == if k > 0.0 then 1.0 else -1.0
  {
    hide Dot, Cosine;
    MultipleNorms(a, k, b, sqrt);
    CosineMeans(a, b, sqrt);
    OneOrMinusOne(Cosine(a, b, sqrt), sqrt(Dot(a, a)) * sqrt(Dot(b, b)), k, if k > 0.0 then k else -k, Dot(a, a));
  }

  lemma SameSquare(k: real, m: real)
    requires m == if k > 0.0 then k else -k
    ensures m * m == k * k
  {
  }

  lemma OneOrMinusOne(c: real, s: real, k: real, m: real, n: real)
    requires k != 0.0 && m == (if k > 0.0 then k else -k) && n > 0.0 && s == m * n && c * s == k * n
    ensures c == if k > 0.0 then 1.0 else -1.0
  {
    PositiveProduct(m, n);
    Cancels(c, s, if k > 0.0 then 1.0 else -1.0);
  }

  lemma NonZeroRoot(n: real, sqrt: real -> real)
    requires IsSqrt(sqrt) && n > 0.0
    ensures sqrt(n) > 0.0 && sqrt(n) * sqrt(n) == n
  {
  }

  lemma Cancels(c: real, s: real, d: real)
    requires s > 0.0 && c * s == d * s
    ensures c == d
  {
    assert (c - d) * s == 0.0;
    if c > d {
      PositiveProduct(c - d, s);
    } else if c < d {
      NegativeProduct(s, c - d);
    }
  }

  // ---- Zero padding --------------------------------------------------------

  function Zeros(n: nat): seq<real> {
    seq(n, _ => 0.0)
  }

  /** A vector wider than the store is refused before it is padded. */
  function PadToStoredDimensions(v: seq<real>): Result<seq<real>> {
    if |v| == 0 then Err("empty vector")
    else if |v| > EMBEDDING_DIMENSIONS then Err("vector too wide")
    else Ok(v + Zeros(EMBEDDING_DIMENSIONS - |v|))
  }

  /** Every vector of 1 to 1536 dimensions is stored, as itself with zeros behind it. */
  lemma PaddingAccepts(v: seq<real>)
    ensures PadToStoredDimensions(v).Ok? <==> 1 <= |v| <= 1536
    ensures 1 <= |v| <= 1536 ==>
              var p := PadToStoredDimensions(v).value;
              |p| == 1536 && v <= p && forall i :: |v| <= i < 1536 ==> p[i] == 0.0
  {
  }

  lemma {:induction false} DotPadded(a: seq<real>, b: seq<real>, n: nat)
    requires |a| == |b|
    ensures Dot(a + Zeros(n), b + Zeros(n)) == Dot(a, b)
  {
    hide Dot;
    var p, q := a + Zeros(n), b + Zeros(n);
    if n == 0 {
      assert p == a && q == b;
    } else {
      var m := |a| + n - 1;
      DotPadded(a, b, n - 1);
      assert p[..m] == a + Zeros(n - 1) && q[..m] == b + Zeros(n - 1);
      assert p[m] == 0.0 == q[m];
      DotLast(p, q, m);
      ZeroTerm(p[m], q[m]);
    }
  }

  lemma ZeroTerm(x: real, y: real)
    requires x == 0.0
    ensures x * y == 0.0
  {
  }

  /** Padding changes neither norms nor dot products, and so no cosine. */
  lemma PaddingIsExact(a: seq<real>, b: seq<real>, sqrt: real -> real)
    requires |a| == |b| && PadToStoredDimensions(a).Ok? && PadToStoredDimensions(b).Ok?
    ensures var p, q := PadToStoredDimensions(a).value, PadToStoredDimensions(b).value;
            && |p| == |q| == EMBEDDING_DIMENSIONS
            && Dot(p, p) == Dot(a, a) && Dot(q, q) == Dot(b, b) && Dot(p, q) == Dot(a, b)
            && Cosine(p, q, sqrt) == Cosine(a, b, sqrt)
  {
    hide Dot;
    var n := EMBEDDING_DIMENSIONS - |a|;
    DotPadded(a, a, n);
    DotPadded(b, b, n);
    DotPadded(a, b, n);
  }

  /** Vectors of unlike native widths are the exception: unpadded they score zero,
      padded they are compared, so the scores agree only if the padded one is zero. */
  lemma PaddingAgreesIff(a: seq<real>, b: seq<real>, sqrt: real -> real)
    requires IsSqrt(sqrt) && PadToStoredDimensions(a).Ok? && PadToStoredDimensions(b).Ok?
    ensures var p, q := PadToStoredDimensions(a).value, PadToStoredDimensions(b).value;
            Cosine(p, q, sqrt) == Cosine(a, b, sqrt) <==> |a| == |b| || Dot(p, q) == 0.0
  {
    hide Dot;
    var p, q := PadToStoredDimensions(a).value, PadToStoredDimensions(b).value;
    if |a| == |b| {
      PaddingIsExact(a, b, sqrt);
    } else if Dot(p, p) == 0.0 {
      ZeroNorm(p, q);
    } else if Dot(q, q) == 0.0 {
      ZeroNorm(q, p);
      DotCommutes(p, q);
    } else {
      ScalePositive(p, q, sqrt);
      QuotientZero(Dot(p, q), sqrt(Dot(p, p)) * sqrt(Dot(q, q)));
    }
  }

  lemma QuotientZero(d: real, s: real)
    requires s > 0.0
    ensures d / s == 0.0 <==> d == 0.0
  {
    assert d == (d / s) * s;
  }

  lemma UnlikeWidthsDisagree(sqrt: real -> real)
    requires IsSqrt(sqrt)
    ensures Cosine([1.0], [1.0, 0.0], sqrt) == 0.0
    ensures Cosine(PadToStoredDimensions([1.0]).value, PadToStoredDimensions([1.0, 0.0]).value, sqrt) != 0.0
  {
    hide Dot, Cosine;
    var a, b := [1.0], [1.0, 0.0];
    var n := EMBEDDING_DIMENSIONS - 2;
    assert a + Zeros(n + 1) == b + Zeros(n);
    DotPadded(a, a, n + 1);
    OneNorm();
    PaddingAgreesIff(a, b, sqrt);
    UnlikeWidths(a, b, sqrt);
  }

  lemma OneNorm()
    ensures Dot([1.0], [1.0]) == 1.0
  {
    assert [1.0][..0] == [];
  }

  lemma UnlikeWidths(a: seq<real>, b: seq<real>, sqrt: real -> real)
    requires |a| != |b|
    ensures Cosine(a, b, sqrt) == 0.0
  {
  }
}

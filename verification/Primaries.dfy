// Colour primaries and the matrices built from them, over the reals.
// subprojects/wlroots/render/color.c:337-406 and matrix_invert in util/matrix.c.

module Primaries {

  datatype Vec = Vec(x: real, y: real, z: real)

  // Row by row.
  datatype Mat = Mat(a: real, b: real, c: real, d: real, e: real, f: real, g: real, h: real, i: real)

  const IDENTITY: Mat := Mat(1.0, 0.0, 0.0, 0.0, 1.0, 0.0, 0.0, 0.0, 1.0)
  const ONE: Vec := Vec(1.0, 1.0, 1.0)

  // A chromaticity in CIE 1931 xy.
  datatype Xy = Xy(x: real, y: real)

  datatype Primaries = Primaries(red: Xy, green: Xy, blue: Xy, white: Xy)

  // Section 8.1 of ITU-T H.273, code points 1 and 9.
  const SRGB: Primaries := Primaries(Xy(0.640, 0.330), Xy(0.300, 0.600), Xy(0.150, 0.060), Xy(0.3127, 0.3290))
  const BT2020: Primaries := Primaries(Xy(0.708, 0.292), Xy(0.170, 0.797), Xy(0.131, 0.046), Xy(0.3127, 0.3290))

  function Dot(a: real, b: real, c: real, x: real, y: real, z: real): real {
    a * x + b * y + c * z
  }

  function MulVec(m: Mat, v: Vec): Vec {
    Vec(Dot(m.a, m.b, m.c, v.x, v.y, v.z),
        Dot(m.d, m.e, m.f, v.x, v.y, v.z),
        Dot(m.g, m.h, m.i, v.x, v.y, v.z))
  }

  function Mul(m: Mat, n: Mat): Mat {
    Mat(Dot(m.a, m.b, m.c, n.a, n.d, n.g), Dot(m.a, m.b, m.c, n.b, n.e, n.h), Dot(m.a, m.b, m.c, n.c, n.f, n.i),
        Dot(m.d, m.e, m.f, n.a, n.d, n.g), Dot(m.d, m.e, m.f, n.b, n.e, n.h), Dot(m.d, m.e, m.f, n.c, n.f, n.i),
        Dot(m.g, m.h, m.i, n.a, n.d, n.g), Dot(m.g, m.h, m.i, n.b, n.e, n.h), Dot(m.g, m.h, m.i, n.c, n.f, n.i))
  }

  function Det3(a: real, b: real, c: real, d: real, e: real, f: real, g: real, h: real, i: real): real {
    a * e * i + b * f * g + c * d * h - c * e * g - b * d * i - a * f * h
  }

  function Det(m: Mat): real {
    Det3(m.a, m.b, m.c, m.d, m.e, m.f, m.g, m.h, m.i)
  }

  function Minor(p: real, q: real, r: real, s: real): real {
    p * s - q * r
  }

  function Adjugate(m: Mat): Mat {
    Mat(Minor(m.e, m.f, m.h, m.i), -Minor(m.b, m.c, m.h, m.i), Minor(m.b, m.c, m.e, m.f),
        -Minor(m.d, m.f, m.g, m.i), Minor(m.a, m.c, m.g, m.i), -Minor(m.a, m.c, m.d, m.f),
        Minor(m.d, m.e, m.g, m.h), -Minor(m.a, m.b, m.g, m.h), Minor(m.a, m.b, m.d, m.e))
  }

  function Prod(s: real, x: real): real {
    s * x
  }

  function Times(s: real, m: Mat): Mat {
    Mat(Prod(s, m.a), Prod(s, m.b), Prod(s, m.c),
        Prod(s, m.d), Prod(s, m.e), Prod(s, m.f),
        Prod(s, m.g), Prod(s, m.h), Prod(s, m.i))
  }

  // matrix_invert; the source asserts that the determinant is not zero.
  function Invert(m: Mat): Mat
    requires Det(m) != 0.0
  {
    Times(1.0 / Det(m), Adjugate(m))
  }

  // A chromaticity without luminance has no place in XYZ.
  function XyToXyz(p: Xy): Vec {
    if p.y == 0.0 then Vec(0.0, 0.0, 0.0) else Vec(p.x / p.y, 1.0, (1.0 - p.x - p.y) / p.y)
  }

  // The primaries as columns.
  function Columns(r: Vec, g: Vec, b: Vec): Mat {
    Mat(r.x, g.x, b.x, r.y, g.y, b.y, r.z, g.z, b.z)
  }

  function PrimaryColumns(p: Primaries): Mat {
    Columns(XyToXyz(p.red), XyToXyz(p.green), XyToXyz(p.blue))
  }

  // The luminances that make the primaries add up to the white point.
  function Luminances(p: Primaries): Vec
    requires Det(PrimaryColumns(p)) != 0.0
  {
    MulVec(Invert(PrimaryColumns(p)), XyToXyz(p.white))
  }

  function ScaleColumns(m: Mat, s: Vec): Mat {
    Mat(s.x * m.a, s.y * m.b, s.z * m.c, s.x * m.d, s.y * m.e, s.z * m.f, s.x * m.g, s.y * m.h, s.z * m.i)
  }

  // wlr_color_primaries_to_xyz
  function ToXyz(p: Primaries): Mat
    requires Det(PrimaryColumns(p)) != 0.0
  {
    ScaleColumns(PrimaryColumns(p), Luminances(p))
  }

  // The three primaries span the colour space and each contributes to white.
  predicate Regular(p: Primaries) {
    && Det(PrimaryColumns(p)) != 0.0
    && var s := Luminances(p); s.x != 0.0 && s.y != 0.0 && s.z != 0.0
  }

  // wlr_color_primaries_transform_absolute_colorimetric
  function Convert(source: Primaries, destination: Primaries): Mat
    requires Det(PrimaryColumns(source)) != 0.0
    requires Det(PrimaryColumns(destination)) != 0.0 && Det(ToXyz(destination)) != 0.0
  {
    Mul(Invert(ToXyz(destination)), ToXyz(source))
  }

  // ---- Matrix algebra ----

  // One entry of a triple product.
  lemma DotOfDots(a: real, b: real, c: real, n: Mat, x: real, y: real, z: real)
    ensures Dot(Dot(a, b, c, n.a, n.d, n.g), Dot(a, b, c, n.b, n.e, n.h), Dot(a, b, c, n.c, n.f, n.i), x, y, z)
         == Dot(a, b, c, Dot(n.a, n.b, n.c, x, y, z), Dot(n.d, n.e, n.f, x, y, z), Dot(n.g, n.h, n.i, x, y, z))
  {
  }

  lemma MulVecAssociative(m: Mat, n: Mat, v: Vec)
    ensures MulVec(Mul(m, n), v) == MulVec(m, MulVec(n, v))
  {
    hide Dot;
    DotOfDots(m.a, m.b, m.c, n, v.x, v.y, v.z);
    DotOfDots(m.d, m.e, m.f, n, v.x, v.y, v.z);
    DotOfDots(m.g, m.h, m.i, n, v.x, v.y, v.z);
  }

  // Column by column.
  lemma MulAssociative(m: Mat, n: Mat, o: Mat)
    ensures Mul(Mul(m, n), o) == Mul(m, Mul(n, o))
  {
    hide Dot;
    MulVecAssociative(m, n, Vec(o.a, o.d, o.g));
    MulVecAssociative(m, n, Vec(o.b, o.e, o.h));
    MulVecAssociative(m, n, Vec(o.c, o.f, o.i));
  }

  lemma IdentityNeutral(m: Mat, v: Vec)
    ensures Mul(IDENTITY, m) == m == Mul(m, IDENTITY)
    ensures MulVec(IDENTITY, v) == v
  {
  }

  // A row times a column of the adjugate is the determinant with that row put in.
  lemma RowTimesAdjugate(m: Mat, x: real, y: real, z: real)
    ensures Dot(x, y, z, Minor(m.e, m.f, m.h, m.i), -Minor(m.d, m.f, m.g, m.i), Minor(m.d, m.e, m.g, m.h))
         == Det3(x, y, z, m.d, m.e, m.f, m.g, m.h, m.i)
    ensures Dot(x, y, z, -Minor(m.b, m.c, m.h, m.i), Minor(m.a, m.c, m.g, m.i), -Minor(m.a, m.b, m.g, m.h))
         == Det3(m.a, m.b, m.c, x, y, z, m.g, m.h, m.i)
    ensures Dot(x, y, z, Minor(m.b, m.c, m.e, m.f), -Minor(m.a, m.c, m.d, m.f), Minor(m.a, m.b, m.d, m.e))
         == Det3(m.a, m.b, m.c, m.d, m.e, m.f, x, y, z)
  {
  }

  lemma EqualRows(x: real, y: real, z: real, p: real, q: real, r: real)
    ensures Det3(x, y, z, x, y, z, p, q, r) == 0.0
    ensures Det3(x, y, z, p, q, r, x, y, z) == 0.0
    ensures Det3(p, q, r, x, y, z, x, y, z) == 0.0
  {
  }

  lemma AdjugateRight(m: Mat)
    ensures Mul(m, Adjugate(m)) == Times(Det(m), IDENTITY)
  {
    hide Dot, Minor, Det3;
    RowTimesAdjugate(m, m.a, m.b, m.c);
    RowTimesAdjugate(m, m.d, m.e, m.f);
    RowTimesAdjugate(m, m.g, m.h, m.i);
    EqualRows(m.a, m.b, m.c, m.d, m.e, m.f);
    EqualRows(m.a, m.b, m.c, m.g, m.h, m.i);
    EqualRows(m.d, m.e, m.f, m.a, m.b, m.c);
    EqualRows(m.d, m.e, m.f, m.g, m.h, m.i);
    EqualRows(m.g, m.h, m.i, m.a, m.b, m.c);
    EqualRows(m.g, m.h, m.i, m.d, m.e, m.f);
  }

  // Everything about columns follows from the rows of the transpose.
  function Transpose(m: Mat): Mat {
    Mat(m.a, m.d, m.g, m.b, m.e, m.h, m.c, m.f, m.i)
  }

  lemma DotFlips(a: real, b: real, c: real, x: real, y: real, z: real)
    ensures Dot(a, b, c, x, y, z) == Dot(x, y, z, a, b, c)
  {
  }

  lemma TransposeFlips(m: Mat, n: Mat)
    ensures Transpose(Mul(m, n)) == Mul(Transpose(n), Transpose(m))
  {
    hide Dot;
    DotFlips(m.a, m.b, m.c, n.a, n.d, n.g);
    DotFlips(m.a, m.b, m.c, n.b, n.e, n.h);
    DotFlips(m.a, m.b, m.c, n.c, n.f, n.i);
    DotFlips(m.d, m.e, m.f, n.a, n.d, n.g);
    DotFlips(m.d, m.e, m.f, n.b, n.e, n.h);
    DotFlips(m.d, m.e, m.f, n.c, n.f, n.i);
    DotFlips(m.g, m.h, m.i, n.a, n.d, n.g);
    DotFlips(m.g, m.h, m.i, n.b, n.e, n.h);
    DotFlips(m.g, m.h, m.i, n.c, n.f, n.i);
  }

  lemma MinorFlips(p: real, q: real, r: real, s: real)
    ensures Minor(p, q, r, s) == Minor(p, r, q, s)
  {
  }

  lemma TransposeOfAdjugate(m: Mat)
    ensures Transpose(Adjugate(m)) == Adjugate(Transpose(m))
  {
    hide Minor;
    MinorFlips(m.e, m.f, m.h, m.i);
    MinorFlips(m.b, m.c, m.h, m.i);
    MinorFlips(m.b, m.c, m.e, m.f);
    MinorFlips(m.d, m.f, m.g, m.i);
    MinorFlips(m.a, m.c, m.g, m.i);
    MinorFlips(m.a, m.c, m.d, m.f);
    MinorFlips(m.d, m.e, m.g, m.h);
    MinorFlips(m.a, m.b, m.g, m.h);
    MinorFlips(m.a, m.b, m.d, m.e);
  }

  lemma DetOfTranspose(m: Mat)
    ensures Det(Transpose(m)) == Det(m)
  {
  }

  lemma TransposeOfTimesIdentity(s: real)
    ensures Transpose(Times(s, IDENTITY)) == Times(s, IDENTITY)
  {
  }

  lemma AdjugateLeft(m: Mat)
    ensures Mul(Adjugate(m), m) == Times(Det(m), IDENTITY)
  {
    hide Mul, Adjugate, Det, Times;
    var t := Transpose(m);
    AdjugateRight(t);
    TransposeOfAdjugate(m);
    TransposeFlips(Adjugate(m), m);
    DetOfTranspose(m);
    TransposeOfTimesIdentity(Det(m));
    assert Transpose(Transpose(Mul(Adjugate(m), m))) == Mul(Adjugate(m), m);
  }

  lemma DotTimes(s: real, a: real, b: real, c: real, x: real, y: real, z: real)
    ensures Dot(a, b, c, Prod(s, x), Prod(s, y), Prod(s, z)) == Prod(s, Dot(a, b, c, x, y, z))
    ensures Dot(Prod(s, a), Prod(s, b), Prod(s, c), x, y, z) == Prod(s, Dot(a, b, c, x, y, z))
  {
  }

  lemma TimesThroughMul(s: real, m: Mat, n: Mat)
    ensures Mul(m, Times(s, n)) == Times(s, Mul(m, n))
    ensures Mul(Times(s, m), n) == Times(s, Mul(m, n))
  {
    hide Dot, Prod;
    DotTimes(s, m.a, m.b, m.c, n.a, n.d, n.g);
    DotTimes(s, m.a, m.b, m.c, n.b, n.e, n.h);
    DotTimes(s, m.a, m.b, m.c, n.c, n.f, n.i);
    DotTimes(s, m.d, m.e, m.f, n.a, n.d, n.g);
    DotTimes(s, m.d, m.e, m.f, n.b, n.e, n.h);
    DotTimes(s, m.d, m.e, m.f, n.c, n.f, n.i);
    DotTimes(s, m.g, m.h, m.i, n.a, n.d, n.g);
    DotTimes(s, m.g, m.h, m.i, n.b, n.e, n.h);
    DotTimes(s, m.g, m.h, m.i, n.c, n.f, n.i);
  }

  lemma TimesCancel(s: real)
    requires s != 0.0
    ensures Times(1.0 / s, Times(s, IDENTITY)) == IDENTITY
  {
    assert 1.0 / s * s == 1.0;
  }

  lemma InverseIsExact(m: Mat)
    requires Det(m) != 0.0
    ensures Mul(m, Invert(m)) == IDENTITY == Mul(Invert(m), m)
  {
    AdjugateRight(m);
    AdjugateLeft(m);
    TimesThroughMul(1.0 / Det(m), m, Adjugate(m));
    TimesThroughMul(1.0 / Det(m), Adjugate(m), m);
    TimesCancel(Det(m));
  }

  lemma DetOfScaledColumns(m: Mat, s: Vec)
    ensures Det(ScaleColumns(m, s)) == s.x * s.y * s.z * Det(m)
  {
  }

  // ---- Theorems ----

  // The conversion matrix exists exactly for regular primaries.
  lemma RegularExactly(p: Primaries)
    requires Det(PrimaryColumns(p)) != 0.0
    ensures Det(ToXyz(p)) != 0.0 <==> Regular(p)
  {
    var s := Luminances(p);
    DetOfScaledColumns(PrimaryColumns(p), s);
    ProductNonZero(s.x, s.y, s.z, Det(PrimaryColumns(p)));
  }

  lemma ProductNonZero(x: real, y: real, z: real, d: real)
    requires d != 0.0
    ensures x * y * z * d != 0.0 <==> x != 0.0 && y != 0.0 && z != 0.0
  {
    NonZeroTimes(x, y);
    NonZeroTimes(x * y, z);
    NonZeroTimes(x * y * z, d);
  }

  lemma NonZeroTimes(x: real, y: real)
    ensures x * y != 0.0 <==> x != 0.0 && y != 0.0
  {
  }

  // Full red, green and blue make white.
  lemma WhiteIsWhite(p: Primaries)
    requires Det(PrimaryColumns(p)) != 0.0
    ensures MulVec(ToXyz(p), ONE) == XyToXyz(p.white)
  {
    var m, w := PrimaryColumns(p), XyToXyz(p.white);
    var s := Luminances(p);
    assert MulVec(ScaleColumns(m, s), ONE) == MulVec(m, s);
    MulVecAssociative(m, Invert(m), w);
    InverseIsExact(m);
    IdentityNeutral(m, w);
  }

  // v has the chromaticity q: its first two coordinates are q's shares of the sum of all three.
  predicate HasChromaticity(v: Vec, q: Xy) {
    var sum := v.x + v.y + v.z;
    v.x == q.x * sum && v.y == q.y * sum
  }

  // Full red alone has the chromaticity of the red primary, full green that of the green one and
  // full blue that of the blue one; each is brighter than black exactly if it contributes to white.
  lemma PrimariesAreThemselves(p: Primaries)
    requires Det(PrimaryColumns(p)) != 0.0 && p.red.y != 0.0 && p.green.y != 0.0 && p.blue.y != 0.0
    ensures var m := ToXyz(p);
            var r, g, b := MulVec(m, Vec(1.0, 0.0, 0.0)), MulVec(m, Vec(0.0, 1.0, 0.0)), MulVec(m, Vec(0.0, 0.0, 1.0));
            && HasChromaticity(r, p.red) && HasChromaticity(g, p.green) && HasChromaticity(b, p.blue)
            && (r.y != 0.0 && g.y != 0.0 && b.y != 0.0 <==> Regular(p))
            && (p.white.y != 0.0 ==> r.y + g.y + b.y == 1.0)
  {
    hide Luminances, Det, HasChromaticity, XyToXyz, MulVec, Dot, ScaleColumns;
    var s := Luminances(p);
    var x, y, z := XyToXyz(p.red), XyToXyz(p.green), XyToXyz(p.blue);
    ColumnsOf(x, y, z, s);
    ScaledChromaticity(p.red, s.x, MulVec(ToXyz(p), Vec(1.0, 0.0, 0.0)));
    ScaledChromaticity(p.green, s.y, MulVec(ToXyz(p), Vec(0.0, 1.0, 0.0)));
    ScaledChromaticity(p.blue, s.z, MulVec(ToXyz(p), Vec(0.0, 0.0, 1.0)));
    WhiteIsWhite(p);
    LuminanceOfXy(p.white);
    SumOfColumns(ToXyz(p));
  }

  lemma ColumnsOf(x: Vec, y: Vec, z: Vec, s: Vec)
    ensures var m := ScaleColumns(Columns(x, y, z), s);
            && MulVec(m, Vec(1.0, 0.0, 0.0)) == Vec(s.x * x.x, s.x * x.y, s.x * x.z)
            && MulVec(m, Vec(0.0, 1.0, 0.0)) == Vec(s.y * y.x, s.y * y.y, s.y * y.z)
            && MulVec(m, Vec(0.0, 0.0, 1.0)) == Vec(s.z * z.x, s.z * z.y, s.z * z.z)
  {
  }

  lemma SumOfColumns(m: Mat)
    ensures MulVec(m, Vec(1.0, 0.0, 0.0)).y + MulVec(m, Vec(0.0, 1.0, 0.0)).y + MulVec(m, Vec(0.0, 0.0, 1.0)).y
         == MulVec(m, ONE).y
  {
  }

  lemma ScaledChromaticity(q: Xy, s: real, u: Vec)
    requires q.y != 0.0
    requires var v := XyToXyz(q); u == Vec(s * v.x, s * v.y, s * v.z)
    ensures u.y == s && HasChromaticity(u, q)
  {
    var v := XyToXyz(q);
    var sum := v.x + v.y + v.z;
    Shares(q.x, q.y, sum, v.x, v.z);
    Distributes(s, v.x, v.y, v.z);
    Reassociates(s, q.x, sum);
    Reassociates(s, q.y, sum);
  }

  lemma Shares(x: real, y: real, sum: real, p: real, q: real)
    requires y != 0.0 && p == x / y && q == (1.0 - x - y) / y && sum == p + 1.0 + q
    ensures y * sum == 1.0 && x * sum == p
  {
    assert p * y == x && q * y == 1.0 - x - y;
    assert sum * y == 1.0;
    assert x * sum == p * (y * sum);
  }

  lemma Distributes(s: real, a: real, b: real, c: real)
    ensures s * a + s * b + s * c == s * (a + b + c)
  {
  }

  lemma Reassociates(s: real, a: real, b: real)
    ensures a * (s * b) == s * (a * b)
  {
  }

  lemma LuminanceOfXy(q: Xy)
    ensures q.y != 0.0 ==> XyToXyz(q).y == 1.0
  {
  }

  // Converting A to B and then B to C is converting A to C.
  lemma ConversionsCompose(a: Primaries, b: Primaries, c: Primaries)
    requires Regular(a) && Regular(b) && Regular(c)
    ensures Det(ToXyz(b)) != 0.0 && Det(ToXyz(c)) != 0.0
    ensures Mul(Convert(b, c), Convert(a, b)) == Convert(a, c)
  {
    RegularExactly(b);
    RegularExactly(c);
    var x, y, z := ToXyz(a), ToXyz(b), Invert(ToXyz(c));
    var yi := Invert(y);
    MulAssociative(z, y, Mul(yi, x));
    MulAssociative(y, yi, x);
    InverseIsExact(y);
    IdentityNeutral(x, ONE);
  }

  // There and back is the identity.
  lemma ConversionRoundTrip(a: Primaries, b: Primaries)
    requires Regular(a) && Regular(b)
    ensures Det(ToXyz(a)) != 0.0 && Det(ToXyz(b)) != 0.0
    ensures Mul(Convert(b, a), Convert(a, b)) == IDENTITY
  {
    ConversionsCompose(a, b, a);
    InverseIsExact(ToXyz(a));
  }

  // Primaries that agree on white convert white to white.
  lemma ConversionKeepsWhite(a: Primaries, b: Primaries)
    requires Regular(a) && Regular(b) && a.white == b.white
    ensures Det(ToXyz(b)) != 0.0
    ensures MulVec(Convert(a, b), ONE) == ONE
  {
    RegularExactly(b);
    var y := ToXyz(b);
    WhiteIsWhite(a);
    WhiteIsWhite(b);
    MulVecAssociative(Invert(y), ToXyz(a), ONE);
    MulVecAssociative(Invert(y), y, ONE);
    InverseIsExact(y);
    IdentityNeutral(y, ONE);
  }

  // Cramer's rule: what the adjugate makes of white decides whether every primary contributes.
  lemma RegularByCramer(p: Primaries)
    requires Det(PrimaryColumns(p)) != 0.0
    requires var n := MulVec(Adjugate(PrimaryColumns(p)), XyToXyz(p.white)); n.x != 0.0 && n.y != 0.0 && n.z != 0.0
    ensures Regular(p)
  {
    hide Dot, Minor, Det3, Prod;
    var m, w := PrimaryColumns(p), XyToXyz(p.white);
    var s, a := 1.0 / Det(m), Adjugate(m);
    DotTimes(s, a.a, a.b, a.c, w.x, w.y, w.z);
    DotTimes(s, a.d, a.e, a.f, w.x, w.y, w.z);
    DotTimes(s, a.g, a.h, a.i, w.x, w.y, w.z);
    var n := MulVec(a, w);
    ReciprocalKeeps(Det(m), n.x);
    ReciprocalKeeps(Det(m), n.y);
    ReciprocalKeeps(Det(m), n.z);
  }

  lemma ReciprocalKeeps(d: real, x: real)
    requires d != 0.0 && x != 0.0
    ensures Prod(1.0 / d, x) != 0.0
  {
    assert 1.0 / d * d == 1.0;
    NonZeroTimes(1.0 / d, x);
  }

  // White of both named sets (D65), in XYZ.
  const D65: Vec := Vec(3127.0 / 3290.0, 1.0, 3583.0 / 3290.0)

  lemma SrgbColumns()
    ensures PrimaryColumns(SRGB) == Mat(64.0 / 33.0, 0.5, 2.5, 1.0, 1.0, 1.0, 1.0 / 11.0, 1.0 / 6.0, 79.0 / 6.0)
    ensures XyToXyz(SRGB.white) == D65
  {
  }

  lemma SrgbNumbers()
    ensures var m := Mat(64.0 / 33.0, 0.5, 2.5, 1.0, 1.0, 1.0, 1.0 / 11.0, 1.0 / 6.0, 79.0 / 6.0);
            && Det(m) == 415.0 / 22.0
            && MulVec(Adjugate(m), D65) == Vec(3959.0 / 987.0, 439405.0 / 32571.0, 12673.0 / 9306.0)
  {
  }

  lemma Bt2020Columns()
    ensures PrimaryColumns(BT2020)
         == Mat(177.0 / 73.0, 170.0 / 797.0, 131.0 / 46.0, 1.0, 1.0, 1.0, 0.0, 33.0 / 797.0, 823.0 / 46.0)
    ensures XyToXyz(BT2020.white) == D65
  {
  }

  lemma Bt2020Numbers()
    ensures var m := Mat(177.0 / 73.0, 170.0 / 797.0, 131.0 / 46.0, 1.0, 1.0, 1.0, 0.0, 33.0 / 797.0, 823.0 / 46.0);
            && Det(m) == 52966625.0 / 1338163.0
            && MulVec(Adjugate(m), D65)
                 == Vec(8958550.0 / 861557.0, 14824100.0 / 552391.0, 44930125.0 / 19141549.0)
  {
  }

  // The named primaries can be converted in either direction.
  lemma NamedAreRegular()
    ensures Regular(SRGB) && Regular(BT2020)
  {
    hide Regular, Det, MulVec, Adjugate, PrimaryColumns, XyToXyz;
    SrgbColumns();
    SrgbNumbers();
    RegularByCramer(SRGB);
    Bt2020Columns();
    Bt2020Numbers();
    RegularByCramer(BT2020);
  }
}

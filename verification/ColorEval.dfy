// Evaluation of a transform on buffers of three floats. The output buffer may be the input
// buffer: that is how a pipeline feeds its own colour through its parts.
// subprojects/wlroots/render/color.c, wlr_color_transform_eval.

module ColorEval {
  import opened Color
  import Primaries

  // The curves and profiles themselves are foreign here. eotf and lut work on one channel.
  datatype Curves = Curves(
    eotf: (nat, real) -> real,
    lut: (seq<nat>, real) -> real,
    lcms: (nat, Rgb) -> Rgb)

  function At(m: seq<real>, i: nat): real {
    if i < |m| then m[i] else 0.0
  }

  function Times(m: seq<real>, v: Rgb): Rgb {
    Rgb(At(m, 0) * v.r + At(m, 1) * v.g + At(m, 2) * v.b,
        At(m, 3) * v.r + At(m, 4) * v.g + At(m, 5) * v.b,
        At(m, 6) * v.r + At(m, 7) * v.g + At(m, 8) * v.b)
  }

  // What each leaf does to a colour.
  function Apply(cs: Curves, op: Op, v: Rgb): Rgb {
    match op
    case InverseEotf(tf) => Rgb(cs.eotf(tf, v.r), cs.eotf(tf, v.g), cs.eotf(tf, v.b))
    case Lcms2(profile) => cs.lcms(profile, v)
    case Lut3x1d(r, g, b) => Rgb(cs.lut(r, v.r), cs.lut(g, v.g), cs.lut(b, v.b))
    case Matrix(m) => Times(m, v)
  }

  // ---- What the leaves mean ----

  function RowByRow(m: Primaries.Mat): seq<real> {
    [m.a, m.b, m.c, m.d, m.e, m.f, m.g, m.h, m.i]
  }

  function AsVec(v: Rgb): Primaries.Vec {
    Primaries.Vec(v.r, v.g, v.b)
  }

  lemma MatrixMultiplies(m: Primaries.Mat, v: Rgb)
    ensures AsVec(Times(RowByRow(m), v)) == Primaries.MulVec(m, AsVec(v))
  {
  }

  // x is followed by y, and nothing else happens.
  predicate InSuccession(k: Kinds, p: Ptr, x: Op, y: Op) {
    && p in k && k[p].Pipeline? && |k[p].parts| == 2
    && k[p].parts[0] in k && k[k[p].parts[0]] == Leaf(x)
    && k[p].parts[1] in k && k[k[p].parts[1]] == Leaf(y)
  }

  lemma SuccessionEvaluates(k: Kinds, cs: Curves, p: Ptr, x: Op, y: Op, v: Rgb)
    requires WellFormed(k) && InSuccession(k, p, x, y)
    ensures Eval(k, (op, u) => Apply(cs, op, u), p, v) == Apply(cs, y, Apply(cs, x, v))
  {
    assert WellBuilt(k, p);
    var parts, ops := k[p].parts, (op, u) => Apply(cs, op, u);
    assert parts[0] in parts && parts[1] in parts;
    assert parts[1..] == [parts[1]] && parts[1..][1..] == [];
    var u := Eval(k, ops, parts[0], v);
    assert EvalList(k, ops, parts[1..], u) == Eval(k, ops, parts[1], u);
  }

  // A pipeline that converts to other primaries and back leaves every colour as it was.
  lemma ConvertedAndBack(k: Kinds, cs: Curves, p: Ptr, a: Primaries.Primaries, b: Primaries.Primaries, v: Rgb)
    requires WellFormed(k)
    requires Primaries.Det(Primaries.PrimaryColumns(a)) != 0.0 && Primaries.Det(Primaries.ToXyz(a)) != 0.0
    requires Primaries.Det(Primaries.PrimaryColumns(b)) != 0.0 && Primaries.Det(Primaries.ToXyz(b)) != 0.0
    requires InSuccession(k, p, Matrix(RowByRow(Primaries.Convert(a, b))), Matrix(RowByRow(Primaries.Convert(b, a))))
    ensures Eval(k, (op, u) => Apply(cs, op, u), p, v) == v
  {
    hide Times, Primaries.MulVec, Primaries.Mul, RowByRow, Primaries.Convert, Primaries.Regular, Eval;
    var there, back := Primaries.Convert(a, b), Primaries.Convert(b, a);
    SuccessionEvaluates(k, cs, p, Matrix(RowByRow(there)), Matrix(RowByRow(back)), v);
    MatrixMultiplies(there, v);
    MatrixMultiplies(back, Times(RowByRow(there), v));
    Primaries.RegularExactly(a);
    Primaries.RegularExactly(b);
    Primaries.ConversionRoundTrip(a, b);
    Primaries.MulVecAssociative(back, there, AsVec(v));
    Primaries.IdentityNeutral(there, AsVec(v));
  }

  // Three tables followed by their inverses, channel by channel, leave every colour as it was.
  lemma TablesAndTheirInverses(k: Kinds, cs: Curves, p: Ptr, r: seq<nat>, g: seq<nat>, b: seq<nat>,
                               r': seq<nat>, g': seq<nat>, b': seq<nat>, v: Rgb)
    requires WellFormed(k) && InSuccession(k, p, Lut3x1d(r, g, b), Lut3x1d(r', g', b'))
    requires cs.lut(r', cs.lut(r, v.r)) == v.r
    requires cs.lut(g', cs.lut(g, v.g)) == v.g
    requires cs.lut(b', cs.lut(b, v.b)) == v.b
    ensures Eval(k, (op, u) => Apply(cs, op, u), p, v) == v
  {
    hide Eval;
    SuccessionEvaluates(k, cs, p, Lut3x1d(r, g, b), Lut3x1d(r', g', b'), v);
  }

  // A curve followed by its inverse leaves every colour as it was.
  lemma CurveAndItsInverse(k: Kinds, cs: Curves, p: Ptr, tf: nat, tf': nat, v: Rgb)
    requires WellFormed(k) && InSuccession(k, p, InverseEotf(tf), InverseEotf(tf'))
    requires forall x: real {:trigger cs.eotf(tf, x)} :: cs.eotf(tf', cs.eotf(tf, x)) == x
    ensures Eval(k, (op, u) => Apply(cs, op, u), p, v) == v
  {
    hide Eval;
    SuccessionEvaluates(k, cs, p, InverseEotf(tf), InverseEotf(tf'), v);
  }

  // A curve treats the channels alike: grey stays grey, on the curve. So do three equal tables.
  lemma GreyStaysGrey(cs: Curves, tf: nat, table: seq<nat>, x: real)
    ensures Apply(cs, InverseEotf(tf), Rgb(x, x, x)) == Rgb(cs.eotf(tf, x), cs.eotf(tf, x), cs.eotf(tf, x))
    ensures Apply(cs, Lut3x1d(table, table, table), Rgb(x, x, x)) == Rgb(cs.lut(table, x), cs.lut(table, x), cs.lut(table, x))
  {
  }

  // Two profiles in one pipeline are applied to the whole colour, one after the other.
  lemma ProfilesCompose(k: Kinds, cs: Curves, p: Ptr, first: nat, second: nat, v: Rgb)
    requires WellFormed(k) && InSuccession(k, p, Lcms2(first), Lcms2(second))
    ensures Eval(k, (op, u) => Apply(cs, op, u), p, v) == cs.lcms(second, cs.lcms(first, v))
  {
    hide Eval;
    SuccessionEvaluates(k, cs, p, Lcms2(first), Lcms2(second), v);
  }

  // ---- In place ----

  function Load(a: seq<real>): Rgb
    requires |a| == 3
  {
    Rgb(a[0], a[1], a[2])
  }

  method Store(dst: array<real>, v: Rgb)
    requires dst.Length == 3
    modifies dst
    ensures Load(dst[..]) == v
  {
    dst[0] := v.r;
    dst[1] := v.g;
    dst[2] := v.b;
  }

  // Reads channel i just before it writes channel i.
  method EvalInverseEotf(cs: Curves, tf: nat, dst: array<real>, src: array<real>)
    requires dst.Length == 3 && src.Length == 3
    modifies dst
    ensures Load(dst[..]) == Apply(cs, InverseEotf(tf), old(Load(src[..])))
  {
    for i := 0 to 3
      invariant forall j :: i <= j < 3 ==> src[j] == old(src[j])
      invariant forall j :: 0 <= j < i ==> dst[j] == cs.eotf(tf, old(src[j]))
    {
      dst[i] := cs.eotf(tf, src[i]);
    }
  }

  method EvalLut(cs: Curves, lut: seq<seq<nat>>, dst: array<real>, src: array<real>)
    requires |lut| == 3 && dst.Length == 3 && src.Length == 3
    modifies dst
    ensures Load(dst[..]) == Apply(cs, Lut3x1d(lut[0], lut[1], lut[2]), old(Load(src[..])))
  {
    for i := 0 to 3
      invariant forall j :: i <= j < 3 ==> src[j] == old(src[j])
      invariant forall j :: 0 <= j < i ==> dst[j] == cs.lut(lut[j], old(src[j]))
    {
      dst[i] := cs.lut(lut[i], src[i]);
    }
  }

  // The product is complete before the first channel is written.
  method EvalMatrix(m: seq<real>, dst: array<real>, src: array<real>)
    requires dst.Length == 3 && src.Length == 3
    modifies dst
    ensures Load(dst[..]) == Times(m, old(Load(src[..])))
  {
    var result := Times(m, Load(src[..]));
    Store(dst, result);
  }

  // Whether or not dst and src are the same buffer, dst ends up holding what the transform
  // makes of the colour src held.
  method EvalTransform(k: Kinds, cs: Curves, p: Ptr, dst: array<real>, src: array<real>)
    requires WellFormed(k) && p in k
    requires dst.Length == 3 && src.Length == 3
    modifies dst
    ensures Load(dst[..]) == Eval(k, (op, v) => Apply(cs, op, v), p, old(Load(src[..])))
    decreases p
  {
    match k[p]
    case Leaf(InverseEotf(tf)) =>
      EvalInverseEotf(cs, tf, dst, src);
    case Leaf(Lcms2(profile)) =>
      Store(dst, cs.lcms(profile, Load(src[..])));
    case Leaf(Lut3x1d(r, g, b)) =>
      EvalLut(cs, [r, g, b], dst, src);
    case Leaf(Matrix(m)) =>
      EvalMatrix(m, dst, src);
    case Pipeline(parts) =>
      assert WellBuilt(k, p);
      var color := new real[3];
      Store(color, Load(src[..]));
      ghost var ops := (op, v) => Apply(cs, op, v);
      ghost var goal := EvalList(k, ops, parts, Load(src[..]));
      assert parts[0..] == parts;
      var i := 0;
      while i < |parts|
        invariant 0 <= i <= |parts|
        invariant Color.Valid(k, parts[i..])
        invariant EvalList(k, ops, parts[i..], Load(color[..])) == goal
        invariant dst[..] == old(dst[..])
      {
        assert parts[i] in parts;
        assert parts[i..][1..] == parts[i + 1..];
        EvalTransform(k, cs, parts[i], color, color);
        i := i + 1;
      }
      assert parts[i..] == [];
      Store(dst, Load(color[..]));
  }
}

// Colour transforms: leaf operations and pipelines of shared, reference-counted transforms.
// subprojects/wlroots/render/color.c, color_transform_compose_collect and
// color_transform_compose. This file holds the value-level account; ColorHeap.dfy has the
// operations that change memory, and ColorEval.dfy evaluation on buffers.

module Color {

  // A pointer to a transform; 0 is the null pointer.
  type Ptr = nat

  const NULL: Ptr := 0

  datatype Op =
    | InverseEotf(tf: nat)
    | Lcms2(profile: nat)
    | Lut3x1d(r: seq<nat>, g: seq<nat>, b: seq<nat>)
    | Matrix(m: seq<real>)

  datatype Kind = Leaf(op: Op) | Pipeline(parts: seq<Ptr>)

  type Kinds = map<Ptr, Kind>

  // A pipeline is built from transforms that existed before it, is not empty and holds no null
  // pointer: wlr_color_transform_init_pipeline asserts the last two.
  ghost predicate WellFormed(k: Kinds) {
    && NULL !in k
    && forall i :: i in k && k[i].Pipeline? ==> WellBuilt(k, i)
  }

  ghost predicate WellBuilt(k: Kinds, i: Ptr)
    requires i in k && k[i].Pipeline?
  {
    k[i].parts != [] && forall p :: p in k[i].parts ==> p in k && p < i
  }

  ghost predicate Valid(k: Kinds, list: seq<Ptr>) {
    forall p :: p in list ==> p == NULL || p in k
  }

  // The largest pointer in a list: nested lists only hold smaller ones.
  function Top(list: seq<Ptr>): (t: nat)
    ensures forall p :: p in list ==> p <= t
    ensures if list == [] then t == 0 else t in list
  {
    if list == [] then 0
    else
      assert list == [list[0]] + list[1..];
      var t := Top(list[1..]);
      if list[0] > t || |list| == 1 then list[0] else t
  }

  // ---- Normal form ----

  // The leaves of a list, left to right, nested pipelines spliced in and null pointers skipped.
  function Flatten(k: Kinds, list: seq<Ptr>): seq<Ptr>
    requires WellFormed(k) && Valid(k, list)
    decreases Top(list), |list|
  {
    if list == [] then []
    else
      var p, rest := list[0], list[1..];
      if p == NULL then Flatten(k, rest)
      else match k[p]
        case Pipeline(parts) => Flatten(k, parts) + Flatten(k, rest)
        case Leaf(_) => [p] + Flatten(k, rest)
  }

  predicate AllLeaves(k: Kinds, list: seq<Ptr>) {
    forall p :: p in list ==> p in k && k[p].Leaf?
  }

  // No null pointer, no pipeline of length one, no nested pipeline.
  predicate Normal(k: Kinds, p: Ptr) {
    p == NULL ||
    (p in k && (k[p].Leaf? || (|k[p].parts| >= 2 && AllLeaves(k, k[p].parts))))
  }

  lemma {:induction false} FlattenGivesLeaves(k: Kinds, list: seq<Ptr>)
    requires WellFormed(k) && Valid(k, list)
    ensures AllLeaves(k, Flatten(k, list)) && NULL !in Flatten(k, list)
    decreases Top(list), |list|
  {
    if list != [] {
      FlattenGivesLeaves(k, list[1..]);
      if list[0] != NULL && k[list[0]].Pipeline? {
        FlattenGivesLeaves(k, k[list[0]].parts);
      }
    }
  }

  predicate AllNull(list: seq<Ptr>) {
    forall p :: p in list ==> p == NULL
  }

  lemma {:induction false} FlattenEmptyExactly(k: Kinds, list: seq<Ptr>)
    requires WellFormed(k) && Valid(k, list)
    ensures Flatten(k, list) == [] <==> AllNull(list)
    decreases Top(list), |list|
  {
    if list != [] {
      assert list == [list[0]] + list[1..];
      FlattenEmptyExactly(k, list[1..]);
      if list[0] != NULL && k[list[0]].Pipeline? {
        var parts := k[list[0]].parts;
        FlattenEmptyExactly(k, parts);
        assert parts[0] in parts;
      }
    }
  }

  lemma {:induction false} FlattenOfLeaves(k: Kinds, list: seq<Ptr>)
    requires WellFormed(k) && AllLeaves(k, list)
    ensures Flatten(k, list) == list
  {
    if list != [] {
      FlattenOfLeaves(k, list[1..]);
      assert list == [list[0]] + list[1..];
    }
  }

  // ---- The collecting pass as written ----

  // What the pass leaves in the buffer when it may write cap cells from off on. After a nested
  // pipeline the caller's cursor and capacity are where they were before it.
  function Fill(k: Kinds, buf: seq<Ptr>, off: nat, cap: nat, list: seq<Ptr>): (r: seq<Ptr>)
    requires WellFormed(k) && Valid(k, list) && off + cap <= |buf|
    ensures |r| == |buf|
    decreases Top(list), |list|
  {
    if list == [] then buf
    else
      var p, rest := list[0], list[1..];
      if p == NULL then Fill(k, buf, off, cap, rest)
      else match k[p]
        case Pipeline(parts) => Fill(k, Fill(k, buf, off, cap, parts), off, cap, rest)
        case Leaf(_) =>
          if cap > 0 then Fill(k, buf[off := p], off + 1, cap - 1, rest)
          else Fill(k, buf, off, cap, rest)
  }

  lemma NothingLeft(k: Kinds)
    requires WellFormed(k)
    ensures Flatten(k, []) == []
    ensures forall buf, off: nat, cap: nat :: off + cap <= |buf| ==> Fill(k, buf, off, cap, []) == buf
  {
  }

  // What one entry of a list contributes, and what it writes.
  function Entry(k: Kinds, p: Ptr): seq<Ptr>
    requires WellFormed(k) && (p == NULL || p in k)
  {
    if p == NULL then []
    else if k[p].Leaf? then [p]
    else assert WellBuilt(k, p); Flatten(k, k[p].parts)
  }

  function FillEntry(k: Kinds, buf: seq<Ptr>, off: nat, cap: nat, p: Ptr): (r: seq<Ptr>)
    requires WellFormed(k) && (p == NULL || p in k) && off + cap <= |buf|
    ensures |r| == |buf|
  {
    if p == NULL then buf
    else if k[p].Leaf? then (if cap > 0 then buf[off := p] else buf)
    else assert WellBuilt(k, p); Fill(k, buf, off, cap, k[p].parts)
  }

  // One step of a loop over the list, for Flatten and for Fill.
  lemma FlattenStep(k: Kinds, list: seq<Ptr>, i: nat)
    requires WellFormed(k) && i < |list| && Valid(k, list[i..])
    ensures (list[i] == NULL || list[i] in k) && list[i] <= Top(list)
    ensures Valid(k, list[i + 1..])
    ensures Flatten(k, list[i..]) == Entry(k, list[i]) + Flatten(k, list[i + 1..])
  {
    assert list[i] in list[i..] && list[i] in list;
    assert list[i..][1..] == list[i + 1..];
  }

  lemma FillStep(k: Kinds, buf: seq<Ptr>, off: nat, cap: nat, list: seq<Ptr>, i: nat)
    requires WellFormed(k) && i < |list| && Valid(k, list[i..]) && Valid(k, list[i + 1..])
    requires list[i] == NULL || list[i] in k
    requires off + cap <= |buf|
    ensures var step := if list[i] != NULL && k[list[i]].Leaf? && cap > 0 then 1 else 0;
            Fill(k, buf, off, cap, list[i..]) ==
              Fill(k, FillEntry(k, buf, off, cap, list[i]), off + step, cap - step, list[i + 1..])
  {
    assert list[i..][1..] == list[i + 1..];
  }

  // How many cells, from the cursor on, the pass touches when it never runs out of capacity.
  function Extent(k: Kinds, list: seq<Ptr>): nat
    requires WellFormed(k) && Valid(k, list)
    decreases Top(list), |list|
  {
    if list == [] then 0
    else
      var p, rest := list[0], list[1..];
      if p == NULL then Extent(k, rest)
      else match k[p]
        case Pipeline(parts) =>
          var a, b := Extent(k, parts), Extent(k, rest);
          if a > b then a else b
        case Leaf(_) => 1 + Extent(k, rest)
  }

  // Nothing but null pointers follows a pipeline, here and inside every pipeline.
  predicate TailOnly(k: Kinds, list: seq<Ptr>)
    requires WellFormed(k) && Valid(k, list)
    decreases Top(list), |list|
  {
    list == [] ||
    var p, rest := list[0], list[1..];
    if p == NULL || k[p].Leaf? then TailOnly(k, rest)
    else TailOnly(k, k[p].parts) && AllNull(rest)
  }

  // The pass covers all the cells it counted exactly on those lists.
  lemma {:induction false} CoversExactly(k: Kinds, list: seq<Ptr>)
    requires WellFormed(k) && Valid(k, list)
    ensures Extent(k, list) <= |Flatten(k, list)|
    ensures Extent(k, list) == |Flatten(k, list)| <==> TailOnly(k, list)
    decreases Top(list), |list|
  {
    if list != [] {
      var p, rest := list[0], list[1..];
      CoversExactly(k, rest);
      if p != NULL && k[p].Pipeline? {
        var parts := k[p].parts;
        CoversExactly(k, parts);
        FlattenEmptyExactly(k, rest);
        FlattenEmptyExactly(k, parts);
        assert parts[0] in parts;
        if AllNull(rest) {
          NullsAreTailOnly(k, rest);
        }
      }
    }
  }

  lemma {:induction false} SingleIsTailOnly(k: Kinds, list: seq<Ptr>)
    requires WellFormed(k) && Valid(k, list) && |Flatten(k, list)| <= 1
    ensures TailOnly(k, list)
    decreases Top(list), |list|
  {
    if list != [] {
      var p, rest := list[0], list[1..];
      if p != NULL && k[p].Pipeline? {
        assert WellBuilt(k, p) && k[p].parts[0] in k[p].parts;
        FlattenEmptyExactly(k, k[p].parts);
        FlattenEmptyExactly(k, rest);
        SingleIsTailOnly(k, k[p].parts);
      } else {
        SingleIsTailOnly(k, rest);
      }
    }
  }

  lemma {:induction false} NullsAreTailOnly(k: Kinds, list: seq<Ptr>)
    requires WellFormed(k) && Valid(k, list) && AllNull(list)
    ensures TailOnly(k, list)
    ensures forall buf, off: nat, cap: nat :: off + cap <= |buf| ==> Fill(k, buf, off, cap, list) == buf
  {
    if list != [] {
      assert list[0] in list && forall p :: p in list[1..] ==> p in list;
      NullsAreTailOnly(k, list[1..]);
    }
  }

  // Outside the cells it touches the pass changes nothing.
  lemma {:induction false} FillOutside(k: Kinds, buf: seq<Ptr>, off: nat, cap: nat, list: seq<Ptr>, j: nat)
    requires WellFormed(k) && Valid(k, list) && off + cap <= |buf| && j < |buf|
    requires j < off || j >= off + Extent(k, list)
    ensures Fill(k, buf, off, cap, list)[j] == buf[j]
    decreases Top(list), |list|
  {
    if list != [] {
      var p, rest := list[0], list[1..];
      if p == NULL {
        FillOutside(k, buf, off, cap, rest, j);
      } else if k[p].Pipeline? {
        FillOutside(k, buf, off, cap, k[p].parts, j);
        FillOutside(k, Fill(k, buf, off, cap, k[p].parts), off, cap, rest, j);
      } else if cap > 0 {
        FillOutside(k, buf[off := p], off + 1, cap - 1, rest, j);
      } else {
        FillOutside(k, buf, off, cap, rest, j);
      }
    }
  }

  function Splice(buf: seq<Ptr>, off: nat, f: seq<Ptr>): (r: seq<Ptr>)
    requires off + |f| <= |buf|
    ensures |r| == |buf|
  {
    buf[..off] + f + buf[off + |f|..]
  }

  lemma SpliceNothing(buf: seq<Ptr>, off: nat)
    requires off <= |buf|
    ensures Splice(buf, off, []) == buf
  {
  }

  lemma SpliceOne(buf: seq<Ptr>, off: nat, p: Ptr)
    requires off < |buf|
    ensures Splice(buf, off, [p]) == buf[off := p]
  {
  }

  lemma SpliceTwice(buf: seq<Ptr>, off: nat, f: seq<Ptr>, g: seq<Ptr>)
    requires off + |f| + |g| <= |buf|
    ensures Splice(Splice(buf, off, f), off + |f|, g) == Splice(buf, off, f + g)
  {
    var b := Splice(buf, off, f);
    assert b[..off + |f|] == buf[..off] + f;
    assert b[off + |f| + |g|..] == buf[off + |f| + |g|..];
  }

  // On a tail-only list the pass writes the flattened list.
  lemma {:induction false} FillWritesFlatten(k: Kinds, buf: seq<Ptr>, off: nat, cap: nat, list: seq<Ptr>)
    requires WellFormed(k) && Valid(k, list) && off + cap <= |buf|
    requires TailOnly(k, list) && |Flatten(k, list)| <= cap
    ensures Fill(k, buf, off, cap, list) == Splice(buf, off, Flatten(k, list))
    decreases Top(list), |list|
  {
    if list != [] {
      var p, rest := list[0], list[1..];
      if p == NULL {
        FillWritesFlatten(k, buf, off, cap, rest);
      } else if k[p].Pipeline? {
        FillWritesFlatten(k, buf, off, cap, k[p].parts);
        NullsAreTailOnly(k, rest);
        FlattenEmptyExactly(k, rest);
      } else {
        assert buf[off := p] == Splice(buf, off, [p]);
        FillWritesFlatten(k, buf[off := p], off + 1, cap - 1, rest);
        SpliceTwice(buf, off, [p], Flatten(k, rest));
      }
    }
  }

  // The buffer the second pass leaves: calloc'd, as long as the first pass counted.
  function Collected(k: Kinds, list: seq<Ptr>): (buf: seq<Ptr>)
    requires WellFormed(k) && Valid(k, list)
    ensures |buf| == |Flatten(k, list)|
  {
    var n := |Flatten(k, list)|;
    Fill(k, seq(n, _ => NULL), 0, n, list)
  }

  // As written, the code collects the flattened list exactly when nothing but null pointers
  // follows a pipeline; otherwise it leaves a null pointer in the buffer.
  lemma CollectsExactly(k: Kinds, list: seq<Ptr>)
    requires WellFormed(k) && Valid(k, list)
    ensures Collected(k, list) == Flatten(k, list) <==> TailOnly(k, list)
    ensures NULL !in Collected(k, list) <==> TailOnly(k, list)
  {
    var f := Flatten(k, list);
    var zero := seq(|f|, _ => NULL);
    FlattenGivesLeaves(k, list);
    CoversExactly(k, list);
    if TailOnly(k, list) {
      FillWritesFlatten(k, zero, 0, |f|, list);
      assert Splice(zero, 0, f) == f;
    } else {
      var last := |f| - 1;
      FillOutside(k, zero, 0, |f|, list, last);
      assert Collected(k, list)[last] == NULL;
    }
  }

  // What a scene output passes when it has no colour matrix, a supplied transform that is a
  // pipeline, and a gamma table (subprojects/wlroots/types/scene/wlr_scene.c:2258-2266): it is
  // never collected right.
  lemma GammaAfterPipeline(k: Kinds, supplied: Ptr, gamma: Ptr)
    requires WellFormed(k) && supplied in k && k[supplied].Pipeline? && gamma in k && k[gamma].Leaf?
    ensures Valid(k, [NULL, supplied, gamma])
    ensures !TailOnly(k, [NULL, supplied, gamma]) && NULL in Collected(k, [NULL, supplied, gamma])
  {
    assert [NULL, supplied, gamma][1..] == [supplied, gamma] && [supplied, gamma][1..] == [gamma];
    assert gamma in [gamma];
    assert !AllNull([gamma]);
    assert !TailOnly(k, [supplied, gamma]);
    CollectsExactly(k, [NULL, supplied, gamma]);
  }

  const SUPPLIED: Kinds :=
    map[1 := Leaf(Matrix([])), 2 := Leaf(InverseEotf(0)), 3 := Pipeline([1, 2]), 4 := Leaf(Lut3x1d([], [], []))]

  lemma GammaAfterPipelineWitness()
    ensures WellFormed(SUPPLIED) && Valid(SUPPLIED, [NULL, 3, 4])
    ensures !TailOnly(SUPPLIED, [NULL, 3, 4]) && NULL in Collected(SUPPLIED, [NULL, 3, 4])
  {
    assert WellBuilt(SUPPLIED, 3);
    GammaAfterPipeline(SUPPLIED, 3, 4);
  }

  // Overwriting loses references but never invents one.
  lemma {:induction false} FillAddsOnlyLeaves(k: Kinds, buf: seq<Ptr>, off: nat, cap: nat, list: seq<Ptr>)
    requires WellFormed(k) && Valid(k, list) && off + cap <= |buf|
    ensures multiset(Fill(k, buf, off, cap, list)) <= multiset(buf) + multiset(Flatten(k, list))
    decreases Top(list), |list|
  {
    if list != [] {
      var p, rest := list[0], list[1..];
      if p == NULL {
        FillAddsOnlyLeaves(k, buf, off, cap, rest);
      } else if k[p].Pipeline? {
        FillAddsOnlyLeaves(k, buf, off, cap, k[p].parts);
        FillAddsOnlyLeaves(k, Fill(k, buf, off, cap, k[p].parts), off, cap, rest);
      } else if cap > 0 {
        FillAddsOnlyLeaves(k, buf[off := p], off + 1, cap - 1, rest);
        assert multiset(buf[off := p]) <= multiset(buf) + multiset{p};
      } else {
        FillAddsOnlyLeaves(k, buf, off, cap, rest);
      }
    }
  }

  // ---- The collecting pass with the cursor advanced past a nested pipeline ----

  function FillAdvancing(k: Kinds, buf: seq<Ptr>, off: nat, cap: nat, list: seq<Ptr>): (r: seq<Ptr>)
    requires WellFormed(k) && Valid(k, list) && off + cap <= |buf|
    ensures |r| == |buf|
    decreases Top(list), |list|
  {
    if list == [] then buf
    else
      var p, rest := list[0], list[1..];
      if p == NULL then FillAdvancing(k, buf, off, cap, rest)
      else match k[p]
        case Pipeline(parts) =>
          var n := |Flatten(k, parts)|;
          var written := if n < cap then n else cap;
          FillAdvancing(k, FillAdvancing(k, buf, off, cap, parts), off + written, cap - written, rest)
        case Leaf(_) =>
          if cap > 0 then FillAdvancing(k, buf[off := p], off + 1, cap - 1, rest)
          else FillAdvancing(k, buf, off, cap, rest)
  }

  lemma NullIsNoTransform(k: Kinds)
    requires WellFormed(k)
    ensures NULL !in k
  {
  }

  lemma PartsBelow(k: Kinds, p: Ptr)
    requires WellFormed(k) && p in k && k[p].Pipeline?
    ensures Valid(k, k[p].parts) && Top(k[p].parts) < p
  {
    assert WellBuilt(k, p);
  }

  lemma FlattenFirst(k: Kinds, list: seq<Ptr>)
    requires WellFormed(k) && Valid(k, list) && list != []
    ensures list[0] == NULL || list[0] in k
    ensures Flatten(k, list) == Entry(k, list[0]) + Flatten(k, list[1..])
  {
    hide Top, WellFormed;
    NullIsNoTransform(k);
    if list[0] != NULL && k[list[0]].Pipeline? {
      PartsBelow(k, list[0]);
    }
  }

  lemma AdvancingPipeline(k: Kinds, buf: seq<Ptr>, off: nat, cap: nat, list: seq<Ptr>)
    requires WellFormed(k) && Valid(k, list) && off + cap <= |buf|
    requires list != [] && list[0] in k && k[list[0]].Pipeline? && |Flatten(k, list)| <= cap
    ensures Valid(k, k[list[0]].parts) && |Flatten(k, k[list[0]].parts)| <= cap
    ensures var n := |Flatten(k, k[list[0]].parts)|;
            FillAdvancing(k, buf, off, cap, list) ==
              FillAdvancing(k, FillAdvancing(k, buf, off, cap, k[list[0]].parts), off + n, cap - n, list[1..])
  {
    hide Top, WellFormed, Flatten;
    NullIsNoTransform(k);
    PartsBelow(k, list[0]);
    FlattenFirst(k, list);
  }

  // The first entry contributes its leaves; the pass goes on behind them.
  lemma AdvancingStep(k: Kinds, buf: seq<Ptr>, off: nat, cap: nat, list: seq<Ptr>)
    requires WellFormed(k) && Valid(k, list) && off + cap <= |buf|
    requires list != [] && |Flatten(k, list)| <= cap
    ensures list[0] == NULL || list[0] in k
    ensures Flatten(k, list) == Entry(k, list[0]) + Flatten(k, list[1..])
    ensures var p, n := list[0], |Entry(k, list[0])|;
            var b := if p == NULL then buf
                     else if k[p].Leaf? then buf[off := p]
                     else FillAdvancing(k, buf, off, cap, k[p].parts);
            FillAdvancing(k, buf, off, cap, list) == FillAdvancing(k, b, off + n, cap - n, list[1..])
  {
    hide Top, WellFormed, Flatten;
    NullIsNoTransform(k);
    FlattenFirst(k, list);
    if list[0] != NULL && k[list[0]].Pipeline? {
      AdvancingPipeline(k, buf, off, cap, list);
    }
  }

  lemma AdvancingNothing(k: Kinds, buf: seq<Ptr>, off: nat, cap: nat)
    requires WellFormed(k) && off + cap <= |buf|
    ensures Flatten(k, []) == [] && FillAdvancing(k, buf, off, cap, []) == buf
  {
  }

  // It collects the flattened list for every input.
  lemma {:induction false} AdvancingWritesFlatten(k: Kinds, buf: seq<Ptr>, off: nat, cap: nat, list: seq<Ptr>)
    requires WellFormed(k) && Valid(k, list) && off + cap <= |buf|
    requires |Flatten(k, list)| <= cap
    ensures FillAdvancing(k, buf, off, cap, list) == Splice(buf, off, Flatten(k, list))
    decreases Top(list), |list|
  {
    hide Splice, WellFormed, FillAdvancing, Flatten;
    if list == [] {
      AdvancingNothing(k, buf, off, cap);
      SpliceNothing(buf, off);
    } else {
      AdvancingStep(k, buf, off, cap, list);
      var p, rest := list[0], list[1..];
      var e := Entry(k, p);
      if p == NULL {
        SpliceNothing(buf, off);
      } else if k[p].Leaf? {
        SpliceOne(buf, off, p);
      } else {
        PartsBelow(k, p);
        AdvancingWritesFlatten(k, buf, off, cap, k[p].parts);
      }
      AdvancingWritesFlatten(k, Splice(buf, off, e), off + |e|, cap - |e|, rest);
      SpliceTwice(buf, off, e, Flatten(k, rest));
    }
  }

  lemma AdvancingCollectsAlways(k: Kinds, list: seq<Ptr>)
    requires WellFormed(k) && Valid(k, list)
    ensures var n := |Flatten(k, list)|;
            FillAdvancing(k, seq(n, _ => NULL), 0, n, list) == Flatten(k, list)
  {
    var f := Flatten(k, list);
    var zero := seq(|f|, _ => NULL);
    AdvancingWritesFlatten(k, zero, 0, |f|, list);
    assert Splice(zero, 0, f) == f;
  }

  // ---- Meaning ----

  datatype Rgb = Rgb(r: real, g: real, b: real)

  // Applies a list in order; ops says what a leaf does to a colour.
  function EvalList(k: Kinds, ops: (Op, Rgb) -> Rgb, list: seq<Ptr>, v: Rgb): Rgb
    requires WellFormed(k) && Valid(k, list)
    decreases Top(list), |list|
  {
    if list == [] then v
    else
      var p, rest := list[0], list[1..];
      if p == NULL then EvalList(k, ops, rest, v)
      else match k[p]
        case Pipeline(parts) => EvalList(k, ops, rest, EvalList(k, ops, parts, v))
        case Leaf(op) => EvalList(k, ops, rest, ops(op, v))
  }

  // What a single transform does; no transform does nothing.
  function Eval(k: Kinds, ops: (Op, Rgb) -> Rgb, p: Ptr, v: Rgb): Rgb
    requires WellFormed(k) && (p == NULL || p in k)
  {
    if p == NULL then v
    else match k[p]
      case Pipeline(parts) => EvalList(k, ops, parts, v)
      case Leaf(op) => ops(op, v)
  }

  lemma {:induction false} EvalAppend(k: Kinds, ops: (Op, Rgb) -> Rgb, a: seq<Ptr>, b: seq<Ptr>, v: Rgb)
    requires WellFormed(k) && Valid(k, a) && Valid(k, b)
    ensures Valid(k, a + b)
    ensures EvalList(k, ops, a + b, v) == EvalList(k, ops, b, EvalList(k, ops, a, v))
    decreases |a|
  {
    if a == [] {
      assert a + b == b;
    } else {
      assert (a + b)[1..] == a[1..] + b;
      var p := a[0];
      var w := if p == NULL then v else if k[p].Leaf? then ops(k[p].op, v) else EvalList(k, ops, k[p].parts, v);
      EvalAppend(k, ops, a[1..], b, w);
    }
  }

  // Flattening preserves meaning.
  lemma {:induction false} EvalFlatten(k: Kinds, ops: (Op, Rgb) -> Rgb, list: seq<Ptr>, v: Rgb)
    requires WellFormed(k) && Valid(k, list)
    ensures Valid(k, Flatten(k, list))
    ensures EvalList(k, ops, Flatten(k, list), v) == EvalList(k, ops, list, v)
    decreases Top(list), |list|
  {
    FlattenGivesLeaves(k, list);
    if list != [] {
      var p, rest := list[0], list[1..];
      if p == NULL {
        EvalFlatten(k, ops, rest, v);
      } else if k[p].Pipeline? {
        var parts := k[p].parts;
        EvalFlatten(k, ops, parts, v);
        EvalFlatten(k, ops, rest, EvalList(k, ops, parts, v));
        EvalAppend(k, ops, Flatten(k, parts), Flatten(k, rest), v);
      } else {
        EvalFlatten(k, ops, rest, ops(k[p].op, v));
        assert ([p] + Flatten(k, rest))[1..] == Flatten(k, rest);
      }
    }
  }

  // More transforms in memory do not change what a list means.
  lemma {:induction false} EvalExtended(k: Kinds, k': Kinds, ops: (Op, Rgb) -> Rgb, list: seq<Ptr>, v: Rgb)
    requires WellFormed(k) && WellFormed(k') && Valid(k, list)
    requires forall p :: p in k ==> p in k' && k'[p] == k[p]
    ensures EvalList(k', ops, list, v) == EvalList(k, ops, list, v)
    decreases Top(list), |list|
  {
    if list != [] {
      var p, rest := list[0], list[1..];
      if p == NULL {
        EvalExtended(k, k', ops, rest, v);
      } else if k[p].Pipeline? {
        EvalExtended(k, k', ops, k[p].parts, v);
        EvalExtended(k, k', ops, rest, EvalList(k, ops, k[p].parts, v));
      } else {
        EvalExtended(k, k', ops, rest, ops(k[p].op, v));
      }
    }
  }

  // r is the composition of the list f of leaves: nothing, the one leaf, or a new pipeline.
  predicate ComposedOf(k: Kinds, r: Ptr, f: seq<Ptr>) {
    if f == [] then r == NULL
    else if |f| == 1 then r == f[0]
    else r in k && k[r] == Pipeline(f)
  }

  // Composition preserves meaning and yields the normal form; it is null only for an empty list.
  lemma CompositionPreservesMeaning(k: Kinds, k': Kinds, ops: (Op, Rgb) -> Rgb, list: seq<Ptr>, r: Ptr, v: Rgb)
    requires WellFormed(k) && WellFormed(k') && Valid(k, list)
    requires forall p :: p in k ==> p in k' && k'[p] == k[p]
    requires ComposedOf(k', r, Flatten(k, list))
    ensures r == NULL || r in k'
    ensures Eval(k', ops, r, v) == EvalList(k, ops, list, v)
    ensures Normal(k', r)
    ensures r == NULL <==> AllNull(list)
  {
    var f := Flatten(k, list);
    FlattenGivesLeaves(k, list);
    FlattenEmptyExactly(k, list);
    EvalFlatten(k, ops, list, v);
    EvalExtended(k, k', ops, f, v);
  }
}

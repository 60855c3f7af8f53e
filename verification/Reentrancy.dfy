// A client-driven fit commits an output mode, whose handler calls fill_host before the fit has
// finished. What the fit leaves behind, and how many sizes it asks for; the client receives only
// the last of them (Configures.dfy).

module Reentrancy {
  import opened Scale
  import opened Negotiation
  import opened Authority

  // set_window_geometry takes positive sizes only, so the geometry is set in both dimensions
  // or in neither.
  predicate WholeGeometry(t: Toplevel) {
    Positive(t.geo) || (t.geo.w <= 0 && t.geo.h <= 0)
  }

  // The client's own numbers are usable and the scale does not lose them.
  predicate PlainFit(env: Env, t: Toplevel) {
    && (env.scale >= 1.0 || env.scale <= 0.0)
    && ClientSize(env, t).w >= MIN_OUTPUT_SIZE && ClientSize(env, t).h >= MIN_OUTPUT_SIZE
    && WholeGeometry(t)
  }

  // The geometry lies inside the buffer, or there is no margin left over from earlier commits.
  predicate Coherent(env: Env, s: State) {
    !env.csd ||
    (if Positive(s.top.geo) && Positive(s.top.surf)
     then s.top.geo.w <= s.top.surf.w && s.top.geo.h <= s.top.surf.h
     else s.margin == ZERO)
  }

  // A plain fit is never too small to be applied.
  lemma PlainFitIsLargeEnough(env: Env, t: Toplevel)
    requires PlainFit(env, t)
    ensures Wanted(env, t).w >= MIN_OUTPUT_SIZE && Wanted(env, t).h >= MIN_OUTPUT_SIZE
  {
    var c := ClientSize(env, t);
    EnlargingDoesNotShrink(env.scale, c.w);
    EnlargingDoesNotShrink(env.scale, c.h);
  }

  lemma EnlargingDoesNotShrink(scale: real, n: int)
    requires scale >= 1.0 || scale <= 0.0
    requires n >= 1
    ensures ScaleSize(scale, n) >= n
  {
    if scale > 0.0 {
      MulMonotone(1.0, scale, n as real, n as real, n as real * scale);
      ScaleIs(scale, n, n as real * scale);
    }
  }

  // The window as the output's commit handler finds it in the middle of the fit.
  function MidFit(env: Env, s: State, now: int): State {
    var want := Wanted(env, s.top);
    RecordFit(env, s, now).(out := want, lastOut := want)
  }

  // Scaling and unscaling cancel, so fill_host aims at the client's size minus the margin.
  lemma MidFitTarget(env: Env, s: State, now: int)
    requires PlainFit(env, s.top)
    ensures Unscaled(env, Wanted(env, s.top)) == ClientSize(env, s.top)
  {
    var p := Preferred(env, s.top);
    RoundTripsWhenEnlarging(env.scale, p.w);
    RoundTripsWhenEnlarging(env.scale, p.h);
  }

  // The two computations of the client's size agree exactly when the commit is coherent.
  lemma TargetIsAsserted(env: Env, s0: State, geo: Size, surf: Size, now: int)
    requires Inv(s0)
    requires var s := Applied(s0, geo, surf); PlainFit(env, s.top) && !Tiled(s.top)
    ensures var s := Applied(s0, geo, surf);
            FillTarget(env, MidFit(env, s, now)) == Asserted(env, s.top) <==> Coherent(env, s)
  {
    MidFitTarget(env, Applied(s0, geo, surf), now);
  }

  lemma FitRequests(env: Env, s: State, now: int, later: int)
    requires s.mapped && s.lastOut == s.out && Decide(env, s, now) == FitHost
    requires Wanted(env, s.top).w >= MIN_OUTPUT_SIZE && Wanted(env, s.top).h >= MIN_OUTPUT_SIZE
    ensures var m := MidFit(env, s, now);
            var s' := ApplyFit(env, s, now, later, true);
            var f := FillHost(env, m, later);
            && s'.confs == f.confs + (if f.lastConf == Asserted(env, s.top) then [] else [Asserted(env, s.top)])
            && s'.out == s'.lastOut == Wanted(env, s.top)
            && s'.lastConf == Asserted(env, s.top)
  {
    var r := RecordFit(env, s, now);
    FillHostKeeps(env, MidFit(env, s, now), later);
    assert r.(out := Wanted(env, s.top)).(lastOut := Wanted(env, s.top)) == MidFit(env, s, now);
  }

  // The fit: the output takes the scaled preferred size, last_client_conf the client's own size.
  // It asks for at most two sizes, the last of them the client's own, and for at most one exactly
  // when the commit is coherent or fill_host had nothing to add.
  lemma ReentrantFit(env: Env, s: State, geo: Size, surf: Size, now: int, later: int)
    requires Inv(s) && s.mapped
    requires var r := Release(env, Applied(s, geo, surf));
             && Decide(env, r, now) == FitHost
             && PlainFit(env, r.top)
    ensures var r := Release(env, Applied(s, geo, surf));
            var s' := SurfaceCommit(env, s, geo, surf, now, later, true);
            && s'.out == s'.lastOut == Scaled(env, ClientSize(env, r.top))
            && s'.lastConf == Asserted(env, r.top)
            && |s'.confs| <= |s.confs| + 2
            && (s'.confs != s.confs ==> Newest(s') == Asserted(env, r.top))
            && (|s'.confs| <= |s.confs| + 1 <==>
                  Coherent(env, r) || FillSuppressed(env, MidFit(env, r, now), later))
            && (Coherent(env, r) ==>
                  forall i :: |s.confs| <= i < |s'.confs| ==> s'.confs[i] == Asserted(env, r.top))
  {
    var a := Applied(s, geo, surf);
    var r := Release(env, a);
    PlainFitIsLargeEnough(env, r.top);
    FitRequests(env, r, now, later);
    TargetIsAsserted(env, s, geo, surf, now);
    var m := MidFit(env, r, now);
    assert FillTarget(env, m) == FillTarget(env, MidFit(env, a, now));
    FillTargetPositive(env, m);
  }
}

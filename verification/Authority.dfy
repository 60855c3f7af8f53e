// Who owns the size of the host window: what every event keeps, and when a client commit may
// move the window.

module Authority {
  import opened Base
  import opened Scale
  import opened Negotiation

  // ---- What every event keeps ----

  // A mapped window has a real size that the commit handler has already seen; the last
  // configured size is either a real size or was never set, and it is the newest configure unless
  // that one was 0x0; margins are not negative.
  ghost predicate Inv(s: State) {
    && (s.mapped ==> Positive(s.out) && s.lastOut == s.out && s.initialSent)
    && (Positive(s.lastConf) || s.lastConf == ZERO)
    && (Newest(s) == ZERO || (Positive(Newest(s)) && s.lastConf == Newest(s)))
    && s.margin.w >= 0 && s.margin.h >= 0
  }

  // Surfaces are committed before they map: the first commit sends the initial configure.
  ghost predicate Possible(s: State, e: Event) {
    e.EvMap? ==> s.initialSent
  }

  lemma FillHostKeeps(env: Env, s: State, now: int)
    ensures var s' := FillHost(env, s, now);
            && s' == s.(fillLastMsec := s'.fillLastMsec, confs := s'.confs, lastConf := s'.lastConf)
            && (if FillSuppressed(env, s, now) then s'.confs == s.confs && s'.lastConf == s.lastConf
                else s'.confs == s.confs + [FillTarget(env, s)] && s'.lastConf == FillTarget(env, s)
                     && Positive(s'.lastConf))
  {
  }

  lemma ResizeKeepsInv(env: Env, s: State, a: Size, now: int, ok: bool)
    requires Inv(s)
    ensures Inv(ResizeOutputTo(env, s, a, now, ok))
  {
  }

  lemma CommitKeepsInv(env: Env, s: State, geo: Size, surf: Size, now: int, later: int, ok: bool)
    requires Inv(s)
    ensures Inv(SurfaceCommit(env, s, geo, surf, now, later, ok))
  {
    var a := Applied(s, geo, surf);
    var r := Release(env, a);
    if a.mapped && Decide(env, r, now) == FitHost {
      ResizeKeepsInv(env, RecordFit(env, r, now), Wanted(env, r.top), later, ok);
    }
  }

  lemma NetWmStateKeepsInv(env: Env, s: State, reply: Option<Flags>, now: int)
    requires Inv(s)
    ensures Inv(NetWmState(env, s, reply, now))
  {
    hide FillHost, Tiled;
    if s.initialSent && reply.Some? {
      var m := MirrorFlag(s, reply.value.maximized, Maximized(s.top));
      FillHostKeeps(env, MirrorFlag(m, reply.value.fullscreen, Fullscreen(s.top)), now);
    }
  }

  lemma RequestStateKeepsInv(env: Env, s: State, req: Size, reply: Option<Flags>, now: int, later: int, ok: bool)
    requires Inv(s)
    ensures Inv(RequestState(env, s, req, reply, now, later, ok))
  {
    hide FillHost, NetWmState;
    NetWmStateKeepsInv(env, s.(sizeFromWm := true), reply, now);
    var m := NetWmState(env, s.(sizeFromWm := true), reply, now);
    FillHostKeeps(env, m.(out := req, lastOut := req), later);
  }

  lemma ReparentKeepsInv(env: Env, s: State, drawable: Size, now: int, ok: bool)
    requires Inv(s)
    ensures Inv(Reparent(env, s, drawable, now, ok))
  {
    hide ResizeOutputTo;
    ResizeKeepsInv(env, s, drawable, now, ok);
  }

  lemma MapKeepsInv(env: Env, s: State, geo: Size, surf: Size, created: bool, ok: bool)
    requires Inv(s) && s.initialSent
    ensures Inv(Map(env, s, geo, surf, created, ok))
  {
    hide Wanted;
  }

  lemma StepKeepsInv(env: Env, s: State, e: Event)
    requires Inv(s) && Possible(s, e)
    ensures Inv(Step(env, s, e))
  {
    hide SurfaceCommit, RequestState, NetWmState, Reparent, Map;
    match e
    case EvCommit(geo, surf, now, later, ok) =>
      CommitKeepsInv(env, s, geo, surf, now, later, ok);
    case EvMap(geo, surf, created, ok) =>
      MapKeepsInv(env, s, geo, surf, created, ok);
    case EvRequestState(req, reply, now, later, ok) =>
      RequestStateKeepsInv(env, s, req, reply, now, later, ok);
    case EvNetWmState(reply, now, later) =>
      NetWmStateKeepsInv(env, s, reply, later);
    case EvReparent(drawable, now, later, ok) =>
      ReparentKeepsInv(env, s, drawable, later, ok);
    case EvAck(_) =>
    case EvUnmap =>
  }

  // The client has acknowledged a configure since it was last unmapped: the initial one or, after
  // an unmap, for instance the answer to a maximize request.
  predicate Configured(es: seq<Event>, i: nat)
    requires i <= |es|
  {
    exists j :: 0 <= j < i && es[j].EvAck? && forall k :: j < k < i ==> !es[k].EvUnmap?
  }

  ghost predicate PossibleRun(env: Env, s: State, es: seq<Event>) {
    forall i :: 0 <= i < |es| ==>
      Possible(Run(env, s, es[..i]), es[i]) && (es[i].EvMap? ==> Configured(es, i))
  }

  lemma {:induction false} ReachableInv(env: Env, es: seq<Event>)
    requires PossibleRun(env, FRESH, es)
    ensures Inv(Run(env, FRESH, es))
    decreases |es|
  {
    if es != [] {
      var p := es[..|es|-1];
      forall i | 0 <= i < |p|
        ensures Possible(Run(env, FRESH, p[..i]), p[i]) && (p[i].EvMap? ==> Configured(p, i))
      {
        assert p[..i] == es[..i];
        assert p[i].EvMap? ==> Configured(es, i);
      }
      ReachableInv(env, p);
      StepKeepsInv(env, Run(env, FRESH, p), es[|es|-1]);
    }
  }

  // ---- A single commit ----

  // The host loses authority exactly when an untiled client asserts, by more than a pixel, a
  // size of its own that is at least two pixels smaller than the host in some dimension.
  lemma ReleasedExactly(env: Env, s: State, geo: Size, surf: Size, now: int, later: int, ok: bool)
    requires s.mapped
    ensures var t := Applied(s, geo, surf).top;
            var want, mine := Wanted(env, t), Asserted(env, t);
            !SurfaceCommit(env, s, geo, surf, now, later, ok).sizeFromWm <==>
              || !s.sizeFromWm
              || (&& !s.top.pend.maximized && !s.top.pend.fullscreen
                  && (s.lastConf.w <= 0 || s.lastConf.h <= 0 ||
                      Abs(mine.w - s.lastConf.w) > 1 || Abs(mine.h - s.lastConf.h) > 1)
                  && (want.w <= s.out.w - 2 || want.h <= s.out.h - 2))
  {
    var a := Applied(s, geo, surf);
    var r := Release(env, a);
    FillHostKeeps(env, r, later);
    if Decide(env, r, now) == FitHost {
      FitEffect(env, r, now, later, ok);
    }
  }

  // A commit moves the host window exactly when it decides to fit, the host accepts the mode,
  // and the size is not below the minimum output size.
  lemma MovedExactly(env: Env, s: State, geo: Size, surf: Size, now: int, later: int, ok: bool)
    requires s.mapped
    ensures var a := Applied(s, geo, surf);
            var want := Wanted(env, a.top);
            var s' := SurfaceCommit(env, s, geo, surf, now, later, ok);
            && (s'.out != s.out <==>
                  Decide(env, Release(env, a), now) == FitHost && ok &&
                  want.w >= MIN_OUTPUT_SIZE && want.h >= MIN_OUTPUT_SIZE)
            && (s'.out != s.out ==> s'.out == want)
  {
    var r := Release(env, Applied(s, geo, surf));
    FillHostKeeps(env, r, later);
    if Decide(env, r, now) == FitHost {
      FitEffect(env, r, now, later, ok);
    }
  }

  lemma FitEffect(env: Env, s: State, now: int, later: int, ok: bool)
    requires s.mapped
    ensures var s' := ApplyFit(env, s, now, later, ok);
            var want := Wanted(env, s.top);
            && s'.mapped && s'.sizeFromWm == s.sizeFromWm && s'.top == s.top && s'.margin == s.margin
            && s'.out == (if ok && want.w >= MIN_OUTPUT_SIZE && want.h >= MIN_OUTPUT_SIZE then want else s.out)
            && s'.lastConf == Asserted(env, s.top)
  {
    var f := RecordFit(env, s, now);
    var want := Wanted(env, s.top);
    FillHostKeeps(env, f.(out := want, lastOut := want), later);
  }

  // docs/SIZE.md has every lagging commit answered with a configure. While the host owns the
  // size it is answered exactly when the host's size is news to the record, or the client does
  // not fill it and the last reminder is half a second old.
  lemma LaggardsAnsweredExactly(env: Env, s: State, geo: Size, surf: Size, now: int, later: int, ok: bool)
    requires s.mapped && Inv(s)
    requires var r := Release(env, Applied(s, geo, surf)); HostOwnsSize(r) && Mismatch(env, r)
    ensures var r := Release(env, Applied(s, geo, surf));
            var s' := SurfaceCommit(env, s, geo, surf, now, later, ok);
            var t, c := FillTarget(env, r), s.lastConf;
            && (s'.confs != s.confs <==>
                  || c.w <= 0 || c.h <= 0 || Abs(t.w - c.w) > 1 || Abs(t.h - c.h) > 1
                  || ((geo.w <= 0 || geo.h <= 0 || Abs(t.w - geo.w) > 1 || Abs(t.h - geo.h) > 1)
                      && (s.fillLastMsec <= 0 || later - s.fillLastMsec >= 500)))
            && (s'.confs != s.confs ==> s'.confs == s.confs + [FillTarget(env, r)])
  {
    var r := Release(env, Applied(s, geo, surf));
    FillTargetPositive(env, r);
    FillHostKeeps(env, r, later);
  }

  // The newest configure asks, within a pixel, for the size that fills the host window.
  predicate AskedToFill(env: Env, s: State) {
    Positive(Newest(s)) && Near(FillTarget(env, s), Newest(s))
  }

  // No letterbox: while the host owns the size, a client that lags behind has been asked to fill
  // the host window, unless a remap has left it the choice and the commit is not answered.
  lemma LaggardsAreTold(env: Env, s: State, geo: Size, surf: Size, now: int, later: int, ok: bool)
    requires s.mapped && Inv(s)
    requires var r := Release(env, Applied(s, geo, surf)); HostOwnsSize(r) && Mismatch(env, r)
    ensures var s' := SurfaceCommit(env, s, geo, surf, now, later, ok);
            && ToldToFill(env, s')
            && (AskedToFill(env, s') <==> !Superseded(s) || s'.confs != s.confs)
  {
    var r := Release(env, Applied(s, geo, surf));
    FillTargetPositive(env, r);
    FillHostKeeps(env, r, later);
    assert FillTarget(env, FillHost(env, r, later)) == FillTarget(env, r);
  }

  lemma FillTargetPositive(env: Env, s: State)
    requires Positive(s.out)
    ensures Positive(FillTarget(env, s))
  {
  }

  // ---- Runs of client events ----

  predicate ClientOnly(es: seq<Event>) {
    forall i :: 0 <= i < |es| ==> es[i].EvAck? || es[i].EvCommit?
  }

  // The window as event i of the run finds it, with the commit already applied.
  function AtCommit(env: Env, s: State, es: seq<Event>, i: nat): State
    requires i < |es| && es[i].EvCommit?
  {
    Applied(Run(env, s, es[..i]), es[i].geo, es[i].surf)
  }

  ghost predicate NoneReleases(env: Env, s: State, es: seq<Event>) {
    forall i :: 0 <= i < |es| && es[i].EvCommit? ==> !Releases(env, AtCommit(env, s, es, i))
  }

  ghost predicate AllTiled(env: Env, s: State, es: seq<Event>) {
    forall i :: 0 <= i < |es| && es[i].EvCommit? ==> Tiled(AtCommit(env, s, es, i).top)
  }

  lemma CommitUnderAuthority(env: Env, s: State, geo: Size, surf: Size, now: int, later: int, ok: bool)
    requires s.mapped
    requires var a := Applied(s, geo, surf); Tiled(a.top) || (s.sizeFromWm && !Releases(env, a))
    ensures var s' := SurfaceCommit(env, s, geo, surf, now, later, ok);
            s'.mapped && s'.out == s.out && s'.sizeFromWm == s.sizeFromWm
  {
    FillHostKeeps(env, Release(env, Applied(s, geo, surf)), later);
  }

  lemma PrefixRun(env: Env, s: State, es: seq<Event>)
    requires es != []
    ensures var p := es[..|es|-1];
            && forall i :: 0 <= i < |p| ==> Run(env, s, p[..i]) == Run(env, s, es[..i])
  {
    var p := es[..|es|-1];
    forall i | 0 <= i < |p|
      ensures Run(env, s, p[..i]) == Run(env, s, es[..i])
    {
      assert p[..i] == es[..i];
    }
  }

  // Whatever a client commits, the host keeps its size until some commit releases it.
  lemma {:induction false} HostKeepsAuthority(env: Env, s: State, es: seq<Event>)
    requires s.mapped && s.sizeFromWm
    requires ClientOnly(es) && NoneReleases(env, s, es)
    ensures var s' := Run(env, s, es); s'.mapped && s'.sizeFromWm && s'.out == s.out
    decreases |es|
  {
    hide SurfaceCommit, Releases, Tiled, Applied;
    if es != [] {
      var p, e := es[..|es|-1], es[|es|-1];
      PrefixRun(env, s, es);
      assert forall i :: 0 <= i < |p| && p[i].EvCommit? ==> AtCommit(env, s, p, i) == AtCommit(env, s, es, i);
      HostKeepsAuthority(env, s, p);
      if e.EvCommit? {
        assert !Releases(env, AtCommit(env, s, es, |p|));
        CommitUnderAuthority(env, Run(env, s, p), e.geo, e.surf, e.now, e.later, e.ok);
      }
    }
  }

  // While maximised or fullscreen no sequence of commits changes the host size at all.
  lemma {:induction false} TiledHostNeverMoves(env: Env, s: State, es: seq<Event>)
    requires s.mapped
    requires ClientOnly(es) && AllTiled(env, s, es)
    ensures var s' := Run(env, s, es); s'.mapped && s'.out == s.out
    decreases |es|
  {
    hide SurfaceCommit, Releases, Tiled, Applied;
    if es != [] {
      var p, e := es[..|es|-1], es[|es|-1];
      PrefixRun(env, s, es);
      assert forall i :: 0 <= i < |p| && p[i].EvCommit? ==> AtCommit(env, s, p, i) == AtCommit(env, s, es, i);
      TiledHostNeverMoves(env, s, p);
      if e.EvCommit? {
        assert Tiled(AtCommit(env, s, es, |p|).top);
        CommitUnderAuthority(env, Run(env, s, p), e.geo, e.surf, e.now, e.later, e.ok);
      }
    }
  }

  // An external host resize that the backend applies leaves the host in charge, unless the
  // same notification reports the end of maximize or fullscreen.
  lemma HostResizeTakesAuthority(env: Env, s: State, req: Size, reply: Option<Flags>, now: int, later: int)
    requires s.mapped && s.initialSent && Positive(req) && req != s.out
    ensures var s' := RequestState(env, s, req, reply, now, later, true);
            && s'.out == req
            && (s'.sizeFromWm <==>
                  reply == None ||
                  (if reply.value.fullscreen != Fullscreen(s.top) then reply.value.fullscreen
                   else reply.value.maximized || !Maximized(s.top)))
  {
    var m := NetWmState(env, s.(sizeFromWm := true), reply, now);
    FillHostKeeps(env, m.(out := req, lastOut := req), later);
  }
}

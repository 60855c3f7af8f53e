// What the host's events do to a window, in terms of what the client and the host can see: the
// size it opens with, the size the client is asked for, and what happens when it complies.
// src/output.c:163-208, 313-401, 780-954; src/x11.c:285-385, 512-571, 800-818.

module HostEvents {
  import opened Base
  import opened Scale
  import opened Negotiation
  import opened Authority

  // ---- Opening ----

  // The part of the client that its host window shows: under server decorations the geometry,
  // under client decorations the whole buffer with its shadow.
  predicate Shows(env: Env, geo: Size, surf: Size, c: Size) {
    if Positive(geo) && Positive(surf) then c == (if env.csd then surf else geo)
    else if Positive(surf) then c == surf
    else c == geo
  }

  // A host window is as large as what it shows, except that less than 32 pixels become 1024 wide
  // or 720 high.
  predicate HostSizeFor(env: Env, c: Size, o: Size) {
    && IsScaled(env.scale, if c.w >= 32 then c.w else 1024, o.w)
    && IsScaled(env.scale, if c.h >= 32 then c.h else 720, o.h)
  }

  lemma WantsWhatItShows(env: Env, t: Toplevel)
    ensures forall c :: Shows(env, t.geo, t.surf, c) ==> HostSizeFor(env, c, Wanted(env, t))
  {
    hide ScaleSize, IsScaled;
    var c := ClientSize(env, t);
    ScalesToNearest(env.scale, if c.w >= 32 then c.w else 1024);
    ScalesToNearest(env.scale, if c.h >= 32 then c.h else 720);
  }

  // Mapping opens the host window at the size of what it shows, gives the client the choice of
  // its size, and forgets that the host had authority.
  lemma MapOpens(env: Env, s: State, geo: Size, surf: Size, created: bool, ok: bool)
    requires !s.mapped
    ensures var s' := Map(env, s, geo, surf, created, ok);
            && !s'.sizeFromWm && s'.mapped == created
            && s'.confs == (if created then s.confs + [Size(0, 0)] else s.confs)
            && s'.lastConf == s.lastConf
            && (created && ok ==> forall c :: Shows(env, geo, surf, c) ==> HostSizeFor(env, c, s'.out))
            && (created ==> s'.lastOut == s'.out)
  {
    hide Wanted;
    WantsWhatItShows(env, Toplevel(geo, surf, s.top.pend, s.top.pend));
  }

  // ---- Maximize and fullscreen ----

  predicate WasMaximized(s: State) {
    s.top.cur.maximized || s.top.pend.maximized
  }

  predicate WasFullscreen(s: State) {
    s.top.cur.fullscreen || s.top.pend.fullscreen
  }

  // A flag that the host sets drops the shadow margin; the last flag that changes decides who
  // has authority. While a flag is set the client is told to fill the host window; otherwise it
  // is asked for nothing.
  lemma MirrorExactly(env: Env, s: State, host: Flags, now: int)
    requires s.initialSent && Inv(s)
    ensures var s' := NetWmState(env, s, Some(host), now);
            && s'.out == s.out && s'.top == s.top && s'.mapped == s.mapped
            && s'.margin == (if (host.maximized && !WasMaximized(s)) || (host.fullscreen && !WasFullscreen(s))
                             then ZERO else s.margin)
            && s'.sizeFromWm == (if host.fullscreen != WasFullscreen(s) then host.fullscreen
                                 else if host.maximized != WasMaximized(s) then host.maximized
                                 else s.sizeFromWm)
            && (if s.mapped && (host.maximized || host.fullscreen)
                then Positive(s'.lastConf) && Near(FillTarget(env, s'), s'.lastConf)
                     && (s'.confs == s.confs || s'.confs == s.confs + [FillTarget(env, s')])
                else s'.confs == s.confs && s'.lastConf == s.lastConf)
  {
    var m := MirrorFlag(s, host.maximized, Maximized(s.top));
    var f := MirrorFlag(m, host.fullscreen, Fullscreen(s.top));
    FillHostKeeps(env, f, now);
    if s.mapped {
      FillTargetPositive(env, f);
    }
  }

  // A window that becomes maximized or fullscreen is told to fill the host window to the edge:
  // no shadow is subtracted, however the client was decorated.
  lemma MaximizeFillsToTheEdge(env: Env, s: State, host: Flags, now: int)
    requires s.mapped && Inv(s)
    requires (host.maximized && !WasMaximized(s)) || (host.fullscreen && !WasFullscreen(s))
    ensures var s' := NetWmState(env, s, Some(host), now);
            var edge := Unscaled(env, s.out);
            && IsUnscaled(env.scale, s.out.w, edge.w) && IsUnscaled(env.scale, s.out.h, edge.h)
            && Near(edge, s'.lastConf)
  {
    hide NetWmState, UnscaleSize, IsUnscaled;
    MirrorExactly(env, s, host, now);
    ScalesToNearest(env.scale, s.out.w);
    ScalesToNearest(env.scale, s.out.h);
  }

  // ---- Resizes by the host ----

  // An external resize that the backend applies is passed on: the client has been told to fill
  // the window at its new size.
  lemma ResizeIsPassedOn(env: Env, s: State, req: Size, reply: Option<Flags>, now: int, later: int)
    requires s.mapped && Inv(s) && Positive(req) && req != s.out
    ensures var s' := RequestState(env, s, req, reply, now, later, true);
            && s'.out == s'.lastOut == req
            && Positive(s'.lastConf) && Near(FillTarget(env, s'), s'.lastConf)
  {
    hide NetWmState;
    NetWmStateKeepsInv(env, s.(sizeFromWm := true), reply, now);
    var m := NetWmState(env, s.(sizeFromWm := true), reply, now);
    NetWmKeepsOutput(env, s.(sizeFromWm := true), reply, now);
    FillTargetPositive(env, m.(out := req, lastOut := req));
    FillHostKeeps(env, m.(out := req, lastOut := req), later);
  }

  lemma NetWmKeepsOutput(env: Env, s: State, reply: Option<Flags>, now: int)
    requires Inv(s)
    ensures var m := NetWmState(env, s, reply, now); m.mapped == s.mapped && m.out == s.out && m.lastOut == s.lastOut
  {
    hide FillHost, Tiled;
    if s.initialSent && reply.Some? {
      var m := MirrorFlag(s, reply.value.maximized, Maximized(s.top));
      FillHostKeeps(env, MirrorFlag(m, reply.value.fullscreen, Fullscreen(s.top)), now);
    }
  }

  // A drawable of another size is adopted if it is large enough and the mode is taken; the last
  // thing the client hears is the drawable's size in logical pixels.
  lemma ReparentAdopts(env: Env, s: State, drawable: Size, now: int, ok: bool)
    requires s.mapped && Inv(s) && Positive(drawable) && drawable != s.out
    ensures var s' := Reparent(env, s, drawable, now, ok);
            && s'.out == s'.lastOut == (if ok && drawable.w >= 32 && drawable.h >= 32 then drawable else s.out)
            && s'.sizeFromWm == s.sizeFromWm && s'.margin == s.margin
            && IsUnscaled(env.scale, drawable.w, Newest(s').w) && IsUnscaled(env.scale, drawable.h, Newest(s').h)
            && s'.lastConf == Newest(s') && s'.confs != s.confs
  {
    hide UnscaleSize, FillHost, IsUnscaled;
    ScalesToNearest(env.scale, drawable.w);
    ScalesToNearest(env.scale, drawable.h);
    FillHostKeeps(env, s.(out := drawable, lastOut := drawable), now);
    UnscaledPositive(env.scale, drawable.w);
    UnscaledPositive(env.scale, drawable.h);
  }

  lemma UnscaledPositive(scale: real, px: int)
    requires px > 0
    ensures UnscaleSize(scale, px) > 0
  {
  }

  // The commit handler acts once per size, whoever calls it again, and never on an output
  // without a size.
  lemma OncePerSize(env: Env, s: State, now: int, later: int)
    ensures OutputCommit(env, OutputCommit(env, s, now), later) == OutputCommit(env, s, now)
    ensures s.out.w <= 0 || s.out.h <= 0 ==> OutputCommit(env, s, now) == s
  {
    FillHostKeeps(env, s.(lastOut := s.out), now);
  }

  // A resize by the compositor leaves nothing for the handler to do, taken or refused, and
  // whatever the handler knew before.
  lemma ResizeLeavesNothingToDo(env: Env, s: State, a: Size, now: int, ok: bool, later: int)
    requires s.mapped && a.w >= 32 && a.h >= 32 && a != s.out
    ensures var s' := ResizeOutputTo(env, s, a, now, ok);
            s'.out == (if ok then a else s.out) && OutputCommit(env, s', later) == s'
  {
    FillHostKeeps(env, s.(out := a, lastOut := a), now);
  }

  // ---- The client complies ----

  // The client commits exactly what it was asked for. Under client decorations its buffer is
  // larger by the shadow the compositor knows, and by none when maximized or fullscreen; under
  // server decorations the buffer may have any size.
  predicate Complies(env: Env, s: State, geo: Size, surf: Size) {
    && geo == FillTarget(env, s)
    && Positive(surf)
    && (env.csd ==> surf == if s.top.pend.maximized || s.top.pend.fullscreen then geo
                            else Size(geo.w + s.margin.w, geo.h + s.margin.h))
  }

  // The host window is large enough for the defaults not to matter and for the shadow to fit.
  predicate Roomy(env: Env, s: State) {
    var w, h := UnscaleSize(env.scale, s.out.w), UnscaleSize(env.scale, s.out.h);
    && w >= 32 && h >= 32
    && (env.csd ==> w > s.margin.w && h > s.margin.h)
  }

  // A client that complies is left alone: its commit moves nothing and is asked for nothing,
  // exactly if the host size survives the round trip through logical pixels.
  lemma ComplianceRests(env: Env, s: State, geo: Size, surf: Size, now: int, later: int, ok: bool)
    requires s.mapped && Inv(s) && s.top.cur == s.top.pend
    requires Roomy(env, s) && Complies(env, s, geo, surf)
    ensures var a := Applied(s, geo, surf);
            && FillTarget(env, a) == geo
            && (!Mismatch(env, a) <==> HostSizeStable(env.scale, s.out.w) && HostSizeStable(env.scale, s.out.h))
            && (!Mismatch(env, a) ==>
                  var s' := SurfaceCommit(env, s, geo, surf, now, later, ok);
                  s'.out == s.out && s'.confs == s.confs && s'.sizeFromWm == s.sizeFromWm)
  {
    hide ScaleSize, UnscaleSize;
    var a := Applied(s, geo, surf);
    FillsBack(env, s, geo, surf);
  }

  lemma FillsBack(env: Env, s: State, geo: Size, surf: Size)
    requires s.mapped && Inv(s) && s.top.cur == s.top.pend
    requires Roomy(env, s) && Complies(env, s, geo, surf)
    ensures var a := Applied(s, geo, surf);
            && FillTarget(env, a) == geo
            && Preferred(env, a.top) == Size(UnscaleSize(env.scale, s.out.w), UnscaleSize(env.scale, s.out.h))
  {
    hide ScaleSize, UnscaleSize;
  }

  // ---- The shadow margin ----

  // What the compositor takes for the shadow of a commit with both sizes.
  predicate IsShadow(geo: Size, surf: Size, m: Size) {
    && m.w >= 0 && m.h >= 0
    && (surf.w >= geo.w ==> geo.w + m.w == surf.w) && (surf.w < geo.w ==> m.w == 0)
    && (surf.h >= geo.h ==> geo.h + m.h == surf.h) && (surf.h < geo.h ==> m.h == 0)
  }

  // The latest commit of the run that had both a geometry and a buffer, or -1.
  function LastWhole(es: seq<Event>): (i: int)
    ensures -1 <= i < |es|
    ensures i >= 0 ==> es[i].EvCommit? && Positive(es[i].geo) && Positive(es[i].surf)
    ensures forall j :: i < j < |es| && es[j].EvCommit? ==> !(Positive(es[j].geo) && Positive(es[j].surf))
    decreases |es|
  {
    var n := |es| - 1;
    if es == [] then -1
    else if es[n].EvCommit? && Positive(es[n].geo) && Positive(es[n].surf) then n
    else LastWhole(es[..n])
  }

  // Through any run of client events the margin is the shadow of that commit.
  lemma {:induction false} MarginIsTheShadow(env: Env, s: State, es: seq<Event>)
    requires ClientOnly(es)
    ensures var i, m := LastWhole(es), Run(env, s, es).margin;
            if i < 0 then m == s.margin else IsShadow(es[i].geo, es[i].surf, m)
    decreases |es|
  {
    hide SurfaceCommit;
    if es != [] {
      var p, e := es[..|es|-1], es[|es|-1];
      MarginIsTheShadow(env, s, p);
      if e.EvCommit? {
        CommitMargin(env, Run(env, s, p), e.geo, e.surf, e.now, e.later, e.ok);
      }
    }
  }

  lemma CommitMargin(env: Env, s: State, geo: Size, surf: Size, now: int, later: int, ok: bool)
    ensures SurfaceCommit(env, s, geo, surf, now, later, ok).margin == Applied(s, geo, surf).margin
  {
    hide Wanted, Oscillates;
    var r := Release(env, Applied(s, geo, surf));
    FillHostKeeps(env, r, later);
    if r.mapped {
      FitEffect(env, r, now, later, ok);
    }
  }
}

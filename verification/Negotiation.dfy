// What one window knows about its size, and what each event does to that knowledge.
// src/xdg.c (surface_commit), src/output.c (fill_host, resize_output_to, output_commit),
// src/x11.c (request_state, _NET_WM_STATE, ReparentNotify).
//
// These functions are the specification of class Window (Window.dfy) and the subject of the
// theorems in FitGuard.dfy, Authority.dfy, HostEvents.dfy, Reentrancy.dfy, Configures.dfy,
// Settling.dfy and ConfigureRate.dfy.

module Negotiation {
  import opened Base
  import opened Scale

  const DEFAULT_WIDTH: int := 1024
  const DEFAULT_HEIGHT: int := 720
  const FIT_OSCILLATION_MS: int := 400
  const FILL_HOST_MS: int := 500

  datatype Size = Size(w: int, h: int)

  datatype Flags = Flags(maximized: bool, fullscreen: bool)

  // Server-wide settings.
  datatype Env = Env(scale: real, csd: bool)

  // A recorded host fit: the output size surface_commit decided on, and when.
  datatype Fit = Fit(size: Size, at: int)

  // The xdg toplevel as the client last left it.
  datatype Toplevel = Toplevel(
    geo: Size,     // window geometry of the last commit
    surf: Size,    // buffer size of the last commit
    cur: Flags,    // current
    pend: Flags)   // pending: the last configure the client acknowledged

  // One window. The last two fields are history: every fit recorded and every size asked
  // for with wlx_toplevel_set_size; no event reads them.
  datatype State = State(
    mapped: bool,            // win->output exists
    initialSent: bool,       // initial_configure_sent
    out: Size,               // output->width, height (host pixels)
    lastOut: Size,           // last_output_width, height
    margin: Size,            // csd_margin_w, h
    sizeFromWm: bool,        // size_from_wm
    lastConf: Size,          // last_client_conf_w, h
    fitLast: Size,           // fit_last_w, h
    fitPrev: Size,           // fit_prev_w, h
    fitLastMsec: int,        // fit_last_msec
    fillLastMsec: int,       // fill_host_last_msec
    top: Toplevel,           // win->toplevel
    fits: seq<Fit>,
    confs: seq<Size>)

  const ZERO: Size := Size(0, 0)

  // A window as calloc leaves it.
  const BLANK: Toplevel := Toplevel(ZERO, ZERO, Flags(false, false), Flags(false, false))

  const FRESH: State := State(false, false, ZERO, ZERO, ZERO, false, ZERO, ZERO, ZERO, 0, 0, BLANK, [], [])

  predicate Positive(a: Size) {
    a.w > 0 && a.h > 0
  }

  // Equal up to the 1px that hides rounding and border noise.
  predicate Near(a: Size, b: Size) {
    Abs(a.w - b.w) <= 1 && Abs(a.h - b.h) <= 1
  }

  predicate Maximized(t: Toplevel) {
    t.cur.maximized || t.pend.maximized
  }

  predicate Fullscreen(t: Toplevel) {
    t.cur.fullscreen || t.pend.fullscreen
  }

  predicate Tiled(t: Toplevel) {
    Maximized(t) || Fullscreen(t)
  }

  predicate HostOwnsSize(s: State) {
    s.sizeFromWm || Tiled(s.top)
  }

  function Scaled(env: Env, a: Size): Size {
    Size(ScaleSize(env.scale, a.w), ScaleSize(env.scale, a.h))
  }

  function Unscaled(env: Env, a: Size): Size {
    Size(UnscaleSize(env.scale, a.w), UnscaleSize(env.scale, a.h))
  }

  // ---- Sizes derived from the client's last commit ----

  // The size the client asks for before the defaults replace small dimensions.
  function ClientSize(env: Env, t: Toplevel): Size {
    if !env.csd && Positive(t.geo) then t.geo
    else if Positive(t.surf) then t.surf
    else t.geo
  }

  // toplevel_preferred_size: too small a dimension becomes the default one.
  function Preferred(env: Env, t: Toplevel): (p: Size)
    ensures p.w >= MIN_OUTPUT_SIZE && p.h >= MIN_OUTPUT_SIZE
  {
    var c := ClientSize(env, t);
    Size(if c.w < MIN_OUTPUT_SIZE then DEFAULT_WIDTH else c.w,
         if c.h < MIN_OUTPUT_SIZE then DEFAULT_HEIGHT else c.h)
  }

  // The configure size that would confirm what the client committed.
  function Asserted(env: Env, t: Toplevel): (c: Size)
    ensures Positive(c)
  {
    var p := Preferred(env, t);
    Size(if t.geo.w > 0 then t.geo.w else p.w, if t.geo.h > 0 then t.geo.h else p.h)
  }

  // The host size the client would like.
  function Wanted(env: Env, t: Toplevel): (o: Size)
    ensures Positive(o)
  {
    Scaled(env, Preferred(env, t))
  }

  function AtLeastOne(x: int): int {
    if x < 1 then 1 else x
  }

  // wlx_toplevel_size_for_output: the configure size that fills the host window.
  function FillTarget(env: Env, s: State): Size {
    var l := Unscaled(env, s.out);
    if env.csd && !Tiled(s.top) && (s.margin.w > 0 || s.margin.h > 0)
    then Size(AtLeastOne(l.w - s.margin.w), AtLeastOne(l.h - s.margin.h))
    else l
  }

  // ---- Configures ----

  function SetSize(s: State, a: Size): State {
    s.(confs := s.confs + [a], lastConf := if Positive(a) then a else s.lastConf)
  }

  // What the newest request asks of the client; ZERO leaves the size to the client.
  function Newest(s: State): Size {
    if s.confs == [] then ZERO else s.confs[|s.confs| - 1]
  }

  // The remembered size is not what the client goes by: a remap has since left it the choice.
  predicate Superseded(s: State) {
    !Positive(Newest(s)) && Positive(s.lastConf)
  }

  // The remembered size fills the host window.
  predicate ToldToFill(env: Env, s: State) {
    Positive(s.lastConf) && Near(FillTarget(env, s), s.lastConf)
  }

  predicate Fills(env: Env, s: State) {
    Positive(s.top.geo) && Near(FillTarget(env, s), s.top.geo)
  }

  // fill_host keeps quiet: nothing to say, or said less than half a second ago.
  predicate FillSuppressed(env: Env, s: State, now: int) {
    || !s.mapped
    || !Positive(FillTarget(env, s))
    || (ToldToFill(env, s) &&
        (Fills(env, s) || (s.fillLastMsec > 0 && now - s.fillLastMsec < FILL_HOST_MS)))
  }

  function FillHost(env: Env, s: State, now: int): State {
    if FillSuppressed(env, s, now) then s
    else SetSize(s.(fillLastMsec := if ToldToFill(env, s) then now else s.fillLastMsec),
                 FillTarget(env, s))
  }

  // ---- The output ----

  // The output's commit handler.
  function OutputCommit(env: Env, s: State, now: int): State {
    if !Positive(s.out) || s.out == s.lastOut then s
    else FillHost(env, s.(lastOut := s.out), now)
  }

  // wlr_output_commit_state with a mode: on success the size changes and the handler runs
  // before the call returns; on failure nothing happens.
  function CommitMode(env: Env, s: State, a: Size, now: int, ok: bool): State {
    if ok then OutputCommit(env, s.(out := a), now) else s
  }

  function ResizeOutputTo(env: Env, s: State, a: Size, now: int, ok: bool): State {
    if !s.mapped || a.w < MIN_OUTPUT_SIZE || a.h < MIN_OUTPUT_SIZE || s.out == a then s
    else
      var s' := CommitMode(env, s, a, now, ok);
      s'.(lastOut := s'.out)
  }

  // ---- Surface commit ----

  // What the toplevel and the CSD margin look like once a commit is applied.
  function Applied(s: State, geo: Size, surf: Size): State {
    s.(top := Toplevel(geo, surf, s.top.pend, s.top.pend), initialSent := true,
       margin := if Positive(geo) && Positive(surf)
                 then Size(if surf.w < geo.w then 0 else surf.w - geo.w,
                           if surf.h < geo.h then 0 else surf.h - geo.h)
                 else s.margin)
  }

  predicate Mismatch(env: Env, s: State) {
    !Near(Wanted(env, s.top), s.out)
  }

  predicate AssertsOwnSize(env: Env, s: State) {
    !Positive(s.lastConf) || !Near(Asserted(env, s.top), s.lastConf)
  }

  predicate WantsSmaller(env: Env, s: State) {
    Wanted(env, s.top).w < s.out.w - 1 || Wanted(env, s.top).h < s.out.h - 1
  }

  // The commit takes size authority back from the host.
  predicate Releases(env: Env, s: State) {
    AssertsOwnSize(env, s) && !Tiled(s.top) && WantsSmaller(env, s)
  }

  // A -> B -> A inside the guard interval.
  predicate Oscillates(env: Env, s: State, now: int) {
    && s.fitLast.w > 0 && s.fitPrev.w > 0
    && s.fitLastMsec > 0 && 0 <= now - s.fitLastMsec < FIT_OSCILLATION_MS
    && Wanted(env, s.top) == s.fitPrev
    && s.fitLast != s.fitPrev
  }

  datatype Decision = Leave | Blocked | FitHost | HoldHost

  function Decide(env: Env, s: State, now: int): Decision {
    if !Mismatch(env, s) then Leave
    else if HostOwnsSize(s) then HoldHost
    else if Oscillates(env, s, now) then Blocked
    else FitHost
  }

  function RecordFit(env: Env, s: State, now: int): State {
    s.(fitPrev := s.fitLast, fitLast := Wanted(env, s.top), fitLastMsec := now,
       fits := s.fits + [Fit(Wanted(env, s.top), now)])
  }

  function ApplyFit(env: Env, s: State, now: int, later: int, ok: bool): State {
    var a := Asserted(env, s.top);
    var s' := ResizeOutputTo(env, RecordFit(env, s, now), Wanted(env, s.top), later, ok);
    if s'.lastConf != a then SetSize(s', a) else s'
  }

  function Release(env: Env, s: State): State {
    s.(sizeFromWm := s.sizeFromWm && !Releases(env, s))
  }

  // The clock is read for the oscillation guard (now) and again inside fill_host (later).
  function Negotiate(env: Env, s: State, now: int, later: int, ok: bool): State {
    var r := Release(env, s);
    match Decide(env, r, now)
    case Leave => r
    case Blocked => r
    case FitHost => ApplyFit(env, r, now, later, ok)
    case HoldHost => FillHost(env, r, later)
  }

  function SurfaceCommit(env: Env, s: State, geo: Size, surf: Size, now: int, later: int, ok: bool): State {
    var a := Applied(s, geo, surf);
    if a.mapped then Negotiate(env, a, now, later, ok) else a
  }

  // ---- Host events ----

  // Mirrors one host flag: maximize and fullscreen take authority, restoring gives it back.
  function MirrorFlag(s: State, host: bool, client: bool): State {
    if host == client then s
    else if host then s.(sizeFromWm := true, margin := ZERO)
    else s.(sizeFromWm := false)
  }

  // win_handle_net_wm_state_notify; reply is None when the property could not be read.
  function NetWmState(env: Env, s: State, reply: Option<Flags>, now: int): State {
    if !s.initialSent || reply == None then s
    else
      var host := reply.value;
      var m := MirrorFlag(s, host.maximized, Maximized(s.top));
      var f := MirrorFlag(m, host.fullscreen, Fullscreen(s.top));
      if host.maximized || host.fullscreen then FillHost(env, f, now) else f
  }

  // output_request_state with a mode.
  function RequestState(env: Env, s: State, req: Size, reply: Option<Flags>, now: int, later: int, ok: bool): State {
    if !s.mapped || !Positive(req) || req == s.out then s
    else CommitMode(env, NetWmState(env, s.(sizeFromWm := true), reply, now), req, later, ok)
  }

  // ReparentNotify: the drawable turned out to have another size.
  function Reparent(env: Env, s: State, drawable: Size, now: int, ok: bool): State {
    if !s.mapped || !Positive(drawable) || drawable == s.out then s
    else SetSize(ResizeOutputTo(env, s, drawable, now, ok), Unscaled(env, drawable))
  }

  // create_output_for_window, on the commit that maps the surface; created says whether an X11
  // output could be made. No listener is attached to it yet, so its commit only sets the size;
  // the placeholder is 1x1. The request 0x0 lets the client pick its own size.
  function Map(env: Env, s: State, geo: Size, surf: Size, created: bool, ok: bool): State {
    if s.mapped then s
    else
      var c := s.(top := Toplevel(geo, surf, s.top.pend, s.top.pend), sizeFromWm := false);
      if !created then c
      else
        var out := if ok then Wanted(env, c.top) else Size(1, 1);
        SetSize(c.(mapped := true, out := out, lastOut := out), ZERO)
  }

  // ---- Runs ----

  datatype Event =
    | EvAck(flags: Flags)
    | EvCommit(geo: Size, surf: Size, now: int, later: int, ok: bool)
    | EvMap(geo: Size, surf: Size, created: bool, ok: bool)
    | EvUnmap
    | EvRequestState(req: Size, reply: Option<Flags>, now: int, later: int, ok: bool)
    | EvNetWmState(reply: Option<Flags>, now: int, later: int)
    | EvReparent(drawable: Size, now: int, later: int, ok: bool)

  function Step(env: Env, s: State, e: Event): State {
    match e
    case EvAck(flags) => s.(top := s.top.(pend := flags))
    case EvCommit(geo, surf, now, later, ok) => SurfaceCommit(env, s, geo, surf, now, later, ok)
    case EvMap(geo, surf, created, ok) => Map(env, s, geo, surf, created, ok)
    case EvUnmap => s.(mapped := false)
    case EvRequestState(req, reply, now, later, ok) => RequestState(env, s, req, reply, now, later, ok)
    case EvNetWmState(reply, now, later) => NetWmState(env, s, reply, later)
    case EvReparent(drawable, now, later, ok) => Reparent(env, s, drawable, later, ok)
  }

  function Run(env: Env, s: State, es: seq<Event>): State
    decreases |es|
  {
    if es == [] then s else Step(env, Run(env, s, es[..|es|-1]), es[|es|-1])
  }

  // The clock is positive and never runs backwards.
  predicate Timed(e: Event, from: int) {
    e.EvAck? || e.EvMap? || e.EvUnmap? || from <= e.now <= e.later
  }

  function ClockAfter(e: Event, from: int): int {
    if e.EvAck? || e.EvMap? || e.EvUnmap? then from else e.later
  }

  function Clock(start: int, es: seq<Event>): int
    decreases |es|
  {
    if es == [] then start else ClockAfter(es[|es|-1], Clock(start, es[..|es|-1]))
  }

  predicate WellTimed(start: int, es: seq<Event>) {
    && start > 0
    && forall i :: 0 <= i < |es| ==> Timed(es[i], Clock(start, es[..i]))
  }
}

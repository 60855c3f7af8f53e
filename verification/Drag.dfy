// Interactive move and resize: every update asks the window manager for pointer plus a fixed
// offset, minus what the last ConfigureNotify taught about where the manager really puts
// frames (section 4.1.5 of the ICCCM).
// src/move_resize.c, src/input.c (update_interactive_drag), src/x11.c:835-866.

module Drag {
  import opened Base

  datatype Point = Point(x: int, y: int) {
    function Plus(p: Point): Point {
      Point(x + p.x, y + p.y)
    }

    function Minus(p: Point): Point {
      Point(x - p.x, y - p.y)
    }
  }

  datatype Extent = Extent(w: int, h: int)

  datatype Edges = Edges(left: bool, right: bool, top: bool, bottom: bool)

  const MIN_WINDOW_SIZE: int := 50
  const THROTTLE_MS: int := 16
  const ORIGIN: Point := Point(0, 0)

  // struct timespec
  datatype Time = Time(sec: int, nsec: int)

  datatype Mode =
    | Idle
    | Move(offset: Point)
    | Resize(edges: Edges, start: Point, size: Extent, grab: Point)

  // What the window manager is asked for; a move does not mention the size.
  datatype Request = Request(at: Point, size: Option<Extent>)

  datatype State = State(mode: Mode, lastSend: Time, requested: Point, correction: Point)

  // ---- Throttle ----

  // C division truncates towards zero.
  function TruncDiv(a: int, b: int): int
    requires b > 0
  {
    if a >= 0 then a / b else -(-a / b)
  }

  function ElapsedMs(from: Time, to: Time): int {
    (to.sec - from.sec) * 1000 + TruncDiv(to.nsec - from.nsec, 1_000_000)
  }

  predicate Ready(s: State, now: Time) {
    ElapsedMs(s.lastSend, now) >= THROTTLE_MS
  }

  // ---- Starting a drag ----

  // frame and pointer are the root positions the X server reports at that moment.
  function BeginMove(s: State, frame: Point, pointer: Point): State {
    State(Move(frame.Minus(pointer)), Time(0, 0), frame, ORIGIN)
  }

  // A move in progress goes on taking precedence.
  function BeginResize(s: State, edges: Edges, frame: Point, size: Extent, pointer: Point): State {
    State(if s.mode.Move? then s.mode else Resize(edges, frame, size, pointer), Time(0, 0), frame, ORIGIN)
  }

  // ---- Updates ----

  function AtLeast(x: int, min: int): int {
    if x < min then min else x
  }

  // Where the frame should go, before the correction.
  function Target(m: Mode, pointer: Point): (r: Request)
    requires m != Idle
  {
    match m
    case Move(offset) => Request(pointer.Plus(offset), None)
    case Resize(e, start, size, grab) =>
      var d := pointer.Minus(grab);
      Request(Point(if e.left then start.x + d.x else start.x, if e.top then start.y + d.y else start.y),
              Some(Extent(AtLeast(if e.left then size.w - d.x else if e.right then size.w + d.x else size.w, MIN_WINDOW_SIZE),
                          AtLeast(if e.top then size.h - d.y else if e.bottom then size.h + d.y else size.h, MIN_WINDOW_SIZE))))
  }

  // One pointer motion; pointer is None when the server cannot be asked.
  function Update(s: State, now: Time, pointer: Option<Point>): (State, Option<Request>) {
    if s.mode == Idle || !Ready(s, now) then (s, None)
    else
      var t := s.(lastSend := now);
      if pointer == None then (t, None)
      else
        var r := Target(s.mode, pointer.value);
        var at := r.at.Minus(s.correction);
        (t.(requested := at), Some(r.(at := at)))
  }

  // ---- Feedback ----

  // xwin is the frame once the manager has reparented the client, content the client window;
  // 0 stands for no window.
  datatype Windows = Windows(xwin: nat, content: nat)

  // The notify is about the frame, or there is no separate frame.
  predicate Accepted(ws: Windows, window: nat) {
    var target := if ws.content != 0 then ws.content else ws.xwin;
    && (window == target || window == ws.xwin)
    && (window == ws.xwin || ws.content == 0 || ws.content == ws.xwin)
  }

  function Notify(s: State, ws: Windows, window: nat, at: Point): State {
    if s.mode != Idle && Accepted(ws, window) then s.(correction := at.Minus(s.requested)) else s
  }

  // ---- Runs ----

  datatype Event =
    | EvUpdate(now: Time, pointer: Option<Point>)
    | EvNotify(ws: Windows, window: nat, at: Point)

  function Step(s: State, e: Event): State {
    match e
    case EvUpdate(now, pointer) => Update(s, now, pointer).0
    case EvNotify(ws, window, at) => Notify(s, ws, window, at)
  }

  function Run(s: State, es: seq<Event>): State
    decreases |es|
  {
    if es == [] then s else Step(Run(s, es[..|es|-1]), es[|es|-1])
  }

  // The manager puts frames at the requested position plus a constant.
  function Placed(r: Request, inset: Point): Point {
    r.at.Plus(inset)
  }

  // The notify answers the request that is the latest when it arrives.
  predicate InOrder(s: State, e: Event, inset: Point) {
    e.EvNotify? ==> e.at == s.requested.Plus(inset)
  }

  predicate Learns(e: Event) {
    e.EvNotify? && Accepted(e.ws, e.window)
  }

  // One in-order notify is enough, whatever was learned before it.
  lemma InOrderTeaches(s: State, e: Event, inset: Point)
    requires s.mode != Idle && Learns(e) && InOrder(s, e, inset)
    ensures Step(s, e).correction == inset
  {
  }

  // With the right correction the frame lands on its target.
  lemma LandsOnTarget(s: State, e: Event, inset: Point)
    requires s.mode != Idle && e.EvUpdate? && s.correction == inset
    ensures var (s', r) := Update(s, e.now, e.pointer);
            && s'.correction == inset && s'.mode == s.mode
            && (r.Some? ==> e.pointer.Some? && Placed(r.value, inset) == Target(s.mode, e.pointer.value).at)
  {
  }

  // Between events i and j every notify that is learned from answers the latest request.
  ghost predicate AnsweredInOrder(s: State, es: seq<Event>, i: nat, j: nat, inset: Point)
    requires i <= j <= |es|
  {
    forall n :: i <= n < j && Learns(es[n]) ==> InOrder(Run(s, es[..n]), es[n], inset)
  }

  lemma RunStep(s: State, es: seq<Event>, n: nat)
    requires n < |es|
    ensures Run(s, es[..n + 1]) == Step(Run(s, es[..n]), es[n])
  {
    assert es[..n + 1][..n] == es[..n];
  }

  lemma {:induction false} ModeKept(s: State, es: seq<Event>)
    ensures Run(s, es).mode == s.mode
    decreases |es|
  {
    if es != [] {
      ModeKept(s, es[..|es|-1]);
    }
  }

  lemma {:induction false} StaysCorrect(s: State, es: seq<Event>, i: nat, j: nat, inset: Point)
    requires s.mode != Idle
    requires i < j <= |es| && Learns(es[i]) && AnsweredInOrder(s, es, i, j, inset)
    ensures Run(s, es[..j]).correction == inset
    decreases j - i
  {
    var n := j - 1;
    RunStep(s, es, n);
    ModeKept(s, es[..n]);
    var m := Run(s, es[..n]);
    if n == i || Learns(es[n]) {
      InOrderTeaches(m, es[n], inset);
    } else {
      StaysCorrect(s, es, i, n, inset);
    }
  }

  // Convergence. Whatever happened before event i (stale or noisy notifies included), once
  // event i answers the latest request and as long as later answers come in order, every
  // update lands the frame exactly on its target: pointer plus start offset for a move.
  lemma DragConverges(s: State, es: seq<Event>, i: nat, j: nat, inset: Point)
    requires s.mode != Idle
    requires i < j < |es| && Learns(es[i]) && es[j].EvUpdate?
    requires AnsweredInOrder(s, es, i, j, inset)
    ensures var m := Run(s, es[..j]);
            var r := Update(m, es[j].now, es[j].pointer).1;
            r.Some? ==> && es[j].pointer.Some?
                        && Placed(r.value, inset) == Target(s.mode, es[j].pointer.value).at
                        && (s.mode.Move? ==> Placed(r.value, inset) == es[j].pointer.value.Plus(s.mode.offset))
  {
    StaysCorrect(s, es, i, j, inset);
    ModeKept(s, es[..j]);
    LandsOnTarget(Run(s, es[..j]), es[j], inset);
  }

  // What a stale notify costs: the next update is off by the distance between the latest
  // request and the one the notify answers.
  lemma StaleNotifyError(s: State, e: Event, answered: Point, inset: Point, now: Time, pointer: Point)
    requires s.mode != Idle && Learns(e) && e.at == answered.Plus(inset)
    ensures var r := Update(Step(s, e), now, Some(pointer)).1;
            r.Some? ==> Placed(r.value, inset) == Target(s.mode, pointer).at.Plus(s.requested.Minus(answered))
  {
  }

  // ---- A manager that is always one request late ----

  // One update, with the pointer held still, and the notify that answers the request before it.
  function LateRound(s: State, inset: Point, now: Time, pointer: Point): State {
    Notify(Update(s, now, Some(pointer)).0, Windows(1, 1), 1, s.requested.Plus(inset))
  }

  function LateRounds(s: State, inset: Point, nows: seq<Time>, pointer: Point): State
    decreases |nows|
  {
    if nows == [] then s else LateRound(LateRounds(s, inset, nows[..|nows|-1], pointer), inset, nows[|nows|-1], pointer)
  }

  // The throttle lets every update of the rounds through.
  predicate AllSend(s: State, inset: Point, nows: seq<Time>, pointer: Point)
    decreases |nows|
  {
    nows == [] ||
    (AllSend(s, inset, nows[..|nows|-1], pointer) &&
     Ready(LateRounds(s, inset, nows[..|nows|-1], pointer), nows[|nows|-1]))
  }

  // The frame that the latest request brings about is on its target.
  predicate OnTarget(s: State, inset: Point, pointer: Point)
    requires s.mode != Idle
  {
    s.requested.Plus(inset) == Target(s.mode, pointer).at
  }

  // On target, and the correction is right.
  predicate Locked(s: State, inset: Point, pointer: Point)
    requires s.mode != Idle
  {
    OnTarget(s, inset, pointer) && s.correction == inset
  }

  // The recurrence: what a round asks for depends on the two requests before it.
  lemma LateRequest(s: State, inset: Point, now: Time, pointer: Point)
    requires s.mode != Idle && Ready(s, now)
    ensures var s' := LateRound(s, inset, now, pointer);
            && s'.mode == s.mode
            && s'.requested == Target(s.mode, pointer).at.Minus(s.correction)
            && s'.correction == s.requested.Plus(inset).Minus(s'.requested)
  {
  }

  // Three rounds turn every error into its opposite, and six repeat it: the error never fades.
  lemma ErrorsRepeat(s: State, inset: Point, nows: seq<Time>, pointer: Point)
    requires s.mode != Idle && |nows| == 3 && AllSend(s, inset, nows, pointer)
    ensures var s', t := LateRounds(s, inset, nows, pointer), Target(s.mode, pointer).at;
            && s'.mode == s.mode
            && s'.requested.Plus(inset).Minus(t) == t.Minus(s.requested.Plus(inset))
            && s'.correction.Minus(inset) == inset.Minus(s.correction)
  {
    var a, b := nows[..2], nows[..1];
    assert a[..1] == b && b[..0] == [] && nows[..0] == [];
    assert AllSend(s, inset, a, pointer) && AllSend(s, inset, b, pointer);
    assert LateRounds(s, inset, b, pointer) == LateRound(s, inset, nows[0], pointer);
    LateRequest(s, inset, nows[0], pointer);
    LateRequest(LateRounds(s, inset, b, pointer), inset, nows[1], pointer);
    LateRequest(LateRounds(s, inset, a, pointer), inset, nows[2], pointer);
  }

  lemma LockedExactly(s: State, inset: Point, now: Time, pointer: Point)
    requires s.mode != Idle && Ready(s, now)
    ensures var s' := LateRound(s, inset, now, pointer);
            && s'.mode == s.mode
            && (Locked(s', inset, pointer) <==> Locked(s, inset, pointer))
            && (OnTarget(s, inset, pointer) && OnTarget(s', inset, pointer) <==> Locked(s, inset, pointer))
  {
    LateRequest(s, inset, now, pointer);
  }

  // Under a manager that is always one request late, two successive requests land on target after
  // any number of rounds exactly if the drag was locked before the first: it never gets there.
  lemma {:induction false} LateNeverSettles(s: State, inset: Point, nows: seq<Time>, now: Time, pointer: Point)
    requires s.mode != Idle && AllSend(s, inset, nows, pointer)
    requires Ready(LateRounds(s, inset, nows, pointer), now)
    ensures var m := LateRounds(s, inset, nows, pointer);
            var m' := LateRound(m, inset, now, pointer);
            && m.mode == m'.mode == s.mode
            && (OnTarget(m, inset, pointer) && OnTarget(m', inset, pointer) <==> Locked(s, inset, pointer))
  {
    LockedStays(s, inset, nows, pointer);
    LockedExactly(LateRounds(s, inset, nows, pointer), inset, now, pointer);
  }

  lemma {:induction false} LockedStays(s: State, inset: Point, nows: seq<Time>, pointer: Point)
    requires s.mode != Idle && AllSend(s, inset, nows, pointer)
    ensures var m := LateRounds(s, inset, nows, pointer);
            m.mode == s.mode && (Locked(m, inset, pointer) <==> Locked(s, inset, pointer))
    decreases |nows|
  {
    if nows != [] {
      var p := nows[..|nows|-1];
      LockedStays(s, inset, p, pointer);
      LockedExactly(LateRounds(s, inset, p, pointer), inset, nows[|nows|-1], pointer);
    }
  }

  // A move starts locked exactly if the manager adds nothing and the pointer has not moved.
  lemma MoveStartsLocked(s: State, frame: Point, grab: Point, inset: Point, pointer: Point)
    ensures Locked(BeginMove(s, frame, grab), inset, pointer) <==> inset == ORIGIN && pointer == grab
  {
  }

  // ---- Starting ----

  predicate AfterBoot(now: Time) {
    now.sec >= 1 && now.nsec >= 0
  }

  // Whatever went before, the first update of a drag is not throttled, and before any notify it
  // asks for exactly where the frame already is.
  lemma FirstUpdateIsNoOp(s: State, frame: Point, pointer: Point, now: Time)
    ensures var r := Update(BeginMove(s, frame, pointer), now, Some(pointer)).1;
            && (r.Some? ==> r.value == Request(frame, None))
            && (AfterBoot(now) ==> r.Some?)
  {
  }

  // The same for a resize; sizes below the minimum are raised at once.
  lemma FirstResizeIsNoOp(s: State, edges: Edges, frame: Point, size: Extent, pointer: Point, now: Time)
    requires !s.mode.Move?
    ensures var r := Update(BeginResize(s, edges, frame, size, pointer), now, Some(pointer)).1;
            && (r.Some? ==> r.value == Request(frame, Some(Extent(AtLeast(size.w, 50), AtLeast(size.h, 50)))))
            && (AfterBoot(now) ==> r.Some?)
  {
  }

  // A resize that begins during a move only makes the move forget what it has learned: the frame
  // goes on following the pointer, at its size.
  lemma ResizeDuringMove(s: State, edges: Edges, frame: Point, size: Extent, grab: Point, now: Time, pointer: Point)
    requires s.mode.Move?
    ensures var r := Update(BeginResize(s, edges, frame, size, grab), now, Some(pointer)).1;
            && (r.Some? ==> r.value == Request(pointer.Plus(s.mode.offset), None))
            && (AfterBoot(now) ==> r.Some?)
  {
  }

  // An update at which the pointer cannot be asked asks for nothing, but uses up its turn.
  lemma BlindUpdate(s: State, now: Time)
    requires s.mode != Idle && Ready(s, now)
    ensures Update(s, now, None) == (s.(lastSend := now), None)
  {
  }

  // ---- Learning ----

  // The cases of the handler come to this: only notifies about the frame itself are learned
  // from, and only during a drag.
  lemma OnlyTheFrameTeaches(s: State, ws: Windows, window: nat, at: Point)
    ensures var s' := Notify(s, ws, window, at);
            s' == if s.mode != Idle && window == ws.xwin then s.(correction := at.Minus(s.requested)) else s
  {
  }

  // ---- Resizing ----

  // The edge opposite to the dragged one stays put exactly as long as the minimum size does not
  // bite; beyond that the window is pushed along by the difference.
  lemma OppositeEdgeAnchored(m: Mode, pointer: Point)
    requires m.Resize?
    ensures var r := Target(m, pointer);
            var dx, dy := pointer.x - m.grab.x, pointer.y - m.grab.y;
            && r.size.Some? && r.size.value.w >= MIN_WINDOW_SIZE && r.size.value.h >= MIN_WINDOW_SIZE
            && (m.edges.left ==>
                  (r.at.x + r.size.value.w == m.start.x + m.size.w <==> m.size.w - dx >= MIN_WINDOW_SIZE))
            && (m.edges.top ==>
                  (r.at.y + r.size.value.h == m.start.y + m.size.h <==> m.size.h - dy >= MIN_WINDOW_SIZE))
            && (!m.edges.left ==> r.at.x == m.start.x)
            && (!m.edges.top ==> r.at.y == m.start.y)
  {
  }

  // The minimum size does not bite. A dragged left edge wins over a dragged right one, and top
  // over bottom.
  predicate RoomAcross(m: Mode, dx: int)
    requires m.Resize?
  {
    m.size.w + (if m.edges.left then -dx else if m.edges.right then dx else 0) >= 50
  }

  predicate RoomDown(m: Mode, dy: int)
    requires m.Resize?
  {
    m.size.h + (if m.edges.top then -dy else if m.edges.bottom then dy else 0) >= 50
  }

  // Where the edges of the frame are: the left and top ones follow the pointer if dragged and
  // stay otherwise; so do the right and bottom ones, exactly as long as the minimum size does
  // not bite. Where it bites, the size is the minimum.
  predicate EdgesFollow(m: Mode, pointer: Point, at: Point, size: Extent)
    requires m.Resize?
  {
    var dx, dy := pointer.x - m.grab.x, pointer.y - m.grab.y;
    && at.x == m.start.x + (if m.edges.left then dx else 0)
    && at.y == m.start.y + (if m.edges.top then dy else 0)
    && (at.x + size.w == m.start.x + m.size.w + (if m.edges.right && !m.edges.left then dx else 0) <==> RoomAcross(m, dx))
    && (at.y + size.h == m.start.y + m.size.h + (if m.edges.bottom && !m.edges.top then dy else 0) <==> RoomDown(m, dy))
    && (!RoomAcross(m, dx) ==> size.w == 50)
    && (!RoomDown(m, dy) ==> size.h == 50)
  }

  lemma DraggedEdgeFollows(m: Mode, pointer: Point)
    requires m.Resize?
    ensures var r := Target(m, pointer);
            r.size.Some? && EdgesFollow(m, pointer, r.at, r.size.value)
  {
  }

  // On the screen, too: once a notify has answered the latest request, every update puts the
  // edges of the real frame there.
  lemma DraggedEdgeLands(s: State, es: seq<Event>, i: nat, j: nat, inset: Point)
    requires s.mode.Resize?
    requires i < j < |es| && Learns(es[i]) && es[j].EvUpdate?
    requires AnsweredInOrder(s, es, i, j, inset)
    ensures var r := Update(Run(s, es[..j]), es[j].now, es[j].pointer).1;
            r.Some? ==>
              && es[j].pointer.Some? && r.value.size.Some?
              && EdgesFollow(s.mode, es[j].pointer.value, Placed(r.value, inset), r.value.size.value)
  {
    hide Run, AnsweredInOrder, Ready, Accepted, EdgesFollow, Target;
    DragConverges(s, es, i, j, inset);
    ModeKept(s, es[..j]);
    if es[j].pointer.Some? {
      DraggedEdgeFollows(s.mode, es[j].pointer.value);
    }
  }

  // The left edge of a window 100 wide, dragged 80 to the right: the right edge goes from 100 to
  // 130.
  lemma PushedEdgeWitness()
    ensures var m := BeginResize(State(Idle, Time(0, 0), ORIGIN, ORIGIN), Edges(true, false, false, false),
                                 ORIGIN, Extent(100, 100), ORIGIN);
            Update(m, Time(1, 0), Some(Point(80, 0))).1 == Some(Request(Point(80, 0), Some(Extent(50, 100))))
  {
  }

  // ---- The throttle, in real time ----

  function Nanoseconds(t: Time): int {
    t.sec * 1_000_000_000 + t.nsec
  }

  predicate Normalized(t: Time) {
    0 <= t.nsec < 1_000_000_000
  }

  lemma TruncBounds(a: int)
    ensures var q := TruncDiv(a, 1_000_000);
            if a >= 0 then q * 1_000_000 <= a < (q + 1) * 1_000_000
            else (q - 1) * 1_000_000 < a <= q * 1_000_000
  {
  }

  // Truncation may round the elapsed time up by almost a millisecond: two sends are more than
  // 15 ms apart.
  lemma ThrottleSpacing(s: State, now: Time)
    requires Ready(s, now)
    ensures Nanoseconds(now) - Nanoseconds(s.lastSend) > 15_000_000
  {
    TruncBounds(now.nsec - s.lastSend.nsec);
  }

  // The nanosecond fields run backwards by a broken number of milliseconds, and the elapsed
  // time, rounded up by that, just reaches the throttle.
  predicate RoundedUp(from: Time, to: Time) {
    var d := to.nsec - from.nsec;
    d < 0 && d % 1_000_000 != 0 && ElapsedMs(from, to) == THROTTLE_MS
  }

  // Those are exactly the sends less than 16 ms apart.
  lemma ThrottleExactly(s: State, now: Time)
    requires Ready(s, now)
    ensures Nanoseconds(now) - Nanoseconds(s.lastSend) < 16_000_000 <==> RoundedUp(s.lastSend, now)
  {
    hide TruncDiv;
    var d := now.nsec - s.lastSend.nsec;
    TruncExact(d);
    assert ElapsedMs(s.lastSend, now) == (now.sec - s.lastSend.sec) * 1000 + TruncDiv(d, 1_000_000);
  }

  // Truncation is exact on whole milliseconds and rounds everything else towards zero.
  lemma TruncExact(a: int)
    ensures var q := TruncDiv(a, 1_000_000);
            && (q * 1_000_000 == a <==> a % 1_000_000 == 0)
            && (if a >= 0 then q * 1_000_000 <= a else a <= q * 1_000_000 < a + 1_000_000)
  {
    var n := if a >= 0 then a else -a;
    assert n == n / 1_000_000 * 1_000_000 + n % 1_000_000;
    if a < 0 {
      NegatedRemainder(n);
    }
  }

  lemma NegatedRemainder(n: int)
    ensures (-n) % 1_000_000 == 0 <==> n % 1_000_000 == 0
  {
    var p, q := n / 1_000_000, (-n) / 1_000_000;
    var r, s := n % 1_000_000, (-n) % 1_000_000;
    assert (p + q) * 1_000_000 == -(r + s);
  }

  // ---- The throttle over a run ----

  // Event i asks the window manager for something.
  predicate Sends(s: State, es: seq<Event>, i: nat)
    requires i < |es|
  {
    es[i].EvUpdate? && Update(Run(s, es[..i]), es[i].now, es[i].pointer).1.Some?
  }

  // Whatever the throttle lets through after a send comes more than 15 ms later.
  lemma {:induction false} LastSendAfter(s: State, es: seq<Event>, i: nat, j: nat)
    requires i < j <= |es| && Sends(s, es, i)
    ensures var last := Run(s, es[..j]).lastSend;
            last == es[i].now || Nanoseconds(last) - Nanoseconds(es[i].now) > 15_000_000
    decreases j - i
  {
    var n := j - 1;
    RunStep(s, es, n);
    if n > i {
      LastSendAfter(s, es, i, n);
      var m := Run(s, es[..n]);
      if es[n].EvUpdate? && Ready(m, es[n].now) {
        ThrottleSpacing(m, es[n].now);
      }
    }
  }

  // In every run any two sends are more than 15 ms apart, and they are less than 16 ms apart
  // exactly when the elapsed time between them is rounded up to 16.
  lemma SendsAreSpaced(s: State, es: seq<Event>, i: nat, j: nat)
    requires i < j < |es| && Sends(s, es, i) && Sends(s, es, j)
    ensures Nanoseconds(es[j].now) - Nanoseconds(es[i].now) > 15_000_000
    ensures Nanoseconds(es[j].now) - Nanoseconds(es[i].now) < 16_000_000 <==> RoundedUp(es[i].now, es[j].now)
  {
    LastSendAfter(s, es, i, j);
    var m := Run(s, es[..j]);
    ThrottleSpacing(m, es[j].now);
    ThrottleExactly(m, es[j].now);
    if RoundedUp(es[i].now, es[j].now) {
      ThrottleExactly(m.(lastSend := es[i].now), es[j].now);
    }
  }

  lemma WitnessTimes()
    ensures ElapsedMs(Time(0, 0), Time(1, 999_999_999)) == 1999
    ensures ElapsedMs(Time(1, 999_999_999), Time(2, 15_000_000)) == 16
  {
    assert 999_999_999 / 1_000_000 == 999;
    assert 984_999_999 / 1_000_000 == 984;
  }

  lemma TwoUpdates(s: State, e: Event, f: Event)
    requires e.EvUpdate? && f.EvUpdate?
    ensures Sends(s, [e, f], 0) <==> Update(s, e.now, e.pointer).1.Some?
    ensures Sends(s, [e, f], 1) <==> Update(Update(s, e.now, e.pointer).0, f.now, f.pointer).1.Some?
  {
    hide Update;
    var es := [e, f];
    assert es[..0] == [];
    RunStep(s, es, 0);
  }

  const GRABBED: State := BeginMove(State(Idle, Time(0, 0), ORIGIN, ORIGIN), ORIGIN, ORIGIN)
  const FIRST: Event := EvUpdate(Time(1, 999_999_999), Some(Point(1, 1)))
  const SECOND: Event := EvUpdate(Time(2, 15_000_000), Some(Point(2, 2)))

  // A move in which two requests go out 15.000001 ms apart.
  lemma ThrottleIsNotSixteen()
    ensures Sends(GRABBED, [FIRST, SECOND], 0) && Sends(GRABBED, [FIRST, SECOND], 1)
    ensures Normalized(FIRST.now) && Normalized(SECOND.now)
    ensures Nanoseconds(SECOND.now) - Nanoseconds(FIRST.now) == 15_000_001
  {
    hide Sends, ElapsedMs, Run;
    WitnessTimes();
    TwoUpdates(GRABBED, FIRST, SECOND);
  }
}

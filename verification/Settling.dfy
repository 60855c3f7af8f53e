// Negotiation settles. The host is silent; the client commits the size its newest configure asks
// for (or its own size, while the newest configure leaves it the choice) with a fixed shadow
// margin. From any reachable window the exchange comes to rest.

module Settling {
  import opened Scale
  import opened Negotiation
  import opened Authority

  datatype Client = Client(own: Size, margin: Size)

  predicate Polite(c: Client) {
    Positive(c.own) && c.margin.w >= 0 && c.margin.h >= 0
  }

  // One commit: when the clock is read, and whether the host takes a new mode.
  datatype Tick = Tick(now: int, later: int, ok: bool)

  predicate AllAccepted(ts: seq<Tick>) {
    forall t :: t in ts ==> t.ok
  }

  function Answer(s: State, c: Client): Size {
    if Positive(Newest(s)) then Newest(s) else c.own
  }

  // The window with the client's next commit applied.
  function Next(s: State, c: Client): State {
    var g := Answer(s, c);
    Applied(s, g, Size(g.w + c.margin.w, g.h + c.margin.h))
  }

  // The same, with authority given back if the commit claims it: all that is left of a commit
  // that neither fits nor configures.
  function Waiting(env: Env, s: State, c: Client): State {
    Release(env, Next(s, c))
  }

  function Commit(env: Env, s: State, c: Client, t: Tick): State {
    var g := Answer(s, c);
    SurfaceCommit(env, s, g, Size(g.w + c.margin.w, g.h + c.margin.h), t.now, t.later, t.ok)
  }

  // The commit resized the host window or sent a configure.
  predicate Acts(s: State, s': State) {
    s'.out != s.out || s'.confs != s.confs
  }

  function After(env: Env, s: State, c: Client, ts: seq<Tick>): State
    decreases |ts|
  {
    if ts == [] then s else Commit(env, After(env, s, c, ts[..|ts|-1]), c, ts[|ts|-1])
  }

  function Actions(env: Env, s: State, c: Client, ts: seq<Tick>): nat
    decreases |ts|
  {
    if ts == [] then 0
    else
      var p := ts[..|ts|-1];
      Actions(env, s, c, p) + if Acts(After(env, s, c, p), After(env, s, c, ts)) then 1 else 0
  }

  predicate TooSmall(a: Size) {
    a.w < MIN_OUTPUT_SIZE || a.h < MIN_OUTPUT_SIZE
  }

  // At rest: nothing to negotiate; or the host owns the size, the client has been told and
  // fills it; or the client wants a host size below the minimum, which is never applied.
  predicate Quiet(env: Env, s: State, c: Client) {
    var a := Next(s, c);
    && s.mapped
    && (|| !Mismatch(env, a)
        || (HostOwnsSize(a) && !Releases(env, a) && ToldToFill(env, a) && Fills(env, a))
        || (!HostOwnsSize(a) && TooSmall(Wanted(env, a.top)) && s.lastConf == Answer(s, c)))
  }

  // ---- What can hold a commit up ----

  // The oscillation guard cannot block anything any more.
  predicate GuardExpired(s: State, t: Tick) {
    s.fitLastMsec <= 0 || t.now - s.fitLastMsec >= FIT_OSCILLATION_MS
  }

  // fill_host may remind the client again.
  predicate ReminderExpired(s: State, t: Tick) {
    s.fillLastMsec <= 0 || t.later - s.fillLastMsec >= FILL_HOST_MS
  }

  predicate Refused(env: Env, s: State, c: Client, t: Tick) {
    Decide(env, Waiting(env, s, c), t.now) == Blocked
  }

  // The record says the client was told to fill the host, it does not, and it was reminded.
  predicate Reminded(env: Env, s: State, c: Client) {
    var r := Waiting(env, s, c);
    Mismatch(env, r) && HostOwnsSize(r) && ToldToFill(env, r) && !Fills(env, r) && s.fillLastMsec > 0
  }

  predicate Muted(env: Env, s: State, c: Client, t: Tick) {
    Reminded(env, s, c) && !ReminderExpired(s, t)
  }

  predicate Stuck(env: Env, s: State, c: Client, t: Tick) {
    Refused(env, s, c, t) || Muted(env, s, c, t)
  }

  lemma StuckNeedsTimer(env: Env, s: State, c: Client, t: Tick)
    ensures Refused(env, s, c, t) ==> !GuardExpired(s, t)
    ensures Muted(env, s, c, t) ==> !ReminderExpired(s, t)
  {
  }

  // A client that goes by the remembered size fills the host as soon as it is told to: only one
  // that a remap has left the choice has to be reminded.
  lemma OnlyRemapsNeedReminding(env: Env, s: State, c: Client)
    requires Polite(c) && Inv(s) && Reminded(env, s, c)
    ensures Superseded(s)
  {
    hide Wanted, Asserted;
    assert FillTarget(env, Waiting(env, s, c)) == FillTarget(env, Next(s, c));
  }

  // ---- One commit ----

  lemma WaitingTwice(env: Env, s: State, c: Client)
    ensures Waiting(env, Waiting(env, s, c), c) == Waiting(env, s, c)
  {
    hide Wanted, Asserted;
  }

  lemma WaitingAsBefore(env: Env, s: State, c: Client, t: Tick)
    requires Polite(c) && Inv(s)
    ensures var w := Waiting(env, s, c);
            && (Quiet(env, w, c) <==> Quiet(env, s, c))
            && (Stuck(env, w, c, t) <==> Stuck(env, s, c, t))
  {
    hide Wanted;
    WaitingTwice(env, s, c);
  }

  lemma StuckWaits(env: Env, s: State, c: Client, t: Tick)
    requires s.mapped && Inv(s) && Polite(c) && Stuck(env, s, c, t)
    ensures Commit(env, s, c, t) == Waiting(env, s, c) && !Acts(s, Waiting(env, s, c))
  {
    hide Wanted, Asserted, Oscillates;
    var r := Waiting(env, s, c);
    FillHostKeeps(env, r, t.later);
  }

  // A blocked commit changes neither the host, nor the configures, nor the guard.
  lemma RefusalWaits(env: Env, s: State, c: Client, t: Tick)
    requires s.mapped && Inv(s) && Polite(c) && Refused(env, s, c, t)
    ensures var s' := Commit(env, s, c, t);
            && !Acts(s, s') && s'.mapped && s'.fitLastMsec == s.fitLastMsec
            && !GuardExpired(s, t)
  {
    StuckWaits(env, s, c, t);
  }

  // A client that commits what the record remembers never takes authority back.
  lemma ToldIsAsserted(env: Env, s: State, c: Client)
    requires Polite(c) && Inv(s)
    ensures Positive(Answer(s, c)) && Asserted(env, Next(s, c).top) == Answer(s, c)
    ensures s.lastConf == Answer(s, c) ==> !Releases(env, Next(s, c))
  {
    hide Wanted;
  }

  lemma HoldSettles(env: Env, s: State, c: Client, t: Tick)
    requires Polite(c) && Inv(s) && s.mapped
    requires Decide(env, Waiting(env, s, c), t.now) == HoldHost && !Muted(env, s, c, t)
    ensures Quiet(env, Commit(env, s, c, t), c)
  {
    hide Wanted, Asserted, Oscillates, Unscaled;
    var r := Waiting(env, s, c);
    var s' := Commit(env, s, c, t);
    FillTargetPositive(env, r);
    FillHostKeeps(env, r, t.later);
    WaitingTwice(env, s, c);
    assert FillTarget(env, Next(s', c)) == FillTarget(env, r);
    if !FillSuppressed(env, r, t.later) {
      assert Newest(s') == FillTarget(env, r);
      ToldIsAsserted(env, s', c);
    }
  }

  // A fit ends with the client's own size remembered; the newest configure says the same or
  // still leaves the client the choice.
  lemma FitAnswer(env: Env, s: State, c: Client, t: Tick)
    requires Polite(c) && Inv(s) && s.mapped
    requires Decide(env, Waiting(env, s, c), t.now) == FitHost
    ensures var s' := Commit(env, s, c, t);
            s'.lastConf == Answer(s', c) == Answer(s, c)
  {
    hide Wanted, FillTarget;
    var r := Waiting(env, s, c);
    ToldIsAsserted(env, s, c);
    FitEffect(env, r, t.now, t.later, t.ok);
    var f := RecordFit(env, r, t.now);
    var want := Wanted(env, r.top);
    FillHostKeeps(env, f.(out := want, lastOut := want), t.later);
  }

  lemma FitSettles(env: Env, s: State, c: Client, t: Tick)
    requires Polite(c) && Inv(s) && s.mapped && t.ok
    requires Decide(env, Waiting(env, s, c), t.now) == FitHost
    ensures Quiet(env, Commit(env, s, c, t), c)
  {
    hide ApplyFit, Asserted, FillTarget;
    FitEffect(env, Waiting(env, s, c), t.now, t.later, t.ok);
    FitAnswer(env, s, c, t);
  }

  // Unless a timer holds it up, one commit is enough.
  lemma OneCommitSettles(env: Env, s: State, c: Client, t: Tick)
    requires Polite(c) && Inv(s) && s.mapped && t.ok
    requires !Stuck(env, s, c, t)
    ensures Quiet(env, Commit(env, s, c, t), c)
  {
    hide Wanted, Asserted, ApplyFit, FillHost, FillTarget;
    match Decide(env, Waiting(env, s, c), t.now)
    case HoldHost => HoldSettles(env, s, c, t);
    case FitHost => FitSettles(env, s, c, t);
    case Leave => WaitingTwice(env, s, c);
  }

  lemma CommitStaysMapped(env: Env, s: State, c: Client, t: Tick)
    requires Inv(s) && s.mapped
    ensures var s' := Commit(env, s, c, t); Inv(s') && s'.mapped
  {
    hide FillHost, ApplyFit, Releases, Oscillates, Mismatch;
    var g := Answer(s, c);
    CommitKeepsInv(env, s, g, Size(g.w + c.margin.w, g.h + c.margin.h), t.now, t.later, t.ok);
    var r := Waiting(env, s, c);
    FillHostKeeps(env, r, t.later);
    FitEffect(env, r, t.now, t.later, t.ok);
  }

  lemma {:induction false} StaysMapped(env: Env, s: State, c: Client, ts: seq<Tick>)
    requires Inv(s) && s.mapped
    ensures var s' := After(env, s, c, ts); Inv(s') && s'.mapped
    decreases |ts|
  {
    if ts != [] {
      StaysMapped(env, s, c, ts[..|ts|-1]);
      CommitStaysMapped(env, After(env, s, c, ts[..|ts|-1]), c, ts[|ts|-1]);
    }
  }

  // ---- At rest ----

  lemma QuietHold(env: Env, s: State, c: Client, t: Tick)
    requires Polite(c) && Inv(s) && Quiet(env, s, c)
    requires var a := Next(s, c); Mismatch(env, a) && HostOwnsSize(a)
    ensures Commit(env, s, c, t) == Next(s, c)
  {
    hide Wanted, Asserted, Oscillates;
    assert FillHost(env, Next(s, c), t.later) == Next(s, c);
  }

  lemma QuietFit(env: Env, s: State, c: Client, t: Tick)
    requires Polite(c) && Inv(s) && Quiet(env, s, c)
    requires var a := Next(s, c); Mismatch(env, a) && !HostOwnsSize(a)
    ensures var a, s' := Next(s, c), Commit(env, s, c, t);
            s' == a || s' == RecordFit(env, a, t.now)
  {
    hide Wanted, Asserted, Oscillates, FillTarget;
    ToldIsAsserted(env, s, c);
  }

  lemma QuietStays(env: Env, s: State, c: Client, t: Tick)
    requires Polite(c) && Inv(s) && Quiet(env, s, c)
    ensures var s' := Commit(env, s, c, t);
            Quiet(env, s', c) && !Acts(s, s')
  {
    hide Wanted, Asserted, Oscillates, FillHost, ApplyFit;
    var a := Next(s, c);
    if Mismatch(env, a) {
      if HostOwnsSize(a) {
        QuietHold(env, s, c, t);
      } else {
        QuietFit(env, s, c, t);
      }
    }
  }

  // Once at rest, always at rest: no commit at any later time resizes or configures.
  lemma {:induction false} QuietForever(env: Env, s: State, c: Client, ts: seq<Tick>)
    requires Polite(c) && Inv(s) && Quiet(env, s, c)
    ensures Quiet(env, After(env, s, c, ts), c) && Actions(env, s, c, ts) == 0
    decreases |ts|
  {
    hide Commit, Quiet, Acts, Inv, Polite;
    if ts != [] {
      var p := ts[..|ts|-1];
      QuietForever(env, s, c, p);
      QuietIsMapped(env, s, c);
      StaysMapped(env, s, c, p);
      QuietStays(env, After(env, s, c, p), c, ts[|ts|-1]);
    }
  }

  lemma QuietIsMapped(env: Env, s: State, c: Client)
    requires Quiet(env, s, c)
    ensures s.mapped
  {
  }

  // Short of rest, a commit that no timer holds up does something.
  lemma UnquietActs(env: Env, s: State, c: Client, t: Tick)
    requires Polite(c) && Inv(s) && s.mapped && t.ok
    requires !Quiet(env, s, c) && !Stuck(env, s, c, t)
    ensures Acts(s, Commit(env, s, c, t))
  {
    hide Asserted, Oscillates;
    var r := Waiting(env, s, c);
    FillTargetPositive(env, r);
    FillHostKeeps(env, r, t.later);
    FitEffect(env, r, t.now, t.later, t.ok);
    ToldIsAsserted(env, s, c);
  }

  // Rest is exactly the state in which no sequence of commits ever acts again.
  lemma RestIsExact(env: Env, s: State, c: Client)
    requires Polite(c) && Inv(s) && s.mapped
    ensures Quiet(env, s, c) <==> forall ts :: AllAccepted(ts) ==> Actions(env, s, c, ts) == 0
  {
    hide Quiet, Commit, Refused, Reminded, Acts;
    if Quiet(env, s, c) {
      forall ts | AllAccepted(ts)
        ensures Actions(env, s, c, ts) == 0
      {
        QuietForever(env, s, c, ts);
      }
    } else {
      var t := Tick(s.fitLastMsec + FIT_OSCILLATION_MS, s.fillLastMsec + FILL_HOST_MS, true);
      StuckNeedsTimer(env, s, c, t);
      UnquietActs(env, s, c, t);
      var ts := [t];
      assert ts[..0] == [] && After(env, s, c, ts) == Commit(env, s, c, t);
      assert AllAccepted(ts) && Actions(env, s, c, ts) == 1;
    }
  }

  // ---- Sequences of commits ----

  // What a sequence of commits has come to: rest, or waiting without having done anything.
  lemma {:induction false} RestOrWait(env: Env, s: State, c: Client, ts: seq<Tick>)
    requires Polite(c) && Inv(s) && s.mapped && AllAccepted(ts)
    ensures var s' := After(env, s, c, ts);
            || (Quiet(env, s', c) && Actions(env, s, c, ts) <= 1
                && (Quiet(env, s, c) || exists t :: t in ts && !Stuck(env, s, c, t)))
            || (!Quiet(env, s', c) && Actions(env, s, c, ts) == 0
                && s' == (if ts == [] then s else Waiting(env, s, c))
                && !Quiet(env, s, c) && forall t :: t in ts ==> Stuck(env, s, c, t))
    decreases |ts|
  {
    hide Commit, Quiet, Stuck, Acts, Inv, Polite, Waiting;
    if ts != [] {
      var p, t := ts[..|ts|-1], ts[|ts|-1];
      assert ts == p + [t];
      assert AllAccepted(p);
      RestOrWait(env, s, c, p);
      StaysMapped(env, s, c, p);
      var m := After(env, s, c, p);
      if Quiet(env, m, c) {
        QuietStays(env, m, c, t);
      } else {
        WaitingAsBefore(env, s, c, t);
        WaitingTwice(env, s, c);
        if Stuck(env, m, c, t) {
          StuckWaits(env, m, c, t);
        } else {
          OneCommitSettles(env, m, c, t);
        }
      }
    }
  }

  // The host accepts every mode: at most one commit ever acts, and the exchange is at rest
  // exactly when it was at the start or some commit was not held up by a timer. One commit is
  // sure not to be once the guard has expired and, after a remap, fill_host may remind again.
  lemma NegotiationSettles(env: Env, s: State, c: Client, ts: seq<Tick>)
    requires Polite(c) && Inv(s) && s.mapped && AllAccepted(ts)
    ensures Actions(env, s, c, ts) <= 1
    ensures Quiet(env, After(env, s, c, ts), c) <==> Quiet(env, s, c) || exists t :: t in ts && !Stuck(env, s, c, t)
    ensures (exists t :: t in ts && GuardExpired(s, t) && (ReminderExpired(s, t) || !Superseded(s)))
              ==> Quiet(env, After(env, s, c, ts), c)
  {
    hide Commit, Quiet, Refused, Reminded, Acts, Inv, Polite, Superseded, GuardExpired;
    RestOrWait(env, s, c, ts);
    forall t | t in ts && GuardExpired(s, t) && (ReminderExpired(s, t) || !Superseded(s))
      ensures !Stuck(env, s, c, t)
    {
      StuckNeedsTimer(env, s, c, t);
      if Reminded(env, s, c) {
        OnlyRemapsNeedReminding(env, s, c);
      }
    }
  }

  // The commits come after time from, and the clock does not run backwards within one.
  predicate Since(from: int, ts: seq<Tick>) {
    forall t :: t in ts ==> from <= t.now <= t.later
  }

  // The guard interval alone is enough exactly unless the client has to be reminded and the
  // wait for that may end later than the guard.
  lemma GuardIsEnoughExactly(env: Env, s: State, c: Client, from: int)
    requires Polite(c) && Inv(s) && s.mapped
    requires 0 < from && s.fitLastMsec <= from && s.fillLastMsec <= from
    ensures (forall ts :: AllAccepted(ts) && Since(from, ts) && (exists t :: t in ts && GuardExpired(s, t))
               ==> Quiet(env, After(env, s, c, ts), c))
            <==> !(&& Reminded(env, s, c)
                   && from < s.fillLastMsec + FILL_HOST_MS
                   && (s.fitLastMsec <= 0 || s.fitLastMsec + FIT_OSCILLATION_MS < s.fillLastMsec + FILL_HOST_MS))
  {
    hide Commit, Quiet, Refused, Reminded, Acts, Inv, Polite;
    var late := s.fitLastMsec > 0 && s.fitLastMsec + FIT_OSCILLATION_MS >= s.fillLastMsec + FILL_HOST_MS;
    if Reminded(env, s, c) && from < s.fillLastMsec + FILL_HOST_MS && !late {
      var now := if s.fitLastMsec > 0 && s.fitLastMsec + FIT_OSCILLATION_MS > from
                 then s.fitLastMsec + FIT_OSCILLATION_MS else from;
      var t := Tick(now, now, true);
      var ts := [t];
      RemindedIsUnquiet(env, s, c);
      NegotiationSettles(env, s, c, ts);
      assert Stuck(env, s, c, t);
      assert t in ts && GuardExpired(s, t);
      assert AllAccepted(ts) && Since(from, ts) && !Quiet(env, After(env, s, c, ts), c);
    } else {
      forall ts | AllAccepted(ts) && Since(from, ts) && exists t :: t in ts && GuardExpired(s, t)
        ensures Quiet(env, After(env, s, c, ts), c)
      {
        var t :| t in ts && GuardExpired(s, t);
        StuckNeedsTimer(env, s, c, t);
        assert !Stuck(env, s, c, t);
        NegotiationSettles(env, s, c, ts);
      }
    }
  }

  lemma RemindedIsUnquiet(env: Env, s: State, c: Client)
    requires Polite(c) && Inv(s) && Reminded(env, s, c)
    ensures !Quiet(env, s, c) && s.fillLastMsec > 0
  {
    hide Wanted, Asserted;
    assert FillTarget(env, Waiting(env, s, c)) == FillTarget(env, Next(s, c));
  }

  // After any history of client and host events: while the host stays silent and the client
  // obeys, at most one commit acts until the timers have expired, and from then on none does.
  lemma SettlesAfterAnyHistory(env: Env, es: seq<Event>, c: Client, ts: seq<Tick>, us: seq<Tick>)
    requires PossibleRun(env, FRESH, es) && Run(env, FRESH, es).mapped
    requires Polite(c) && AllAccepted(ts)
    requires var s := Run(env, FRESH, es);
             exists t :: t in ts && GuardExpired(s, t) && (ReminderExpired(s, t) || !Superseded(s))
    ensures var s := Run(env, FRESH, es);
            Actions(env, s, c, ts) <= 1 && Actions(env, After(env, s, c, ts), c, us) == 0
  {
    hide Quiet, Commit, Acts, Inv, Polite;
    var s := Run(env, FRESH, es);
    ReachableInv(env, es);
    NegotiationSettles(env, s, c, ts);
    StaysMapped(env, s, c, ts);
    QuietForever(env, After(env, s, c, ts), c, us);
  }

  // ---- A host that may refuse a mode ----

  // How many more commits can act.
  function Budget(env: Env, s: State, c: Client): nat {
    if Quiet(env, s, c) then 0 else if s.lastConf == Answer(s, c) then 1 else 2
  }

  lemma CommitSpends(env: Env, s: State, c: Client, t: Tick)
    requires Polite(c) && Inv(s) && s.mapped
    ensures var s' := Commit(env, s, c, t);
            Budget(env, s', c) + (if Acts(s, s') then 1 else 0) <= Budget(env, s, c)
  {
    hide Wanted, Asserted, FillTarget;
    if Quiet(env, s, c) {
      QuietStays(env, s, c, t);
    } else if Stuck(env, s, c, t) {
      StuckWaits(env, s, c, t);
      WaitingAsBefore(env, s, c, t);
    } else if t.ok {
      OneCommitSettles(env, s, c, t);
    } else if Decide(env, Waiting(env, s, c), t.now) == HoldHost {
      HoldSettles(env, s, c, t);
    } else {
      RefusedFitSpends(env, s, c, t);
    }
  }

  lemma RefusedFitSpends(env: Env, s: State, c: Client, t: Tick)
    requires Polite(c) && Inv(s) && s.mapped && !t.ok
    requires !Quiet(env, s, c) && Decide(env, Waiting(env, s, c), t.now) !in {HoldHost, Blocked}
    ensures var s' := Commit(env, s, c, t);
            s'.lastConf == Answer(s', c) && (Acts(s, s') ==> s.lastConf != Answer(s, c))
  {
    hide Wanted, FillTarget;
    FitAnswer(env, s, c, t);
    ToldIsAsserted(env, s, c);
    FitEffect(env, Waiting(env, s, c), t.now, t.later, t.ok);
  }

  // Even if modes are refused at will, no more than two commits act.
  lemma {:induction false} NoTightLoop(env: Env, s: State, c: Client, ts: seq<Tick>)
    requires Polite(c) && Inv(s) && s.mapped
    ensures Actions(env, s, c, ts) + Budget(env, After(env, s, c, ts), c) <= Budget(env, s, c) <= 2
    decreases |ts|
  {
    hide Commit, Quiet, Acts, Inv, Polite;
    if ts != [] {
      var p := ts[..|ts|-1];
      NoTightLoop(env, s, c, p);
      StaysMapped(env, s, c, p);
      CommitSpends(env, After(env, s, c, p), c, ts[|ts|-1]);
    }
  }
}

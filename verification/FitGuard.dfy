// The oscillation guard, over whole runs: no event sequence makes the host window go
// A -> B -> A faster than the guard interval, and nothing else is ever held back.

module FitGuard {
  import opened Base
  import opened Scale
  import opened Negotiation
  import opened Authority

  // Three successive recorded fits A, B, A with A != B: the return waits for the guard.
  ghost predicate NoFastReturn(fits: seq<Fit>) {
    forall i :: 0 <= i && i + 2 < |fits| && fits[i].size == fits[i + 2].size && fits[i].size != fits[i + 1].size
      ==> fits[i + 2].at - fits[i + 1].at >= FIT_OSCILLATION_MS
  }

  // The fields the guard reads describe the last two recorded fits.
  ghost predicate Remembers(s: State, clock: int) {
    var n := |s.fits|;
    && (n == 0 ==> s.fitLast == ZERO)
    && (n >= 1 ==> s.fits[n - 1] == Fit(s.fitLast, s.fitLastMsec))
    && (n == 1 ==> s.fitPrev == ZERO)
    && (n >= 2 ==> s.fits[n - 2].size == s.fitPrev)
    && forall i :: 0 <= i < n ==> Positive(s.fits[i].size) && 0 < s.fits[i].at <= clock
  }

  ghost predicate SameFits(s: State, s': State) {
    s'.fits == s.fits && s'.fitLast == s.fitLast && s'.fitPrev == s.fitPrev && s'.fitLastMsec == s.fitLastMsec
  }

  lemma ResizeKeepsFits(env: Env, s: State, a: Size, now: int, ok: bool)
    ensures SameFits(s, ResizeOutputTo(env, s, a, now, ok))
  {
  }

  lemma NetWmStateKeepsFits(env: Env, s: State, reply: Option<Flags>, now: int)
    ensures SameFits(s, NetWmState(env, s, reply, now))
  {
  }

  lemma OnlyCommitsRecord(env: Env, s: State, e: Event)
    requires !e.EvCommit?
    ensures SameFits(s, Step(env, s, e))
  {
    match e
    case EvRequestState(req, reply, now, later, ok) =>
      NetWmStateKeepsFits(env, s.(sizeFromWm := true), reply, now);
    case EvNetWmState(reply, now, later) =>
      NetWmStateKeepsFits(env, s, reply, later);
    case EvReparent(drawable, now, later, ok) =>
      ResizeKeepsFits(env, s, drawable, later, ok);
    case _ =>
  }

  lemma CommitRecordsOnlyFits(env: Env, s: State, e: Event)
    requires e.EvCommit?
    ensures var a := Applied(s, e.geo, e.surf);
            var s' := Step(env, s, e);
            if a.mapped && Decide(env, Release(env, a), e.now) == FitHost
            then SameFits(RecordFit(env, a, e.now), s')
            else SameFits(s, s')
  {
    var a := Applied(s, e.geo, e.surf);
    var r := Release(env, a);
    if a.mapped && Decide(env, r, e.now) == FitHost {
      var f := RecordFit(env, r, e.now);
      ResizeKeepsFits(env, f, Wanted(env, f.top), e.later, e.ok);
    }
  }

  lemma RecordingKeepsGuard(env: Env, s: State, now: int, clock: int)
    requires NoFastReturn(s.fits) && Remembers(s, clock) && 0 < clock <= now
    requires Decide(env, Release(env, s), now) == FitHost
    ensures NoFastReturn(RecordFit(env, s, now).fits) && Remembers(RecordFit(env, s, now), now)
  {
    hide Wanted, Releases, HostOwnsSize, Mismatch;
  }

  lemma StepKeepsGuard(env: Env, s: State, e: Event, clock: int)
    requires NoFastReturn(s.fits) && Remembers(s, clock) && clock > 0 && Timed(e, clock)
    ensures var s' := Step(env, s, e);
            NoFastReturn(s'.fits) && Remembers(s', ClockAfter(e, clock))
  {
    hide Step, Decide, NoFastReturn, RecordFit;
    if e.EvCommit? {
      CommitRecordsOnlyFits(env, s, e);
      var a := Applied(s, e.geo, e.surf);
      if a.mapped && Decide(env, Release(env, a), e.now) == FitHost {
        RecordingKeepsGuard(env, a, e.now, clock);
      }
    } else {
      OnlyCommitsRecord(env, s, e);
    }
  }

  lemma {:induction false} ClockAdvances(start: int, es: seq<Event>)
    requires WellTimed(start, es)
    ensures Clock(start, es) >= start
    decreases |es|
  {
    if es != [] {
      PrefixWellTimed(start, es);
      ClockAdvances(start, es[..|es|-1]);
    }
  }

  lemma PrefixWellTimed(start: int, es: seq<Event>)
    requires WellTimed(start, es) && es != []
    ensures WellTimed(start, es[..|es|-1]) && Timed(es[|es|-1], Clock(start, es[..|es|-1]))
  {
    var p := es[..|es|-1];
    forall i | 0 <= i < |p|
      ensures Timed(p[i], Clock(start, p[..i]))
    {
      assert p[..i] == es[..i];
    }
  }

  lemma {:induction false} GuardHolds(env: Env, start: int, es: seq<Event>)
    requires WellTimed(start, es)
    ensures var s := Run(env, FRESH, es);
            NoFastReturn(s.fits) && Remembers(s, Clock(start, es))
    decreases |es|
  {
    if es != [] {
      var p := es[..|es|-1];
      PrefixWellTimed(start, es);
      GuardHolds(env, start, p);
      ClockAdvances(start, p);
      StepKeepsGuard(env, Run(env, FRESH, p), es[|es|-1], Clock(start, p));
    }
  }

  // In every run of client and host events, whatever falls between the fits.
  lemma NoFastOscillation(env: Env, start: int, es: seq<Event>)
    requires WellTimed(start, es)
    ensures NoFastReturn(Run(env, FRESH, es).fits)
  {
    GuardHolds(env, start, es);
  }

  // ---- What a commit does with the host, exactly ----

  // The last two fits of the history are the wanted size and another one, less than 400 ms ago.
  predicate Returning(fits: seq<Fit>, want: Size, now: int) {
    var n := |fits|;
    n >= 2 && fits[n - 2].size == want && fits[n - 1].size != want && now - fits[n - 1].at < 400
  }

  lemma OscillatesExactly(env: Env, s: State, now: int, clock: int)
    requires Remembers(s, clock) && clock <= now
    ensures Oscillates(env, s, now) <==> Returning(s.fits, Wanted(env, s.top), now)
  {
    hide Wanted;
  }

  // In every run a commit of a mapped window records a fit exactly when the size it wants is
  // more than a pixel off, the state the client acknowledged last is neither maximized nor
  // fullscreen, the host does not keep the size, and the wanted size is not the one the host left
  // less than 400 ms ago. The host moves to it exactly when it then takes the mode.
  lemma FitsExactly(env: Env, start: int, es: seq<Event>, e: Event)
    requires WellTimed(start, es) && Timed(e, Clock(start, es))
    requires e.EvCommit? && Run(env, FRESH, es).mapped
    ensures var s := Run(env, FRESH, es);
            var s' := Step(env, s, e);
            var want := Wanted(env, Applied(s, e.geo, e.surf).top);
            var fit := (Abs(want.w - s.out.w) >= 2 || Abs(want.h - s.out.h) >= 2)
                       && !s.top.pend.maximized && !s.top.pend.fullscreen && !s'.sizeFromWm
                       && !Returning(s.fits, want, e.now);
            && s'.fits == (if fit then s.fits + [Fit(want, e.now)] else s.fits)
            && s'.out == (if fit && e.ok && want.w >= 32 && want.h >= 32 then want else s.out)
  {
    hide Wanted, Oscillates, Remembers, ApplyFit, FillHost, Releases;
    GuardHolds(env, start, es);
    var s := Run(env, FRESH, es);
    var a := Applied(s, e.geo, e.surf);
    var r := Release(env, a);
    SameMemory(s, a, r, Clock(start, es));
    OscillatesExactly(env, r, e.now, Clock(start, es));
    CommitRecordsOnlyFits(env, s, e);
    FillHostKeeps(env, r, e.later);
    FitEffect(env, r, e.now, e.later, e.ok);
  }

  lemma SameMemory(s: State, a: State, r: State, clock: int)
    requires Remembers(s, clock) && SameFits(s, a) && SameFits(a, r)
    ensures Remembers(r, clock)
  {
  }

  // A client that goes on to a third size is never held back.
  lemma ThirdSizeIsTaken(env: Env, start: int, es: seq<Event>, e: Event)
    requires WellTimed(start, es) && Timed(e, Clock(start, es))
    requires e.EvCommit? && Run(env, FRESH, es).mapped
    requires var s := Run(env, FRESH, es);
             var want := Wanted(env, Applied(s, e.geo, e.surf).top);
             && !s.top.pend.maximized && !s.top.pend.fullscreen && !Step(env, s, e).sizeFromWm
             && e.ok && want.w >= 32 && want.h >= 32
             && (|s.fits| < 2 || s.fits[|s.fits| - 2].size != want)
    ensures var s := Run(env, FRESH, es);
            Near(Step(env, s, e).out, Wanted(env, Applied(s, e.geo, e.surf).top))
  {
    hide Wanted, Step, Run;
    FitsExactly(env, start, es, e);
  }
}

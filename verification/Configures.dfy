// From size requests to configures: what the client receives is scheduled when the event loop is
// idle, so the requests of one turn reach it as one configure with the last size.
// subprojects/wlroots/types/xdg_shell/wlr_xdg_surface.c:126-179 and 26-44.

module Configures {
  import opened Base
  import opened Negotiation
  import opened Authority

  // The configure that is due after event e; unmapping drops it.
  function Due(s: State, e: Event, s': State, due: Option<Size>): Option<Size> {
    if e.EvUnmap? then None else if s'.confs != s.confs then Some(Newest(s')) else due
  }

  // The events of one turn of the loop.
  function Turn(env: Env, s: State, es: seq<Event>, due: Option<Size>): (State, Option<Size>)
    decreases |es|
  {
    if es == [] then (s, due)
    else
      var s' := Step(env, s, es[0]);
      Turn(env, s', es[1..], Due(s, es[0], s', due))
  }

  // The sizes the client is configured with, at the end of each turn.
  function Received(env: Env, s: State, turns: seq<seq<Event>>): (State, seq<Size>)
    decreases |turns|
  {
    if turns == [] then (s, [])
    else
      var (t, got) := Received(env, s, turns[..|turns| - 1]);
      var (u, due) := Turn(env, t, turns[|turns| - 1], None);
      (u, if due.Some? then got + [due.value] else got)
  }

  // A fit, its nested handler included, asks for the client's own size or for nothing new: it
  // causes at most one configure, which confirms what the client committed.
  lemma FitSendsAtMostOne(env: Env, s: State, geo: Size, surf: Size, now: int, later: int, ok: bool, due: Option<Size>)
    requires s.mapped && Decide(env, Release(env, Applied(s, geo, surf)), now) == FitHost
    ensures var e := EvCommit(geo, surf, now, later, ok);
            var s' := Step(env, s, e);
            && Due(s, e, s', due) == (if s'.confs == s.confs then due
                                      else Some(Asserted(env, Release(env, Applied(s, geo, surf)).top)))
            && s'.lastConf == Asserted(env, Release(env, Applied(s, geo, surf)).top)
  {
    hide Asserted, FillTarget, FillSuppressed;
    var r := Release(env, Applied(s, geo, surf));
    FitEffect(env, r, now, later, ok);
    var f, want := RecordFit(env, r, now), Wanted(env, r.top);
    FillHostKeeps(env, f.(out := want, lastOut := want), later);
  }

  // ---- The newest request is what a mapped client goes by ----

  // Either the newest request is due, or it was the last configure received.
  predicate UpToDate(s: State, due: Option<Size>, got: seq<Size>) {
    s.mapped ==> if due.Some? then due.value == Newest(s) else got != [] && got[|got| - 1] == Newest(s)
  }

  lemma OnlyMappingMaps(env: Env, s: State, e: Event)
    ensures var s' := Step(env, s, e);
            && (s'.mapped && !s.mapped ==> s'.confs != s.confs)
            && (e.EvUnmap? ==> !s'.mapped)
  {
    match e
    case EvCommit(geo, surf, now, later, ok) =>
      var r := Release(env, Applied(s, geo, surf));
      FillHostKeeps(env, r, later);
      if s.mapped {
        FitEffect(env, r, now, later, ok);
      }
    case EvNetWmState(reply, now, later) => StateKeepsMapped(env, s, reply, later);
    case _ =>
  }

  lemma StateKeepsMapped(env: Env, s: State, reply: Option<Flags>, now: int)
    ensures NetWmState(env, s, reply, now).mapped == s.mapped
  {
    hide FillHost, Tiled;
    if reply.Some? {
      var m := MirrorFlag(s, reply.value.maximized, Maximized(s.top));
      FillHostKeeps(env, MirrorFlag(m, reply.value.fullscreen, Fullscreen(s.top)), now);
    }
  }

  lemma {:induction false} TurnKeepsUpToDate(env: Env, s: State, es: seq<Event>, due: Option<Size>, got: seq<Size>)
    requires UpToDate(s, due, got)
    ensures UpToDate(Turn(env, s, es, due).0, Turn(env, s, es, due).1, got)
    decreases |es|
  {
    hide Step, Newest;
    if es != [] {
      OnlyMappingMaps(env, s, es[0]);
      var s' := Step(env, s, es[0]);
      SameNewest(s, s');
      TurnKeepsUpToDate(env, s', es[1..], Due(s, es[0], s', due), got);
    }
  }

  lemma SameNewest(s: State, s': State)
    ensures s'.confs == s.confs ==> Newest(s') == Newest(s)
  {
  }

  // However requests and turns fall, at the end of a turn a mapped client has been configured
  // last with exactly the newest request; and it receives at most one configure a turn.
  lemma {:induction false} NewestIsReceived(env: Env, turns: seq<seq<Event>>)
    ensures var (s, got) := Received(env, FRESH, turns);
            && |got| <= |turns|
            && (s.mapped ==> got != [] && got[|got| - 1] == Newest(s))
    decreases |turns|
  {
    hide Turn, Newest;
    if turns != [] {
      var init, es := turns[..|turns| - 1], turns[|turns| - 1];
      NewestIsReceived(env, init);
      var (t, got) := Received(env, FRESH, init);
      TurnKeepsUpToDate(env, t, es, None, got);
    }
  }

  // What is due when the client unmaps is dropped: it is not configured for a mapping that is
  // over.
  lemma {:induction false} UnmapDropsWhatIsDue(env: Env, s: State, es: seq<Event>, due: Option<Size>)
    ensures Turn(env, s, es + [EvUnmap], due).1 == None
    decreases |es|
  {
    hide Step;
    if es == [] {
      assert (es + [EvUnmap])[1..] == [];
    } else {
      assert (es + [EvUnmap])[1..] == es[1..] + [EvUnmap];
      var s' := Step(env, s, es[0]);
      UnmapDropsWhatIsDue(env, s', es[1..], Due(s, es[0], s', due));
    }
  }
}

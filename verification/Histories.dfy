// Concrete histories at scale 1, from a fresh window: inputs at which a promise of the comments
// or of docs/SIZE.md fails, and one at which a fit asks for two sizes. The exact conditions are
// in Authority.dfy, Reentrancy.dfy and Settling.dfy.

module Histories {
  import opened Base
  import opened Scale
  import opened Negotiation
  import opened Authority
  import opened Configures
  import opened Settling

  const HOST_BORDERS: Env := Env(1.0, false)
  const CLIENT_BORDERS: Env := Env(1.0, true)

  function Square(n: int): Size {
    Size(n, n)
  }

  // A client whose whole buffer is its geometry.
  function Whole(n: int): Toplevel {
    Toplevel(Square(n), Square(n), Flags(false, false), Flags(false, false))
  }

  function CommitOf(n: int, at: int): Event {
    EvCommit(Square(n), Square(n), at, at, true)
  }

  lemma AtScaleOne(n: int)
    requires n >= 1
    ensures ScaleSize(1.0, n) == n == UnscaleSize(1.0, n)
  {
    RoundUnique(n as real, n);
  }

  // The history es is possible, its clock ends at the given time, and it leads to s.
  ghost predicate Reaches(env: Env, es: seq<Event>, s: State, clock: int) {
    PossibleRun(env, FRESH, es) && WellTimed(1, es) && Clock(1, es) == clock && Run(env, FRESH, es) == s
  }

  lemma Nothing(env: Env)
    ensures Reaches(env, [], FRESH, 1)
  {
  }

  lemma Then(env: Env, es: seq<Event>, s: State, clock: int, e: Event)
    requires Reaches(env, es, s, clock) && Possible(s, e) && Timed(e, clock)
    requires e.EvMap? ==> Configured(es, |es|)
    ensures Reaches(env, es + [e], Step(env, s, e), ClockAfter(e, clock))
  {
    var fs := es + [e];
    assert fs[..|fs| - 1] == es;
    forall i | 0 <= i < |fs|
      ensures Possible(Run(env, FRESH, fs[..i]), fs[i]) && Timed(fs[i], Clock(1, fs[..i]))
      ensures fs[i].EvMap? ==> Configured(fs, i)
    {
      assert fs[..i] == es[..i];
      assert es[..|es|] == es;
      if fs[i].EvMap? {
        assert Configured(es, i);
        var j :| 0 <= j < i && es[j].EvAck? && forall k :: j < k < i ==> !es[k].EvUnmap?;
        assert fs[j].EvAck?;
      }
    }
  }

  const PLAIN: Flags := Flags(false, false)

  // A client commits without a buffer, acknowledges its configure, and maps.
  const OPENING: seq<Event> := [EvCommit(ZERO, ZERO, 1, 1, true)] + [EvAck(PLAIN)]

  lemma JustConfigured(es: seq<Event>)
    requires es != [] && es[|es| - 1].EvAck?
    ensures Configured(es, |es|)
  {
    assert es[|es| - 1].EvAck?;
  }

  lemma Opens(env: Env)
    ensures Reaches(env, OPENING, FRESH.(initialSent := true), 1) && Configured(OPENING, |OPENING|)
  {
    var e0, e1 := EvCommit(ZERO, ZERO, 1, 1, true), EvAck(PLAIN);
    Nothing(env);
    Then(env, [], FRESH, 1, e0);
    assert [] + [e0] == [e0];
    Then(env, [e0], FRESH.(initialSent := true), 1, e1);
    JustConfigured(OPENING);
  }

  // ---- A client that ignores the host ----

  const MAP_AT_300: Event := EvMap(Square(300), Square(300), true, true)
  const MAPPED_AT_300: seq<Event> := OPENING + [MAP_AT_300]

  const AT_300: State :=
    State(true, true, Square(300), Square(300), ZERO, false, ZERO, ZERO, ZERO, 0, 0, Whole(300), [], [ZERO])

  lemma MapsAt300()
    ensures Reaches(HOST_BORDERS, MAPPED_AT_300, AT_300, 1)
  {
    hide Reaches;
    AtScaleOne(300);
    Opens(HOST_BORDERS);
    Then(HOST_BORDERS, OPENING, FRESH.(initialSent := true), 1, MAP_AT_300);
    assert [] + [ZERO] == [ZERO];
  }

  // The host makes the window 200x200; the client commits 300x300 and is reminded.
  const IGNORED: seq<Event> := MAPPED_AT_300 + [EvRequestState(Square(200), None, 10, 10, true)] + [CommitOf(300, 1000)]

  const HOST_AT_200: State :=
    AT_300.(out := Square(200), lastOut := Square(200), sizeFromWm := true, lastConf := Square(200),
            confs := [ZERO, Square(200)])

  const REMINDED: State := HOST_AT_200.(confs := [ZERO, Square(200), Square(200)], fillLastMsec := 1000)

  lemma IsReminded()
    ensures Reaches(HOST_BORDERS, IGNORED, REMINDED, 1000)
  {
    hide Reaches;
    AtScaleOne(300);
    AtScaleOne(200);
    MapsAt300();
    Then(HOST_BORDERS, MAPPED_AT_300, AT_300, 1, EvRequestState(Square(200), None, 10, 10, true));
    assert [ZERO] + [Square(200)] == [ZERO, Square(200)];
    Then(HOST_BORDERS, MAPPED_AT_300 + [EvRequestState(Square(200), None, 10, 10, true)], HOST_AT_200, 10,
         CommitOf(300, 1000));
    assert [ZERO, Square(200)] + [Square(200)] == [ZERO, Square(200), Square(200)];
  }

  // A lagging commit that is not answered: the client was reminded 200 ms before.
  lemma LaggardUnansweredWitness()
    ensures Reaches(HOST_BORDERS, IGNORED, REMINDED, 1000)
    ensures var r := Release(HOST_BORDERS, Applied(REMINDED, Square(300), Square(300)));
            HostOwnsSize(r) && Mismatch(HOST_BORDERS, r) && !Fills(HOST_BORDERS, r)
    ensures SurfaceCommit(HOST_BORDERS, REMINDED, Square(300), Square(300), 1200, 1200, true).confs == REMINDED.confs
  {
    hide Reaches;
    IsReminded();
    AtScaleOne(300);
    AtScaleOne(200);
  }

  // ---- A remap ----

  // The same window is unmapped; the client starts over, asks for its state (the answer is a
  // configure), maps again, and is made 200x200 again. The reminder before the remap keeps
  // fill_host from telling it.
  const RESIZED_AGAIN: Event := EvRequestState(Square(200), None, 1100, 1100, true)
  const RESTARTED: seq<Event> := IGNORED + [EvUnmap] + [EvCommit(Square(300), ZERO, 1000, 1000, true)] + [EvAck(PLAIN)]
  const REMAPPED: seq<Event> := RESTARTED + [MAP_AT_300] + [RESIZED_AGAIN] + [CommitOf(300, 1200)]

  const STARTING_OVER: State :=
    REMINDED.(mapped := false, top := Toplevel(Square(300), ZERO, PLAIN, PLAIN))

  const BACK_AT_300: State :=
    REMINDED.(out := Square(300), lastOut := Square(300), sizeFromWm := false,
              confs := [ZERO, Square(200), Square(200), ZERO])

  const UNTOLD: State := BACK_AT_300.(out := Square(200), lastOut := Square(200), sizeFromWm := true)

  lemma StartsOver()
    ensures Reaches(HOST_BORDERS, RESTARTED, STARTING_OVER, 1000) && Configured(RESTARTED, |RESTARTED|)
  {
    hide Reaches;
    IsReminded();
    var e := EvCommit(Square(300), ZERO, 1000, 1000, true);
    Then(HOST_BORDERS, IGNORED, REMINDED, 1000, EvUnmap);
    Then(HOST_BORDERS, IGNORED + [EvUnmap], REMINDED.(mapped := false), 1000, e);
    Then(HOST_BORDERS, IGNORED + [EvUnmap] + [e], STARTING_OVER, 1000, EvAck(PLAIN));
    JustConfigured(RESTARTED);
  }

  lemma IsUntold()
    ensures Reaches(HOST_BORDERS, REMAPPED, UNTOLD, 1200)
  {
    hide Reaches;
    AtScaleOne(300);
    AtScaleOne(200);
    StartsOver();
    Then(HOST_BORDERS, RESTARTED, STARTING_OVER, 1000, MAP_AT_300);
    assert [ZERO, Square(200), Square(200)] + [ZERO] == [ZERO, Square(200), Square(200), ZERO];
    Then(HOST_BORDERS, RESTARTED + [MAP_AT_300], BACK_AT_300, 1000, RESIZED_AGAIN);
    Then(HOST_BORDERS, RESTARTED + [MAP_AT_300] + [RESIZED_AGAIN], UNTOLD, 1100, CommitOf(300, 1200));
  }

  // The oscillation guard is not even running and the record says "told", but the newest
  // configure leaves the client the choice: a commit at 1300 waits, one at 1600 is answered.
  lemma RemapWitness()
    ensures Reaches(HOST_BORDERS, REMAPPED, UNTOLD, 1200)
    ensures ToldToFill(HOST_BORDERS, UNTOLD) && !AskedToFill(HOST_BORDERS, UNTOLD) && Superseded(UNTOLD)
    ensures var c, soon, late := Client(Square(300), ZERO), Tick(1300, 1300, true), Tick(1600, 1600, true);
            && GuardExpired(UNTOLD, soon) && Reminded(HOST_BORDERS, UNTOLD, c)
            && !Quiet(HOST_BORDERS, Commit(HOST_BORDERS, UNTOLD, c, soon), c)
            && Commit(HOST_BORDERS, UNTOLD, c, late).confs == UNTOLD.confs + [Square(200)]
  {
    hide Reaches;
    IsUntold();
    AtScaleOne(300);
    AtScaleOne(200);
  }

  // ---- A resize that ends maximize ----

  const MAXIMIZED: seq<Event> :=
    MAPPED_AT_300 + [EvNetWmState(Some(Flags(true, false)), 5, 5)] + [EvAck(Flags(true, false))]

  const AT_300_MAXIMIZED: State :=
    AT_300.(sizeFromWm := true, lastConf := Square(300), confs := [ZERO, Square(300)],
            top := Toplevel(Square(300), Square(300), Flags(false, false), Flags(true, false)))

  lemma IsMaximized()
    ensures Reaches(HOST_BORDERS, MAXIMIZED, AT_300_MAXIMIZED, 5)
  {
    hide Reaches;
    AtScaleOne(300);
    MapsAt300();
    var e := EvNetWmState(Some(Flags(true, false)), 5, 5);
    Then(HOST_BORDERS, MAPPED_AT_300, AT_300, 1, e);
    assert [ZERO] + [Square(300)] == [ZERO, Square(300)];
    var m := AT_300.(sizeFromWm := true, lastConf := Square(300), confs := [ZERO, Square(300)]);
    Then(HOST_BORDERS, MAPPED_AT_300 + [e], m, 5, EvAck(Flags(true, false)));
  }

  // The resize is applied, but the host does not own the size afterwards.
  lemma UnmaximizeWitness()
    ensures Reaches(HOST_BORDERS, MAXIMIZED, AT_300_MAXIMIZED, 5)
    ensures var s' := RequestState(HOST_BORDERS, AT_300_MAXIMIZED, Square(200), Some(Flags(false, false)), 10, 10, true);
            s'.out == Square(200) && !s'.sizeFromWm
  {
    hide Reaches;
    IsMaximized();
    AtScaleOne(200);
  }

  // ---- Geometry larger than the buffer ----

  const MAP_AT_64: Event := EvMap(Square(64), Square(64), true, true)
  const MAPPED_AT_64: seq<Event> := OPENING + [MAP_AT_64]

  const AT_64: State :=
    State(true, true, Square(64), Square(64), ZERO, false, ZERO, ZERO, ZERO, 0, 0, Whole(64), [], [ZERO])

  lemma MapsAt64()
    ensures Reaches(CLIENT_BORDERS, MAPPED_AT_64, AT_64, 1)
  {
    hide Reaches;
    AtScaleOne(64);
    Opens(CLIENT_BORDERS);
    Then(CLIENT_BORDERS, OPENING, FRESH.(initialSent := true), 1, MAP_AT_64);
    assert [] + [ZERO] == [ZERO];
  }

  // Subsurfaces count towards the geometry. Under client decorations the fit asks for the buffer
  // size and then for the geometry; the client is configured once, with the geometry.
  lemma TwoRequestsWitness()
    ensures Reaches(CLIENT_BORDERS, MAPPED_AT_64, AT_64, 1)
    ensures var e := EvCommit(Square(200), Square(100), 1, 1, true);
            var s' := Step(CLIENT_BORDERS, AT_64, e);
            && s'.confs == AT_64.confs + [Square(100), Square(200)]
            && Due(AT_64, e, s', None) == Some(Square(200))
  {
    hide Reaches;
    MapsAt64();
    AtScaleOne(100);
    assert AT_64.confs + [Square(100)] + [Square(200)] == AT_64.confs + [Square(100), Square(200)];
  }
}

// How often fill_host can bother a client that ignores it.

module ConfigureRate {
  import opened Negotiation

  // One call of fill_host. Between calls anything may have changed except what fill_host itself
  // remembers.
  datatype Call = Call(now: int, out: Size, margin: Size, top: Toplevel)

  function Entered(s: State, call: Call): State {
    s.(mapped := true, out := call.out, margin := call.margin, top := call.top)
  }

  function Serve(env: Env, s: State, call: Call): State {
    FillHost(env, Entered(s, call), call.now)
  }

  predicate Sends(env: Env, s: State, call: Call) {
    !FillSuppressed(env, Entered(s, call), call.now)
  }

  function ServeAll(env: Env, s: State, calls: seq<Call>): State
    decreases |calls|
  {
    if calls == [] then s
    else Serve(env, ServeAll(env, s, calls[..|calls|-1]), calls[|calls|-1])
  }

  // The times at which a configure was sent.
  function SentAt(env: Env, s: State, calls: seq<Call>): seq<int>
    decreases |calls|
  {
    if calls == [] then []
    else
      var p, c := calls[..|calls|-1], calls[|calls|-1];
      SentAt(env, s, p) + if Sends(env, ServeAll(env, s, p), c) then [c.now] else []
  }

  // The fill target never changes, and the clock is positive and does not run backwards.
  predicate Steady(env: Env, s: State, calls: seq<Call>, target: Size) {
    && Positive(target)
    && (forall i :: 0 <= i < |calls| ==> calls[i].now > 0 && FillTarget(env, Entered(s, calls[i])) == target)
    && (forall i, j :: 0 <= i < j < |calls| ==> calls[i].now <= calls[j].now)
  }

  ghost predicate Told(s: State, target: Size) {
    Positive(s.lastConf) && Near(target, s.lastConf)
  }

  // Every configure after the second comes half a second after the one before it.
  ghost predicate Spaced(ts: seq<int>) {
    forall i :: 2 <= i < |ts| ==> ts[i] - ts[i - 1] >= FILL_HOST_MS
  }

  lemma EnteredTarget(env: Env, s: State, s': State, call: Call)
    ensures FillTarget(env, Entered(s', call)) == FillTarget(env, Entered(s, call))
  {
  }

  // What fill_host remembers about the configures it has sent.
  ghost predicate Remembers(s: State, ts: seq<int>, target: Size, from: int, to: int) {
    && (ts != [] ==> Told(s, target))
    && (|ts| >= 2 ==> s.fillLastMsec == ts[|ts|-1] > 0)
    && (forall i :: 0 <= i < |ts| ==> from <= ts[i] <= to)
  }

  // The only configure that ignores the clock is one the client had not been told yet, and
  // after any configure it has been told: so there is at most one, and it comes first.
  lemma ServeKeepsRate(env: Env, s: State, c: Call, ts: seq<int>, target: Size, from: int)
    requires Positive(target) && FillTarget(env, Entered(s, c)) == target
    requires Spaced(ts) && Remembers(s, ts, target, from, c.now) && 0 < from <= c.now
    ensures var s' := Serve(env, s, c);
            var ts' := ts + if Sends(env, s, c) then [c.now] else [];
            Spaced(ts') && Remembers(s', ts', target, from, c.now)
  {
    var e := Entered(s, c);
    if Sends(env, s, c) {
      assert FillHost(env, e, c.now).lastConf == target;
    }
  }

  lemma {:induction false} RateInvariant(env: Env, s: State, calls: seq<Call>, target: Size)
    requires Steady(env, s, calls, target) && calls != []
    ensures var ts := SentAt(env, s, calls);
            && Spaced(ts)
            && Remembers(ServeAll(env, s, calls), ts, target, calls[0].now, calls[|calls|-1].now)
    decreases |calls|
  {
    var p, c := calls[..|calls|-1], calls[|calls|-1];
    var m := ServeAll(env, s, p);
    EnteredTarget(env, s, m, c);
    if p != [] {
      RateInvariant(env, s, p, target);
    }
    ServeKeepsRate(env, m, c, SentAt(env, s, p), target, calls[0].now);
  }

  lemma {:induction false} SpacedSpan(ts: seq<int>)
    requires Spaced(ts) && |ts| >= 2
    ensures ts[|ts|-1] - ts[1] >= FILL_HOST_MS * (|ts| - 2)
    decreases |ts|
  {
    if |ts| > 2 {
      var p := ts[..|ts|-1];
      assert Spaced(p);
      SpacedSpan(p);
    }
  }

  // However the client answers, in any span of milliseconds it receives at most
  // 2 + span / 500 configures.
  lemma ConfigureRateBound(env: Env, s: State, calls: seq<Call>, target: Size, span: nat)
    requires Steady(env, s, calls, target)
    requires calls != [] ==> calls[|calls|-1].now - calls[0].now <= span
    ensures Spaced(SentAt(env, s, calls))
    ensures |SentAt(env, s, calls)| <= 2 + span / FILL_HOST_MS
  {
    if calls != [] {
      RateInvariant(env, s, calls, target);
      var ts := SentAt(env, s, calls);
      if |ts| > 2 {
        SpacedSpan(ts);
      }
    }
  }
}

// The swapchain: a fixed pool of buffer slots, filled on demand.
// subprojects/wlroots/render/swapchain.c.

module Swapchain {
  import opened Base

  // Buffers are named by numbers; the allocator never hands out a name twice.
  type Buffer = nat

  const CAP: nat := 4

  datatype Slot = Slot(buffer: Option<Buffer>, acquired: bool)

  const EMPTY: Slot := Slot(None, false)

  // outstanding and made are history: the buffers handed out and not yet released, and all
  // buffers ever allocated.
  datatype State = State(slots: seq<Slot>, allocator: bool, outstanding: set<Buffer>, made: set<Buffer>)

  const FRESH: State := State(seq(CAP, _ => EMPTY), true, {}, {})

  predicate Reusable(slot: Slot) {
    !slot.acquired && slot.buffer.Some?
  }

  // The first slot from i on whose buffer is free, or the number of slots.
  function FirstReusable(slots: seq<Slot>, i: nat): (k: nat)
    requires i <= |slots|
    ensures i <= k <= |slots|
    ensures k < |slots| ==> Reusable(slots[k])
    ensures forall j :: i <= j < k ==> !Reusable(slots[j])
    decreases |slots| - i
  {
    if i == |slots| || Reusable(slots[i]) then i else FirstReusable(slots, i + 1)
  }

  // The last slot below n that is not acquired.
  function LastFree(slots: seq<Slot>, n: nat): (k: Option<nat>)
    requires n <= |slots|
    ensures k == None <==> forall j :: 0 <= j < n ==> slots[j].acquired
    ensures k.Some? ==> k.value < n && !slots[k.value].acquired
  {
    if n == 0 then None
    else if !slots[n - 1].acquired then Some(n - 1)
    else LastFree(slots, n - 1)
  }

  // wlr_swapchain_acquire; spare is what the allocator would return.
  function Acquire(s: State, spare: Option<Buffer>): (State, Option<Buffer>) {
    var k := FirstReusable(s.slots, 0);
    if k < |s.slots| then
      var b := s.slots[k].buffer.value;
      (s.(slots := s.slots[k := Slot(Some(b), true)], outstanding := s.outstanding + {b}), Some(b))
    else
      var free := LastFree(s.slots, |s.slots|);
      if free == None || !s.allocator || spare == None then (s, None)
      else
        var b := spare.value;
        (s.(slots := s.slots[free.value := Slot(Some(b), true)],
            outstanding := s.outstanding + {b}, made := s.made + {b}), Some(b))
  }

  // The slot holding b, if any.
  function SlotOf(slots: seq<Slot>, b: Buffer): (k: nat)
    ensures k <= |slots|
    ensures k < |slots| ==> slots[k].buffer == Some(b)
    ensures k == |slots| ==> forall j :: 0 <= j < |slots| ==> slots[j].buffer != Some(b)
    ensures forall j :: 0 <= j < k ==> slots[j].buffer != Some(b)
  {
    if slots == [] || slots[0].buffer == Some(b) then 0
    else
      var k := SlotOf(slots[1..], b);
      assert forall j :: 1 <= j < |slots| ==> slots[1..][j - 1] == slots[j];
      k + 1
  }

  // The release signal of an acquired buffer.
  function Release(s: State, b: Buffer): State {
    var k := SlotOf(s.slots, b);
    if k == |s.slots| then s
    else s.(slots := s.slots[k := s.slots[k].(acquired := false)], outstanding := s.outstanding - {b})
  }

  datatype Event = EvAcquire(spare: Option<Buffer>) | EvRelease(buffer: Buffer) | EvAllocatorGone

  predicate Enabled(s: State, e: Event) {
    match e
    case EvAcquire(spare) => spare.Some? ==> spare.value !in s.made
    case EvRelease(b) => b in s.outstanding
    case EvAllocatorGone => true
  }

  function Step(s: State, e: Event): State {
    match e
    case EvAcquire(spare) => Acquire(s, spare).0
    case EvRelease(b) => Release(s, b)
    case EvAllocatorGone => s.(allocator := false)
  }

  // The buffers in slots, and those in acquired slots.
  function Held(slots: seq<Slot>): set<Buffer> {
    set j | 0 <= j < |slots| && slots[j].buffer.Some? :: slots[j].buffer.value
  }

  function Taken(slots: seq<Slot>): set<Buffer> {
    set j | 0 <= j < |slots| && slots[j].buffer.Some? && slots[j].acquired :: slots[j].buffer.value
  }

  ghost predicate Inv(s: State) {
    && |s.slots| == CAP
    && (forall j :: 0 <= j < CAP && s.slots[j].acquired ==> s.slots[j].buffer.Some?)
    && (forall i, j :: 0 <= i < j < CAP && s.slots[i].buffer.Some? ==> s.slots[i].buffer != s.slots[j].buffer)
    && s.made == Held(s.slots)
    && s.outstanding == Taken(s.slots)
  }

  lemma AcquireKeeps(s: State, spare: Option<Buffer>)
    requires Inv(s) && Enabled(s, EvAcquire(spare))
    ensures Inv(Acquire(s, spare).0)
  {
    var (s', r) := Acquire(s, spare);
    if r.Some? {
      var k := FirstReusable(s.slots, 0);
      var at := if k < CAP then k else LastFree(s.slots, CAP).value;
      assert s.slots[at].buffer == None ==> r.value !in s.made;
      assert s'.slots[at].buffer == r;
      assert forall j :: 0 <= j < CAP && j != at ==> s'.slots[j] == s.slots[j];
      assert s'.made == Held(s'.slots);
      assert s'.outstanding == Taken(s'.slots);
    }
  }

  lemma ReleaseKeeps(s: State, b: Buffer)
    requires Inv(s) && b in s.outstanding
    ensures Inv(Release(s, b))
  {
    var s' := Release(s, b);
    var k := SlotOf(s.slots, b);
    assert k < CAP;
    assert forall j :: 0 <= j < CAP && j != k ==> s'.slots[j] == s.slots[j];
    SameBuffersHeld(s.slots, s'.slots);
    assert s'.outstanding == Taken(s'.slots);
  }

  lemma SameBuffersHeld(a: seq<Slot>, b: seq<Slot>)
    requires |a| == |b| && forall j :: 0 <= j < |a| ==> a[j].buffer == b[j].buffer
    ensures Held(a) == Held(b)
  {
    assert forall j :: 0 <= j < |a| && a[j].buffer.Some? ==> b[j].buffer.value in Held(a);
  }

  predicate Possible(s: State, es: seq<Event>)
    decreases |es|
  {
    es == [] || (Enabled(s, es[0]) && Possible(Step(s, es[0]), es[1..]))
  }

  function Run(s: State, es: seq<Event>): State
    decreases |es|
  {
    if es == [] then s else Run(Step(s, es[0]), es[1..])
  }

  lemma {:induction false} RunKeeps(s: State, es: seq<Event>)
    requires Inv(s) && Possible(s, es)
    ensures Inv(Run(s, es))
    decreases |es|
  {
    if es != [] {
      match es[0]
      case EvAcquire(spare) => AcquireKeeps(s, spare); RunKeeps(Step(s, es[0]), es[1..]);
      case EvRelease(b) => ReleaseKeeps(s, b); RunKeeps(Step(s, es[0]), es[1..]);
      case EvAllocatorGone => RunKeeps(Step(s, es[0]), es[1..]);
    }
  }

  lemma {:induction false} HeldIsSmall(slots: seq<Slot>)
    ensures |Held(slots)| <= |slots|
  {
    if slots != [] {
      var n := |slots| - 1;
      var p := slots[..n];
      HeldIsSmall(p);
      assert Held(slots) == Held(p) + if slots[n].buffer.Some? then {slots[n].buffer.value} else {};
    }
  }

  lemma {:induction false} TakenCounts(slots: seq<Slot>)
    requires forall j :: 0 <= j < |slots| && slots[j].acquired ==> slots[j].buffer.Some?
    requires forall i, j :: 0 <= i < j < |slots| && slots[i].buffer.Some? ==> slots[i].buffer != slots[j].buffer
    ensures |Taken(slots)| == |slots| <==> forall j :: 0 <= j < |slots| ==> slots[j].acquired
    ensures |Taken(slots)| <= |slots|
  {
    if slots != [] {
      var n := |slots| - 1;
      var p := slots[..n];
      TakenCounts(p);
      if slots[n].acquired {
        assert Taken(slots) == Taken(p) + {slots[n].buffer.value};
        assert slots[n].buffer.value !in Taken(p);
        assert forall j :: 0 <= j < n ==> p[j] == slots[j];
      } else {
        assert Taken(slots) == Taken(p);
      }
    }
  }

  // In every run: a buffer is never handed out while it is still out; at most CAP buffers are
  // ever allocated; a new one is allocated only when every existing one is out; and acquire
  // fails exactly when all slots are out, or every existing buffer is out and no new one can
  // be had.
  lemma SafeAcquire(es: seq<Event>, spare: Option<Buffer>)
    requires Possible(FRESH, es)
    requires Enabled(Run(FRESH, es), EvAcquire(spare))
    ensures var s := Run(FRESH, es);
            var (s', r) := Acquire(s, spare);
            && (r.Some? ==> r.value !in s.outstanding && r.value in s'.outstanding)
            && |s'.made| <= 4
            && (s'.made != s.made ==> s.made == s.outstanding && r.Some? && s'.made == s.made + {r.value})
            && (r == None <==> |s.outstanding| == 4 ||
                               (s.made == s.outstanding && (!s.allocator || spare == None)))
  {
    assert Inv(FRESH) by {
      assert Held(FRESH.slots) == {} && Taken(FRESH.slots) == {};
    }
    RunKeeps(FRESH, es);
    var s := Run(FRESH, es);
    AcquireKeeps(s, spare);
    HeldIsSmall(Acquire(s, spare).0.slots);
    TakenCounts(s.slots);
    var k := FirstReusable(s.slots, 0);
    if k < CAP {
      assert s.slots[k].buffer.value in Held(s.slots);
      FreeIsNotTaken(s, k);
    } else {
      forall b | b in Held(s.slots)
        ensures b in Taken(s.slots)
      {
        var j :| 0 <= j < CAP && s.slots[j].buffer == Some(b);
        assert !Reusable(s.slots[j]);
      }
      assert Held(s.slots) == Taken(s.slots);
    }
  }

  lemma FreeIsNotTaken(s: State, k: nat)
    requires Inv(s) && k < CAP && Reusable(s.slots[k])
    ensures s.slots[k].buffer.value !in s.outstanding
    ensures |s.outstanding| < CAP
  {
    TakenCounts(s.slots);
  }

  // ---- Who has which buffer ----

  // What the events say about who has buffers: those handed out and not given back since.
  function HandedOut(s: State, es: seq<Event>): set<Buffer>
    decreases |es|
  {
    if es == [] then s.outstanding
    else
      var p, e := es[..|es| - 1], es[|es| - 1];
      var before := HandedOut(s, p);
      match e
      case EvRelease(b) => before - {b}
      case EvAllocatorGone => before
      case EvAcquire(spare) =>
        var r := Acquire(Run(s, p), spare).1;
        if r == None then before else before + {r.value}
  }

  lemma {:induction false} RunEnd(s: State, es: seq<Event>, e: Event)
    ensures Run(s, es + [e]) == Step(Run(s, es), e)
    ensures Possible(s, es + [e]) <==> Possible(s, es) && Enabled(Run(s, es), e)
    decreases |es|
  {
    hide Step, Enabled;
    var fs := es + [e];
    if es == [] {
      assert fs == [e] && fs[1..] == [];
      assert Possible(Step(s, e), []);
    } else {
      assert fs[1..] == es[1..] + [e];
      RunEnd(Step(s, es[0]), es[1..], e);
    }
  }

  // The slots that are marked acquired are exactly the ones whose buffers are out.
  lemma {:induction false} MarksAreHandedOut(es: seq<Event>)
    requires Possible(FRESH, es)
    ensures var s := Run(FRESH, es);
            && Inv(s)
            && Taken(s.slots) == s.outstanding == HandedOut(FRESH, es)
    decreases |es|
  {
    hide Taken, Held;
    if es == [] {
      FreshIsEmpty();
    } else {
      var p, e := es[..|es| - 1], es[|es| - 1];
      assert es == p + [e];
      RunEnd(FRESH, p, e);
      MarksAreHandedOut(p);
      var s := Run(FRESH, p);
      match e
      case EvAcquire(spare) => AcquireKeeps(s, spare); AcquireHandsOut(s, spare);
      case EvRelease(b) => ReleaseKeeps(s, b); ReleaseTakesBack(s, b);
      case EvAllocatorGone =>
    }
  }

  lemma FreshIsEmpty()
    ensures Inv(FRESH) && Taken(FRESH.slots) == {}
  {
    assert Held(FRESH.slots) == {} && Taken(FRESH.slots) == {};
  }

  lemma AcquireHandsOut(s: State, spare: Option<Buffer>)
    ensures var (s', r) := Acquire(s, spare);
            s'.outstanding == s.outstanding + (if r == None then {} else {r.value}) && s'.allocator == s.allocator
  {
  }

  lemma ReleaseTakesBack(s: State, b: Buffer)
    requires Inv(s) && b in s.outstanding
    ensures Release(s, b).outstanding == s.outstanding - {b} && Release(s, b).made == s.made
  {
  }

  // A buffer that is given back is there for the next acquire, which hands out one that exists
  // instead of allocating.
  lemma ReleasedIsReused(es: seq<Event>, b: Buffer, spare: Option<Buffer>)
    requires Possible(FRESH, es + [EvRelease(b)])
    requires Enabled(Run(FRESH, es + [EvRelease(b)]), EvAcquire(spare))
    ensures var s, t := Run(FRESH, es), Run(FRESH, es + [EvRelease(b)]);
            var (u, r) := Acquire(t, spare);
            && t.outstanding == s.outstanding - {b}
            && r.Some? && r.value in s.made && r.value !in t.outstanding && u.made == s.made
  {
    hide Run, Possible, Acquire, Enabled;
    RunEnd(FRESH, es, EvRelease(b));
    MarksAreHandedOut(es);
    MarksAreHandedOut(es + [EvRelease(b)]);
    var s := Run(FRESH, es);
    EnabledRelease(s, b);
    ReleaseTakesBack(s, b);
    SafeAcquire(es + [EvRelease(b)], spare);
    TakenIsHeld(s, b);
    TakenCounts(s.slots);
    var t := Run(FRESH, es + [EvRelease(b)]);
    AcquireKeeps(t, spare);
    var (u, r) := Acquire(t, spare);
    assert r.Some?;
    TakenIsHeld(u, r.value);
  }

  lemma EnabledRelease(s: State, b: Buffer)
    requires Enabled(s, EvRelease(b))
    ensures b in s.outstanding
  {
  }

  lemma TakenIsHeld(s: State, b: Buffer)
    requires Inv(s) && b in s.outstanding
    ensures b in s.made
  {
  }

  // Once the allocator is gone nothing is allocated any more, however long the chain is used.
  lemma {:induction false} NoneAfterwards(s: State, es: seq<Event>)
    requires !s.allocator
    ensures Run(s, es).made == s.made && !Run(s, es).allocator
    decreases |es|
  {
    if es != [] {
      NoneAfterwards(Step(s, es[0]), es[1..]);
    }
  }

  lemma NoAllocatorNoBuffers(s: State, es: seq<Event>)
    ensures Run(Step(s, EvAllocatorGone), es).made == s.made
  {
    NoneAfterwards(Step(s, EvAllocatorGone), es);
  }

  // ---- The object ----

  class Chain {
    var slots: array<Slot>
    var allocator: bool
    ghost var outstanding: set<Buffer>
    ghost var made: set<Buffer>

    ghost function View(): State
      reads this, slots
    {
      State(slots[..], allocator, outstanding, made)
    }

    constructor ()
      ensures View() == FRESH && fresh(slots)
    {
      slots := new Slot[CAP](_ => EMPTY);
      allocator, outstanding, made := true, {}, {};
      new;
      assert slots[..] == FRESH.slots;
    }

    method AcquireBuffer(spare: Option<Buffer>) returns (r: Option<Buffer>)
      modifies this, slots
      ensures slots == old(slots)
      ensures (View(), r) == Acquire(old(View()), spare)
    {
      var freeSlot: Option<nat> := None;
      var i := 0;
      while i < slots.Length
        invariant 0 <= i <= slots.Length
        invariant FirstReusable(slots[..], 0) == FirstReusable(slots[..], i)
        invariant freeSlot == LastFree(slots[..], i)
      {
        var slot := slots[i];
        if !slot.acquired {
          if slot.buffer.Some? {
            slots[i] := slot.(acquired := true);
            outstanding := outstanding + {slot.buffer.value};
            return slot.buffer;
          }
          freeSlot := Some(i);
        }
        i := i + 1;
      }
      if freeSlot == None || !allocator || spare == None {
        return None;
      }
      slots[freeSlot.value] := Slot(spare, true);
      outstanding := outstanding + {spare.value};
      made := made + {spare.value};
      return spare;
    }

    method HandleRelease(b: Buffer)
      requires SlotOf(slots[..], b) < slots.Length
      modifies this, slots
      ensures slots == old(slots)
      ensures View() == Release(old(View()), b)
    {
      var i := 0;
      while slots[i].buffer != Some(b)
        invariant 0 <= i < slots.Length
        invariant forall j :: 0 <= j < i ==> slots[j].buffer != Some(b)
        decreases slots.Length - i
      {
        assert i != SlotOf(slots[..], b);
        i := i + 1;
      }
      assert i == SlotOf(slots[..], b);
      slots[i] := slots[i].(acquired := false);
      outstanding := outstanding - {b};
    }

    method HasBuffer(b: Buffer) returns (found: bool)
      ensures found <==> b in Held(slots[..])
    {
      var i := 0;
      while i < slots.Length
        invariant 0 <= i <= slots.Length
        invariant forall j :: 0 <= j < i ==> slots[j].buffer != Some(b)
      {
        if slots[i].buffer == Some(b) {
          assert slots[..][i].buffer == Some(b);
          return true;
        }
        i := i + 1;
      }
      return false;
    }
  }
}

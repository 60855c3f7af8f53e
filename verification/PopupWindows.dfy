// The present-windows of popups: where they are, how large they are, and that the caches and the
// windows never disagree.
// src/xdg.c:1000-1194, 1216-1247, 1371-1393.

module PopupWindows {
  import opened Base
  import opened Scale
  import opened Popups
  import opened PopupRuns

  // ---- The window that a popup gets ----

  predicate Whole(buffer: Option<(int, int)>) {
    buffer.Some? && buffer.value.0 > 0 && buffer.value.1 > 0
  }

  // The size of the popup without its buffer: that of the surface, or else of the geometry.
  function SizeOf(surface: int, current: int, scheduled: int): int {
    if surface > 0 then surface else if current > 0 then current else scheduled
  }

  // Mapping or committing a popup that can be placed gives it a window there, the size of its
  // buffer in host pixels, dimension by dimension, or that of the surface if it has no buffer;
  // the cache says the same.
  lemma WindowOnScreen(e: Env, ps: seq<Popup>, i: nat, buffer: Option<(int, int)>, createOk: bool)
    requires ChildrenFirst(e, ps) && i < |ps|
    requires Compute(e, ps, i).1.Some? && (ps[i].present.Some? || createOk)
    ensures var p, q := ps[i], PositionAndMap(e, ps, i, buffer, createOk)[i];
            && q.valid && q.present == Some(q.box)
            && (q.box.x, q.box.y) == (Compute(e, ps, i).1.value.x, Compute(e, ps, i).1.value.y)
            && (if Whole(buffer)
                then && IsScaled(e.scale, buffer.value.0, q.box.w) && IsScaled(e.scale, buffer.value.1, q.box.h)
                     && (e.scale >= 1.0 || e.scale <= 0.0 ==>
                           UnscaleSize(e.scale, q.box.w) == buffer.value.0 && UnscaleSize(e.scale, q.box.h) == buffer.value.1)
                else && IsScaled(e.scale, SizeOf(p.surfW, p.current.w, p.scheduled.w), q.box.w)
                     && IsScaled(e.scale, SizeOf(p.surfH, p.current.h, p.scheduled.h), q.box.h))
  {
    hide ScaleSize, UnscaleSize, Shift, Refreshed, IsScaled, ChildrenFirst;
    WindowKnown(e, ps, i);
    var p := ps[i];
    ScalesToNearest(e.scale, Width(p));
    ScalesToNearest(e.scale, Height(p));
    PositiveScaled(e.scale, Width(p));
    PositiveScaled(e.scale, Height(p));
    if Whole(buffer) {
      ScalesToNearest(e.scale, buffer.value.0);
      ScalesToNearest(e.scale, buffer.value.1);
      if e.scale >= 1.0 || e.scale <= 0.0 {
        RoundTripsWhenEnlarging(e.scale, buffer.value.0);
        RoundTripsWhenEnlarging(e.scale, buffer.value.1);
      }
    }
    if p.parent.Some? {
      assert ParentBehind(ps, i) by { BehindBoth(e, ps, ps, i); }
    }
  }

  lemma PositiveScaled(scale: real, n: int)
    requires n > 0
    ensures ScaleSize(scale, n) > 0
  {
  }

  // ---- Where a popup can be placed, and where ----

  // A popup can be placed if it has a size and what it hangs on can say where it is: the
  // toplevel's content window, or the parent's cache, brought up to date if it is not valid.
  lemma PlacedExactly(e: Env, ps: seq<Popup>, i: nat)
    requires ChildrenFirst(e, ps) && i < |ps|
    ensures var p := ps[i];
            && p.win in e.windows
            && (Compute(e, ps, i).1.Some? <==>
                  && SizeOf(p.surfW, p.current.w, p.scheduled.w) > 0 && SizeOf(p.surfH, p.current.h, p.scheduled.h) > 0
                  && if p.parent == None then e.windows[p.win].content.Some?
                     else exists j :: 0 <= j < |ps| && ps[j].id == p.parent.value && (ps[j].valid || Refreshed(e, ps[j]).valid))
  {
    hide ScaleSize, Refreshed, ChildrenFirst, PlacedAt;
    WindowKnown(e, ps, i);
    if ps[i].parent.Some? {
      BehindBoth(e, ps, ps, i);
      var j := IndexOf(ps, ps[i].parent.value);
      WindowKnown(e, ps, j);
      OnlyOne(e, ps, j);
    }
  }

  lemma OnlyOne(e: Env, ps: seq<Popup>, j: nat)
    requires ChildrenFirst(e, ps) && j < |ps|
    ensures forall k :: 0 <= k < |ps| && ps[k].id == ps[j].id ==> k == j
  {
  }

  // Bringing the cache of a popup without a window up to date places it as if it hung on the
  // toplevel: right for one that does, as soon as the client has given it a geometry.
  lemma RefreshedIsPlaced(e: Env, p: Popup)
    requires p.win in e.windows && p.present == None
    requires p.current.w > 0 && p.current.h > 0
    ensures var q := Refreshed(e, p);
            && (q.valid <==> e.windows[p.win].content.Some?)
            && (q.valid && p.parent == None && (p.current.x, p.current.y) != (0, 0) ==>
                  var o, s := e.windows[p.win].content.value, Shift(e, p);
                  (q.box.x, q.box.y) == (Int16(o.0 + s.0), Int16(o.1 + s.1)))
            && q.present == None
  {
    hide Int16, ScaleSize;
    PositiveScaled(e.scale, p.current.w);
    PositiveScaled(e.scale, p.current.h);
  }

  // It becomes valid exactly if the toplevel can say where it is and the client has given the
  // popup a size, in its geometry or with its surface; under a scale the size does not matter,
  // since nothing scales to less than 1.
  lemma RefreshedIsValidExactly(e: Env, p: Popup)
    requires p.win in e.windows && p.present == None
    ensures Refreshed(e, p).valid <==>
              && e.windows[p.win].content.Some?
              && (|| e.scale > 0.0
                  || (p.current.w > 0 && p.current.h > 0)
                  || ((p.scheduled.w > 0 || p.surfW > 0) && (p.scheduled.h > 0 || p.surfH > 0)))
  {
    hide Int16;
  }

  // What a popup adds to the place of what it hangs on, without scaling.
  function Position(p: Popup): (int, int) {
    if (p.current.x, p.current.y) != (0, 0) then (p.current.x, p.current.y) else (p.scheduled.x, p.scheduled.y)
  }

  // The content window shows all of the surface under client decorations, and the geometry under
  // server decorations.
  function ShownFrom(e: Env, win: nat): (int, int)
    requires win in e.windows
  {
    var g := e.windows[win].geo;
    if e.csd || g.w <= 0 || g.h <= 0 then (0, 0) else (g.x, g.y)
  }

  // The positions along the chain, added up.
  function Sum(e: Env, ps: seq<Popup>, i: nat): (int, int)
    requires ChildrenFirst(e, ps) && i < |ps|
    decreases |ps| - i
  {
    if ps[i].parent == None then Position(ps[i])
    else
      assert ParentBehind(ps, i);
      var above := Sum(e, ps, IndexOf(ps, ps[i].parent.value));
      (above.0 + Position(ps[i]).0, above.1 + Position(ps[i]).1)
  }

  // Without scaling, a popup belongs where its chain adds up to from the corner of the surface.
  lemma {:induction false} UnscaledTarget(e: Env, ps: seq<Popup>, i: nat)
    requires ChildrenFirst(e, ps) && i < |ps| && Shown(e, ps, i) && e.scale <= 0.0
    ensures e.windows[ps[i].win].content.Some?
    ensures var o, c := e.windows[ps[i].win].content.value, ShownFrom(e, ps[i].win);
            Target(e, ps, i) == (o.0 - c.0 + Sum(e, ps, i).0, o.1 - c.1 + Sum(e, ps, i).1)
    decreases |ps| - i
  {
    if ps[i].parent.Some? {
      assert ParentBehind(ps, i);
      UnscaledTarget(e, ps, IndexOf(ps, ps[i].parent.value));
    }
  }

  // ---- Caches and windows agree ----

  // A window belongs to a mapped popup, is not empty, and is where the valid cache says.
  predicate Tight(p: Popup) {
    p.present.Some? ==> p.mapped && p.valid && p.box == p.present.value && p.box.w > 0 && p.box.h > 0
  }

  predicate AllTight(ps: seq<Popup>) {
    forall i :: 0 <= i < |ps| ==> Tight(ps[i])
  }

  lemma RefreshedTight(e: Env, p: Popup)
    requires p.win in e.windows && p.present == None
    ensures Refreshed(e, p).present == None && Tight(Refreshed(e, p))
  {
  }

  // Bringing the cache of a mapped popup up to date makes it agree with its window, unless the
  // window is empty.
  lemma RefreshedFromWindow(e: Env, p: Popup)
    requires p.win in e.windows && p.present.Some? && p.mapped
    ensures var q, b := Refreshed(e, p), p.present.value;
            && q.present == p.present
            && (Tight(q) <==> b.w > 0 && b.h > 0)
            && (q.valid <==> b.w > 0 && b.h > 0)
  {
  }

  // Asking for a place touches no window, and changes at most the cache of a parent without one.
  lemma ComputeTight(e: Env, ps: seq<Popup>, i: nat)
    requires ChildrenFirst(e, ps) && i < |ps| && AllTight(ps)
    ensures var r := Compute(e, ps, i);
            && AllTight(r.0) && r.0[i] == ps[i]
            && (forall k :: 0 <= k < |ps| ==> r.0[k].present == ps[k].present)
            && (forall k :: 0 <= k < |ps| && (ps[k].present.Some? || ps[k].win != ps[i].win) ==> r.0[k] == ps[k])
            && (r.1.Some? ==> r.1.value.w > 0 && r.1.value.h > 0)
  {
    hide ScaleSize, Refreshed, Shift, ChildrenFirst, Int16;
    WindowKnown(e, ps, i);
    if ps[i].parent.Some? {
      BehindBoth(e, ps, ps, i);
      var j := IndexOf(ps, ps[i].parent.value);
      WindowKnown(e, ps, j);
      assert Tight(ps[j]);
      if !ps[j].valid {
        RefreshedTight(e, ps[j]);
      }
    }
  }

  lemma Reposition1Tight(e: Env, ps: seq<Popup>, win: nat, i: nat)
    requires ChildrenFirst(e, ps) && i < |ps| && AllTight(ps)
    ensures var rs := Reposition1(e, ps, win, i);
            && AllTight(rs)
            && (forall k :: 0 <= k < |ps| ==> (rs[k].present.Some? <==> ps[k].present.Some?))
            && (forall k :: 0 <= k < |ps| && !ps[k].mapped && ps[k].win in e.windows ==> rs[k] == ps[k] || rs[k] == Refreshed(e, ps[k]))
  {
    hide Compute, Refreshed, ChildrenFirst;
    if ps[i].win == win && ps[i].mapped {
      ComputeTight(e, ps, i);
      RefreshesAtMost(e, ps, i);
    }
  }

  lemma RefreshesAtMost(e: Env, ps: seq<Popup>, i: nat)
    requires ChildrenFirst(e, ps) && i < |ps|
    ensures forall k :: 0 <= k < |ps| && ps[k].win in e.windows ==>
              Compute(e, ps, i).0[k] == ps[k] || Compute(e, ps, i).0[k] == Refreshed(e, ps[k])
  {
    hide Refreshed, PlacedAt, ChildrenFirst;
    WindowKnown(e, ps, i);
    if ps[i].parent.Some? {
      BehindBoth(e, ps, ps, i);
      WindowKnown(e, ps, IndexOf(ps, ps[i].parent.value));
    }
  }

  lemma RefreshedTwice(e: Env, p: Popup)
    requires p.win in e.windows
    ensures Refreshed(e, p).win == p.win && Refreshed(e, p).mapped == p.mapped
    ensures Refreshed(e, Refreshed(e, p)) == Refreshed(e, p)
  {
    hide ScaleSize, Int16;
  }

  // A pass creates and destroys no window, and does not place a popup that is not mapped: at
  // most it brings its cache up to date.
  lemma {:induction false} PassTight(e: Env, ps: seq<Popup>, win: nat, n: nat)
    requires ChildrenFirst(e, ps) && n <= |ps| && AllTight(ps)
    ensures var qs := RepositionBelow(e, ps, win, n);
            && AllTight(qs)
            && (forall k :: 0 <= k < |ps| ==> (qs[k].present.Some? <==> ps[k].present.Some?))
            && (forall k :: 0 <= k < |ps| && !ps[k].mapped && ps[k].win in e.windows ==> qs[k] == ps[k] || qs[k] == Refreshed(e, ps[k]))
    decreases n
  {
    hide Reposition1, Refreshed, ChildrenFirst, Tight;
    if n > 0 {
      Reposition1Keeps(e, ps, win, n - 1);
      Reposition1Tight(e, ps, win, n - 1);
      var rs := Reposition1(e, ps, win, n - 1);
      PassTight(e, rs, win, n - 1);
      forall k | 0 <= k < |ps| && !ps[k].mapped && ps[k].win in e.windows
        ensures rs[k].win == ps[k].win && rs[k].mapped == ps[k].mapped
        ensures Refreshed(e, rs[k]) == Refreshed(e, ps[k])
      {
        RefreshedTwice(e, ps[k]);
      }
    }
  }

  // After a pass every window of a shown popup is at its target, the size of its surface.
  lemma PassMovesWindows(e: Env, ps: seq<Popup>, win: nat, i: nat)
    requires ChildrenFirst(e, ps) && AllTight(ps) && i < |ps| && ps[i].win == win && Shown(e, ps, i)
    ensures var qs, t := Reposition(e, ps, win), Target(e, ps, i);
            && |qs| == |ps| && AllTight(qs)
            && (qs[i].present.Some? <==> ps[i].present.Some?)
            && qs[i].valid && (qs[i].box.x, qs[i].box.y) == (Int16(t.0), Int16(t.1))
            && (qs[i].box.w, qs[i].box.h) == (ScaleSize(e.scale, Width(ps[i])), ScaleSize(e.scale, Height(ps[i])))
  {
    hide RepositionBelow, Target, Int16, Tight, ChildrenFirst, ScaleSize;
    CachesAgreeWithTree(e, ps, win);
    PassTight(e, ps, win, |ps|);
    ShownIsPlaceable(e, ps, i);
    PositiveScaled(e.scale, Width(ps[i]));
    PositiveScaled(e.scale, Height(ps[i]));
    assert InPlace(e, ps, i, Reposition(e, ps, win)[i]);
  }

  // ---- Over runs ----

  lemma CommittedTight(e: Env, ps: seq<Popup>, i: nat, ch: Change, buffer: Option<(int, int)>, createOk: bool)
    requires ChildrenFirst(e, ps) && i < |ps| && AllTight(ps) && (ps[i].mapped ==> ch.mapped)
    ensures AllTight(Committed(e, ps, i, ch, buffer, createOk))
  {
    hide Compute, Refreshed, ChildrenFirst, ScaleSize;
    var qs := ps[i := Changed(ps[i], ch)];
    OrderSame(e, ps, qs);
    assert Tight(ps[i]);
    if ch.mapped {
      ComputeTight(e, qs, i);
      WindowKnown(e, qs, i);
      if qs[i].present == None {
        RefreshedTight(e, qs[i]);
      }
      if Whole(buffer) {
        PositiveScaled(e.scale, buffer.value.0);
        PositiveScaled(e.scale, buffer.value.1);
      }
    }
  }

  lemma StepTight(w: World, ev: Event)
    requires Ordered(w) && Enabled(w, ev) && AllTight(w.ps)
    ensures AllTight(Step(w, ev).ps)
  {
    hide Committed, RepositionBelow, ChildrenFirst, Cut;
    match ev
    case EvCommit(id, ch, buffer, createOk) =>
      CommittedTight(w.e, w.ps, IndexOf(w.ps, id), ch, buffer, createOk);
    case EvReposition(win) => PassTight(w.e, w.ps, win, |w.ps|);
    case _ =>
  }

  lemma {:induction false} RunTight(w: World, es: seq<Event>)
    requires Ordered(w) && Possible(w, es) && AllTight(w.ps)
    ensures AllTight(Run(w, es).ps)
    decreases |es|
  {
    hide AllTight, Step, Enabled, Ordered;
    if es != [] {
      StepTight(w, es[0]);
      RunTight(Step(w, es[0]), es[1..]);
    }
  }

  // In every run a window belongs to a mapped popup, is not empty, and is exactly where the
  // popup's valid cache says; so after any history a pass moves the window of every shown popup
  // to its target.
  lemma WindowsAgreeWithCaches(start: Env, es: seq<Event>, win: nat)
    requires Ordered(World(start, [])) && Possible(World(start, []), es)
    ensures var w := Run(World(start, []), es);
            && AllTight(w.ps)
            && forall i :: 0 <= i < |w.ps| && w.ps[i].win == win && Shown(w.e, w.ps, i) && w.ps[i].present.Some? ==>
                 var b, t := Reposition(w.e, w.ps, win)[i].present, Target(w.e, w.ps, i);
                 b.Some? && (b.value.x, b.value.y) == (Int16(t.0), Int16(t.1))
  {
    hide AllTight, Shown, Target, RepositionBelow, Run, Int16, ChildrenFirst;
    NothingIsTight();
    RunTight(World(start, []), es);
    var w := Run(World(start, []), es);
    forall i | 0 <= i < |w.ps| && w.ps[i].win == win && Shown(w.e, w.ps, i) && w.ps[i].present.Some?
      ensures var b, t := Reposition(w.e, w.ps, win)[i].present, Target(w.e, w.ps, i);
              b.Some? && (b.value.x, b.value.y) == (Int16(t.0), Int16(t.1))
    {
      PassMovesWindows(w.e, w.ps, win, i);
      TightAt(Reposition(w.e, w.ps, win), i);
    }
  }

  lemma NothingIsTight()
    ensures AllTight([])
  {
  }

  lemma TightAt(ps: seq<Popup>, i: nat)
    requires AllTight(ps) && i < |ps|
    ensures Tight(ps[i])
  {
  }

  // ---- What a pass does to the size ----

  // A commit gives a window the size of the buffer, a pass that of the surface: the pass keeps
  // the size exactly if the two are equal once scaled.
  lemma PassKeepsSizeExactly(e: Env, ps: seq<Popup>, i: nat, buffer: Option<(int, int)>, createOk: bool)
    requires ChildrenFirst(e, ps) && i < |ps| && AllTight(ps) && Shown(e, ps, i) && Whole(buffer)
    requires Compute(e, ps, i).1.Some? && (ps[i].present.Some? || createOk)
    ensures var rs := PositionAndMap(e, ps, i, buffer, createOk);
            && ChildrenFirst(e, rs) && rs[i].present.Some?
            && var b, c := rs[i].present.value, Reposition(e, rs, ps[i].win)[i].present;
               && c.Some?
               && ((c.value.w, c.value.h) == (b.w, b.h) <==>
                     && ScaleSize(e.scale, Width(ps[i])) == ScaleSize(e.scale, buffer.value.0)
                     && ScaleSize(e.scale, Height(ps[i])) == ScaleSize(e.scale, buffer.value.1))
  {
    hide Compute, RepositionBelow, Target, Int16, ChildrenFirst, ScaleSize, Shown, Refreshed, IndexOf;
    var rs := PositionAndMap(e, ps, i, buffer, createOk);
    PositionAndMapSame(e, ps, i, buffer, createOk);
    OrderSame(e, ps, rs);
    TargetSame(e, ps, rs, i);
    ShownIsPlaceable(e, ps, i);
    var same := Change(ps[i].current, ps[i].scheduled, ps[i].surfW, ps[i].surfH, true);
    assert ps[i := Changed(ps[i], same)] == ps;
    CommittedTight(e, ps, i, same, buffer, createOk);
    ComputeTight(e, ps, i);
    PassMovesWindows(e, rs, ps[i].win, i);
    TightAt(Reposition(e, rs, ps[i].win), i);
  }

  // A menu whose buffer has twice the size of its surface.
  function SharpMenu(present: Option<Box>, box: Box, valid: bool): Popup {
    var at := Box(10, 20, 100, 200);
    Popup(2, None, 1, true, at, at, 100, 200, present, box, valid)
  }

  // Its window is 200x400 when it maps, and 100x200 after the next pass.
  lemma PassResizesWitness()
    ensures var nowhere, large, small := Box(0, 0, 0, 0), Box(110, 120, 200, 400), Box(110, 120, 100, 200);
            var ps, rs := [SharpMenu(None, nowhere, false)], [SharpMenu(Some(large), large, true)];
            && ChildrenFirst(DESKTOP, ps) && PositionAndMap(DESKTOP, ps, 0, Some((200, 400)), true) == rs
            && ChildrenFirst(DESKTOP, rs) && Reposition(DESKTOP, rs, 1) == [SharpMenu(Some(small), small, true)]
  {
    var large := Box(110, 120, 200, 400);
    var rs := [SharpMenu(Some(large), large, true)];
    assert RepositionBelow(DESKTOP, Reposition1(DESKTOP, rs, 1, 0), 1, 0) == Reposition1(DESKTOP, rs, 1, 0);
  }

  // ---- Unmapping, and windows that cannot be made ----

  // An unmapped popup has no window and its cache counts for nothing: the next popup that hangs
  // on it and asks for its place brings it up to date first.
  lemma UnmapForgets(e: Env, ps: seq<Popup>, i: nat, k: nat)
    requires ChildrenFirst(e, ps) && i < |ps| && k < |ps| && HangsOn(ps, k, i) && Sized(ps[k])
    ensures var qs := Unmapped(ps, i);
            && qs[i].present == None && !qs[i].mapped && ChildrenFirst(e, qs)
            && qs[i].win in e.windows
            && Compute(e, qs, k).0[i] == Refreshed(e, qs[i])
  {
    hide Refreshed, PlacedAt, ChildrenFirst;
    var qs := Unmapped(ps, i);
    OrderSame(e, ps, qs);
    WindowKnown(e, qs, i);
    ChildIsUnder(e, ps, k, i);
    BehindBoth(e, ps, ps, k);
    IndexSame(ps, qs, ps[i].id);
    IndexIsOwn(e, ps, i);
  }

  lemma IndexIsOwn(e: Env, ps: seq<Popup>, i: nat)
    requires ChildrenFirst(e, ps) && i < |ps|
    ensures IndexOf(ps, ps[i].id) == i
  {
    IndexUnique(ps, i);
  }

  // If no window can be made, the popup has none, but its cache is up to date for the popups
  // that hang on it.
  lemma FailedWindow(e: Env, ps: seq<Popup>, i: nat, buffer: Option<(int, int)>)
    requires ChildrenFirst(e, ps) && i < |ps| && Compute(e, ps, i).1.Some? && ps[i].present == None
    requires ps[i].current.w > 0 && ps[i].current.h > 0
    ensures var q := PositionAndMap(e, ps, i, buffer, false)[i];
            && q.present == None && ps[i].win in e.windows
            && (q.valid <==> e.windows[ps[i].win].content.Some?)
            && (ps[i].parent == None && (ps[i].current.x, ps[i].current.y) != (0, 0) ==>
                  && q.valid
                  && (q.box.x, q.box.y) == (Compute(e, ps, i).1.value.x, Compute(e, ps, i).1.value.y))
  {
    hide Refreshed, ChildrenFirst, Int16, Shift, ScaledSize;
    WindowKnown(e, ps, i);
    if ps[i].parent.Some? {
      BehindBoth(e, ps, ps, i);
    }
    RefreshedIsPlaced(e, ps[i]);
  }
}

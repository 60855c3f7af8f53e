// The windows of promoted subsurfaces: which surfaces get one, where it is and how large, and
// what is left when windows go.
// src/subpresent.c:98-109, 127-200, 245-282, 366-453.

module SubpresentWindows {
  import opened Base
  import opened Scale
  import opened Subpresent

  // ---- Which surfaces ----

  predicate Covers(surf: Surface, x: int, y: int) {
    surf.sx <= x < surf.sx + surf.w && surf.sy <= y < surf.sy + surf.h
  }

  predicate InsideRoot(w: Win, x: int, y: int) {
    0 <= x < w.rootW && 0 <= y < w.rootH
  }

  // A surface is promoted exactly if it is a mapped subsurface with a pixel that the root
  // surface has no room for.
  lemma OverflowsExactly(w: Win, surf: Surface)
    ensures Overflows(w, surf) <==>
              surf.id != w.root && surf.mapped && exists x, y :: Covers(surf, x, y) && !InsideRoot(w, x, y)
  {
    if Overflows(w, surf) {
      var x := if surf.sx < 0 then surf.sx else surf.sx + surf.w - 1;
      var y := if surf.sy < 0 then surf.sy else surf.sy + surf.h - 1;
      assert Covers(surf, x, y) && !InsideRoot(w, x, y);
    }
  }

  // ---- Where they are ----

  // b shows surf as a part of the content window: the corner at its scaled distance from the
  // corner of what the content window shows, the size that of the scaled surface, or of the
  // buffer when nothing is scaled.
  predicate OnScreen(e: Env, w: Win, surf: Surface, b: Box)
    requires w.content.Some?
  {
    var geometry := !e.csd && w.geo.w > 0 && w.geo.h > 0;
    var dx, dy := surf.sx - (if geometry then w.geo.x else 0), surf.sy - (if geometry then w.geo.y else 0);
    var c := w.content.value;
    && (b.x, b.y) == (Int16(c.0 + ScaleSize(e.scale, dx)), Int16(c.1 + ScaleSize(e.scale, dy)))
    && (if (e.scale <= 0.0 || e.scale == 1.0) && surf.buffer.Some? && surf.buffer.value.0 > 0 && surf.buffer.value.1 > 0
        then (b.w, b.h) == surf.buffer.value
        else IsScaled(e.scale, surf.w, b.w) && IsScaled(e.scale, surf.h, b.h))
  }

  lemma PlacedOnScreen(e: Env, w: Win, surf: Surface)
    requires w.content.Some? && surf.w > 0 && surf.h > 0
    ensures OnScreen(e, w, surf, Placed(e, w, surf, surf.sx, surf.sy))
  {
    hide IsScaled, Int16, ScaleSize;
    ScalesToNearest(e.scale, surf.w);
    ScalesToNearest(e.scale, surf.h);
    ScaledIsPositive(e.scale, surf.w);
    ScaledIsPositive(e.scale, surf.h);
  }

  lemma ScaledIsPositive(scale: real, n: int)
    requires n > 0
    ensures ScaleSize(scale, n) > 0
  {
  }

  // After a sync of a shown window whose position can be asked, every surface that overflows has
  // a window on the screen, unless it had none and none could be made.
  lemma PromotedOnScreen(e: Env, s: State, w: Win, surfs: seq<Surface>, i: nat)
    requires Sound(s) && Once(surfs) && AtHome(s, w, surfs) && i < |surfs| && Overflows(w, surfs[i])
    requires w.content.Some?
    ensures var t, id := Sync(e, s, w, true, surfs), surfs[i].id;
            && Tracked(t, id)
            && (EntryOf(t, id).present <==> e.createOk || (Tracked(s, id) && EntryOf(s, id).present))
            && (EntryOf(t, id).present ==> EntryOf(t, id).valid && OnScreen(e, w, surfs[i], EntryOf(t, id).box))
  {
    hide Placed, OnScreen, IndexOf, AtHome;
    PromotesExactly(e, s, w, true, surfs);
    KeptCopy(e, s, w, surfs, i);
    TouchAllKeeps(e, s, w, surfs);
    SweepKeeps(TouchAll(e, s, w, surfs), w, Keep(w, surfs));
    PlacedOnScreen(e, w, surfs[i]);
    assert Settled(e, Sync(e, s, w, true, surfs), w, surfs[i]);
  }

  // A commit of a promoted surface that is mapped and not empty puts its window on the screen for
  // the surface as committed, at the offset of the last sync.
  lemma CommittedOnScreen(e: Env, s: State, w: Win, surf: Surface)
    requires Sound(s) && Tracked(s, surf.id) && EntryOf(s, surf.id).parent == w.id
    requires EntryOf(s, surf.id).sx == surf.sx && EntryOf(s, surf.id).sy == surf.sy
    requires surf.mapped && surf.w > 0 && surf.h > 0
    requires w.content.Some? && (e.createOk || EntryOf(s, surf.id).present)
    ensures var t := CommitIn(e, s, w, surf);
            && Tracked(t, surf.id) && EntryOf(t, surf.id).present && EntryOf(t, surf.id).valid
            && OnScreen(e, w, surf, EntryOf(t, surf.id).box)
  {
    hide Placed, OnScreen, IndexOf;
    var c := s.(disabled := s.disabled - {surf.id});
    PresentKeeps(e, c, w, surf);
    PlacedOnScreen(e, w, surf);
  }

  // ---- Windows that go ----

  // When a present-window is destroyed under its entry, the entry stays without one, and the
  // surface's copy in its tree is on again.
  lemma LostShowsCopy(s: State, id: nat)
    requires Sound(s) && Tracked(s, id)
    ensures var t := Step(s, EvLost(id));
            && Tracked(t, id) && !EntryOf(t, id).present && id !in t.disabled
            && forall o :: o != id ==>
                 && (Tracked(t, o) <==> Tracked(s, o))
                 && (Tracked(s, o) ==> EntryOf(t, o) == EntryOf(s, o))
                 && (o in t.disabled <==> o in s.disabled)
  {
    hide IndexOf, PresentLost;
    var k := IndexOf(s.entries, id);
    LostTracks(s, k);
    LostScene(s, k);
  }

  // When a toplevel goes, exactly its entries go, and the copies they had switched off are on.
  lemma WindowGoneExactly(s: State, win: Win)
    requires Sound(s)
    ensures var t := Step(s, EvWindowGone(win));
            && (forall id :: Tracked(t, id) <==> Tracked(s, id) && EntryOf(s, id).parent != win.id)
            && (forall id :: Tracked(t, id) ==> EntryOf(t, id) == EntryOf(s, id))
            && (forall id :: id in t.disabled <==> id in s.disabled && EntryOf(s, id).parent != win.id)
  {
    hide Sweep, IndexOf;
    SweepKeeps(s, win, {});
  }
}

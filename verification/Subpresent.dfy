// Overflow promotion: subsurfaces that reach beyond their toplevel's buffer get windows of
// their own, and the copy in the parent's scene is switched off.
// src/subpresent.c; subprojects/wlroots/types/scene/subsurface_tree.c for the scene copies.

module Subpresent {
  import opened Base
  import opened Scale

  datatype Box = Box(x: int, y: int, w: int, h: int)

  // A surface of the tree, at its offset from the root surface. buffer is the size of its
  // attached buffer.
  datatype Surface = Surface(id: nat, sx: int, sy: int, w: int, h: int, mapped: bool, buffer: Option<(int, int)>)

  // A toplevel: its root surface, where its content window is on the X root (if that can be
  // asked), and its window geometry.
  datatype Win = Win(id: nat, root: nat, rootW: int, rootH: int, content: Option<(int, int)>, geo: Box)

  datatype Env = Env(scale: real, csd: bool, createOk: bool)

  // struct wlx_subpresent; present says that it has a present-window.
  datatype Entry = Entry(surface: nat, parent: nat, sx: int, sy: int, present: bool, box: Box, valid: bool)

  // The list, newest first; the window in whose scene each surface has its copy (a surface is in
  // one tree at a time); and the surfaces whose copy is switched off.
  datatype State = State(entries: seq<Entry>, homes: map<nat, nat>, disabled: set<nat>)

  // ---- Lookup ----

  function IndexOf(es: seq<Entry>, id: nat): (k: nat)
    ensures k <= |es|
    ensures k < |es| ==> es[k].surface == id
    ensures k == |es| ==> forall j :: 0 <= j < |es| ==> es[j].surface != id
  {
    if es == [] || es[0].surface == id then 0
    else
      var k := IndexOf(es[1..], id);
      assert forall j :: 1 <= j < |es| ==> es[1..][j - 1] == es[j];
      k + 1
  }

  predicate Distinct(es: seq<Entry>) {
    forall i, j :: 0 <= i < j < |es| ==> es[i].surface != es[j].surface
  }

  predicate Tracked(s: State, id: nat) {
    IndexOf(s.entries, id) < |s.entries|
  }

  function EntryOf(s: State, id: nat): Entry
    requires Tracked(s, id)
  {
    s.entries[IndexOf(s.entries, id)]
  }

  lemma IndexUnique(es: seq<Entry>, k: nat)
    requires Distinct(es) && k < |es|
    ensures IndexOf(es, es[k].surface) == k
  {
  }

  // The copy that the entry switches exists: the surface is in the tree of the entry's window.
  predicate Here(homes: map<nat, nat>, n: Entry) {
    n.surface in homes && homes[n.surface] == n.parent
  }

  // subpresent_set_scene_enabled
  function Switched(s: State, n: Entry, on: bool): set<nat> {
    if !Here(s.homes, n) then s.disabled else if on then s.disabled - {n.surface} else s.disabled + {n.surface}
  }

  // A present-window stands in for the copy of the surface.
  predicate Covered(s: State, id: nat) {
    Tracked(s, id) && EntryOf(s, id).present && Here(s.homes, EntryOf(s, id))
  }

  // One entry per surface, and no copy is switched off without a present-window in its place.
  predicate Sound(s: State) {
    Distinct(s.entries) && forall id :: id in s.disabled ==> Covered(s, id)
  }

  // The copy of a surface is switched off exactly when a present-window stands in for it.
  ghost predicate Inv(s: State) {
    Sound(s) && forall id :: Covered(s, id) ==> id in s.disabled
  }

  // ---- Placement ----

  // subpresent_compute_root and the size correction of subpresent_render_and_present.
  function Placed(e: Env, w: Win, surf: Surface, sx: int, sy: int): Box
    requires w.content.Some?
  {
    var inset := if !e.csd && w.geo.w > 0 && w.geo.h > 0 then (w.geo.x, w.geo.y) else (0, 0);
    var width, height := ScaleSize(e.scale, surf.w), ScaleSize(e.scale, surf.h);
    var native := (e.scale <= 0.0 || e.scale == 1.0) && surf.buffer.Some? && surf.buffer.value.0 > 0 && surf.buffer.value.1 > 0;
    Box(Int16(w.content.value.0 + ScaleSize(e.scale, sx - inset.0)),
        Int16(w.content.value.1 + ScaleSize(e.scale, sy - inset.1)),
        if native then surf.buffer.value.0 else if width < 1 then 1 else width,
        if native then surf.buffer.value.1 else if height < 1 then 1 else height)
  }

  // The present-window can be put where it belongs.
  predicate Placeable(e: Env, w: Win, entry: Entry) {
    w.content.Some? && (entry.present || e.createOk)
  }

  function Position(e: Env, w: Win, surf: Surface, entry: Entry): Entry {
    if Placeable(e, w, entry)
    then entry.(present := true, box := Placed(e, w, surf, entry.sx, entry.sy), valid := true)
    else entry
  }

  // subpresent_position_and_present for entry k.
  function Present(e: Env, s: State, w: Win, surf: Surface, k: nat): State
    requires k < |s.entries|
  {
    var entry := s.entries[k];
    if surf.mapped && surf.w > 0 && surf.h > 0 && Placeable(e, w, entry)
    then s.(entries := s.entries[k := Position(e, w, surf, entry)], disabled := Switched(s, entry, false))
    else s
  }

  // subpresent_get_or_create
  function Adopt(s: State, w: Win, surf: Surface): State {
    var k := IndexOf(s.entries, surf.id);
    if k < |s.entries|
    then s.(entries := s.entries[k := s.entries[k].(sx := surf.sx, sy := surf.sy, parent := w.id)])
    else s.(entries := [Entry(surf.id, w.id, surf.sx, surf.sy, false, Box(0, 0, 0, 0), false)] + s.entries)
  }

  // ---- The sync ----

  predicate Overflows(w: Win, surf: Surface) {
    && surf.id != w.root
    && surf.mapped
    && surf.w > 0 && surf.h > 0
    && (surf.sx < 0 || surf.sy < 0 || surf.sx + surf.w > w.rootW || surf.sy + surf.h > w.rootH)
  }

  // subpresent_sync_iterator
  function Touch(e: Env, s: State, w: Win, surf: Surface): State {
    if !Overflows(w, surf) then s
    else
      var a := Adopt(s, w, surf);
      AdoptTracks(s, w, surf);
      Present(e, a, w, surf, IndexOf(a.entries, surf.id))
  }

  lemma AdoptTracks(s: State, w: Win, surf: Surface)
    ensures Tracked(Adopt(s, w, surf), surf.id)
  {
    var a := Adopt(s, w, surf);
    var k := IndexOf(s.entries, surf.id);
    if k < |s.entries| {
      assert a.entries[k].surface == surf.id;
    } else {
      assert a.entries[0].surface == surf.id;
    }
  }

  function TouchAll(e: Env, s: State, w: Win, surfs: seq<Surface>): State
    decreases |surfs|
  {
    if surfs == [] then s else TouchAll(e, Touch(e, s, w, surfs[0]), w, surfs[1..])
  }

  // The surfaces the pass keeps.
  function Keep(w: Win, surfs: seq<Surface>): set<nat> {
    set i | 0 <= i < |surfs| && Overflows(w, surfs[i]) :: surfs[i].id
  }

  predicate Stays(w: Win, keep: set<nat>, entry: Entry) {
    entry.parent != w.id || entry.surface in keep
  }

  // The state the demotion loop goes on with behind the first entry.
  function Behind(s: State, w: Win, keep: set<nat>): State
    requires s.entries != []
  {
    var first := s.entries[0];
    s.(entries := s.entries[1..], disabled := if Stays(w, keep, first) then s.disabled else Switched(s, first, true))
  }

  // The demotion loop: what does not stay is destroyed, which switches its scene copy on again.
  function Sweep(s: State, w: Win, keep: set<nat>): (t: State)
    ensures t.homes == s.homes
    decreases |s.entries|
  {
    if s.entries == [] then s
    else
      var rest := Sweep(Behind(s, w, keep), w, keep);
      if Stays(w, keep, s.entries[0]) then rest.(entries := [s.entries[0]] + rest.entries) else rest
  }

  // wlx_window_sync_subpresents; the window is shown when it has a surface and an output.
  function Sync(e: Env, s: State, w: Win, shown: bool, surfs: seq<Surface>): State {
    if shown then Sweep(TouchAll(e, s, w, surfs), w, Keep(w, surfs)) else Sweep(s, w, {})
  }

  // The surface iteration visits each surface once.
  predicate Once(surfs: seq<Surface>) {
    forall i, j :: 0 <= i < j < |surfs| ==> surfs[i].id != surfs[j].id
  }

  // ---- The pass, surface by surface ----

  lemma AdoptKeeps(s: State, w: Win, surf: Surface)
    requires Distinct(s.entries)
    ensures var a := Adopt(s, w, surf);
            && Distinct(a.entries) && a.homes == s.homes && a.disabled == s.disabled
            && (forall id :: id != surf.id ==> (Tracked(a, id) <==> Tracked(s, id)))
            && (forall id :: id != surf.id && Tracked(s, id) ==> EntryOf(a, id) == EntryOf(s, id))
            && Tracked(a, surf.id)
            && var n := EntryOf(a, surf.id);
               && n.sx == surf.sx && n.sy == surf.sy && n.parent == w.id
               && (n.present <==> Tracked(s, surf.id) && EntryOf(s, surf.id).present)
  {
    var a := Adopt(s, w, surf);
    var k := IndexOf(s.entries, surf.id);
    AdoptTracks(s, w, surf);
    if k == |s.entries| {
      assert a.entries[1..] == s.entries;
    }
    assert Distinct(a.entries);
    forall id
      ensures id != surf.id ==> (Tracked(a, id) <==> Tracked(s, id))
      ensures id != surf.id && Tracked(s, id) ==> EntryOf(a, id) == EntryOf(s, id)
    {
      if id != surf.id && k < |s.entries| {
        UpdateKeepsIndex(s.entries, k, a.entries[k], id);
      }
    }
    IndexUnique(a.entries, if k < |s.entries| then k else 0);
  }

  lemma {:induction false} UpdateKeepsIndex(es: seq<Entry>, k: nat, n: Entry, id: nat)
    requires k < |es| && n.surface == es[k].surface
    ensures IndexOf(es[k := n], id) == IndexOf(es, id)
  {
    if es[0].surface != id && k > 0 {
      assert es[k := n][1..] == es[1..][k - 1 := n];
      UpdateKeepsIndex(es[1..], k - 1, n, id);
    } else if k == 0 {
      assert es[k := n][1..] == es[1..];
    }
  }

  lemma PresentKeeps(e: Env, s: State, w: Win, surf: Surface)
    requires Distinct(s.entries) && Tracked(s, surf.id)
    ensures var k := IndexOf(s.entries, surf.id);
            var p := Present(e, s, w, surf, k);
            var shown := surf.mapped && surf.w > 0 && surf.h > 0;
            && Distinct(p.entries)
            && (forall id :: Tracked(p, id) <==> Tracked(s, id))
            && (forall id :: id != surf.id && Tracked(s, id) ==> EntryOf(p, id) == EntryOf(s, id))
            && EntryOf(p, surf.id) == (if shown then Position(e, w, surf, EntryOf(s, surf.id)) else EntryOf(s, surf.id))
            && p.homes == s.homes
            && p.disabled == if shown && Placeable(e, w, EntryOf(s, surf.id))
                             then Switched(s, EntryOf(s, surf.id), false) else s.disabled
  {
    var k := IndexOf(s.entries, surf.id);
    var p := Present(e, s, w, surf, k);
    forall id
      ensures IndexOf(p.entries, id) == IndexOf(s.entries, id)
    {
      UpdateKeepsIndex(s.entries, k, p.entries[k], id);
      assert s.entries[k := s.entries[k]] == s.entries;
    }
    assert Distinct(p.entries);
  }

  // The entry of surf is what positioning makes of it: touching it again changes nothing.
  predicate Settled(e: Env, s: State, w: Win, surf: Surface) {
    && Tracked(s, surf.id)
    && var n := EntryOf(s, surf.id);
       && n.parent == w.id && n.sx == surf.sx && n.sy == surf.sy && n == Position(e, w, surf, n)
       && (Placeable(e, w, n) && Here(s.homes, n) ==> surf.id in s.disabled)
  }

  lemma TouchKeeps(e: Env, s: State, w: Win, surf: Surface)
    requires Distinct(s.entries)
    ensures var t := Touch(e, s, w, surf);
            && Distinct(t.entries)
            && t.homes == s.homes && s.disabled <= t.disabled <= s.disabled + {surf.id}
            && (forall id :: Tracked(t, id) <==> Tracked(s, id) || (Overflows(w, surf) && id == surf.id))
            && (forall id :: Tracked(s, id) && (id != surf.id || !Overflows(w, surf)) ==> EntryOf(t, id) == EntryOf(s, id))
            && (Overflows(w, surf) ==> Settled(e, t, w, surf))
  {
    if Overflows(w, surf) {
      AdoptKeeps(s, w, surf);
      PresentKeeps(e, Adopt(s, w, surf), w, surf);
    }
  }

  // After the iteration: every overflowing surface is settled, and nothing else has changed.
  ghost predicate AllSettled(e: Env, s: State, w: Win, surfs: seq<Surface>) {
    forall i :: 0 <= i < |surfs| && Overflows(w, surfs[i]) ==> Settled(e, s, w, surfs[i])
  }

  lemma {:induction false} TouchAllKeeps(e: Env, s: State, w: Win, surfs: seq<Surface>)
    requires Distinct(s.entries) && Once(surfs)
    ensures var t := TouchAll(e, s, w, surfs);
            && Distinct(t.entries) && AllSettled(e, t, w, surfs)
            && t.homes == s.homes && s.disabled <= t.disabled <= s.disabled + Keep(w, surfs)
            && (forall id :: Tracked(t, id) <==> Tracked(s, id) || id in Keep(w, surfs))
            && (forall id :: Tracked(s, id) && id !in Keep(w, surfs) ==> EntryOf(t, id) == EntryOf(s, id))
    decreases |surfs|
  {
    if surfs != [] {
      var a, rest := Touch(e, s, w, surfs[0]), surfs[1..];
      TouchKeeps(e, s, w, surfs[0]);
      assert Once(rest);
      TouchAllKeeps(e, a, w, rest);
      KeepStep(w, surfs);
      assert surfs[0].id !in Keep(w, rest);
      var t := TouchAll(e, s, w, surfs);
      forall i | 0 <= i < |surfs| && Overflows(w, surfs[i])
        ensures Settled(e, t, w, surfs[i])
      {
        if i > 0 {
          assert rest[i - 1] == surfs[i];
        }
      }
    }
  }

  lemma KeepStep(w: Win, surfs: seq<Surface>)
    requires surfs != []
    ensures Keep(w, surfs) == Keep(w, surfs[1..]) + if Overflows(w, surfs[0]) then {surfs[0].id} else {}
  {
    var rest := surfs[1..];
    forall id | id in Keep(w, surfs)
      ensures id in Keep(w, rest) || (Overflows(w, surfs[0]) && id == surfs[0].id)
    {
      var i :| 0 <= i < |surfs| && Overflows(w, surfs[i]) && surfs[i].id == id;
      if i > 0 {
        assert rest[i - 1] == surfs[i];
      }
    }
    forall id | id in Keep(w, rest)
      ensures id in Keep(w, surfs)
    {
      var i :| 0 <= i < |rest| && Overflows(w, rest[i]) && rest[i].id == id;
      assert surfs[i + 1] == rest[i];
    }
  }

  // What the loop makes of one surface: its entry survives, unchanged, exactly when it stays,
  // and the copy that a demoted entry had switched off is on again.
  ghost predicate SweptOne(s: State, t: State, w: Win, keep: set<nat>, id: nat) {
    var demoted := Tracked(s, id) && !Stays(w, keep, EntryOf(s, id));
    && t.homes == s.homes
    && (Tracked(t, id) <==> Tracked(s, id) && !demoted)
    && (Tracked(t, id) ==> EntryOf(t, id) == EntryOf(s, id))
    && (id in t.disabled <==> id in s.disabled && !(demoted && Here(s.homes, EntryOf(s, id))))
  }

  lemma {:induction false} SweepOne(s: State, w: Win, keep: set<nat>, id: nat)
    requires Distinct(s.entries)
    ensures SweptOne(s, Sweep(s, w, keep), w, keep, id)
    decreases |s.entries|
  {
    if s.entries != [] {
      var first, tail := s.entries[0], Behind(s, w, keep);
      SweepOne(tail, w, keep, id);
      assert s.entries == [first] + tail.entries;
      ConsIndex(first, tail.entries, id);
      ConsIndex(first, Sweep(tail, w, keep).entries, id);
      assert first.surface == id ==> IndexOf(tail.entries, id) == |tail.entries|;
    }
  }

  lemma {:induction false} SweepDistinct(s: State, w: Win, keep: set<nat>)
    requires Distinct(s.entries)
    ensures Distinct(Sweep(s, w, keep).entries)
    decreases |s.entries|
  {
    if s.entries != [] {
      var first, tail := s.entries[0], Behind(s, w, keep);
      SweepDistinct(tail, w, keep);
      SweepOne(tail, w, keep, first.surface);
      assert IndexOf(tail.entries, first.surface) == |tail.entries|;
      if Stays(w, keep, first) {
        ConsDistinct(first, Sweep(tail, w, keep).entries);
      }
    }
  }

  lemma SweepKeeps(s: State, w: Win, keep: set<nat>)
    requires Distinct(s.entries)
    ensures var t := Sweep(s, w, keep);
            && Distinct(t.entries) && t.homes == s.homes
            && (forall id :: Tracked(t, id) <==> Tracked(s, id) && Stays(w, keep, EntryOf(s, id)))
            && (forall id :: Tracked(t, id) ==> EntryOf(t, id) == EntryOf(s, id))
            && (forall id :: id in t.disabled <==>
                  && id in s.disabled
                  && !(Tracked(s, id) && !Stays(w, keep, EntryOf(s, id)) && Here(s.homes, EntryOf(s, id))))
  {
    SweepDistinct(s, w, keep);
    SweepOne(s, w, keep, 0);
    var t := Sweep(s, w, keep);
    forall id
      ensures Tracked(t, id) <==> Tracked(s, id) && Stays(w, keep, EntryOf(s, id))
      ensures Tracked(t, id) ==> EntryOf(t, id) == EntryOf(s, id)
      ensures id in t.disabled <==>
                && id in s.disabled
                && !(Tracked(s, id) && !Stays(w, keep, EntryOf(s, id)) && Here(s.homes, EntryOf(s, id)))
    {
      SweepOne(s, w, keep, id);
    }
  }

  lemma ConsIndex(first: Entry, rest: seq<Entry>, id: nat)
    ensures IndexOf([first] + rest, id) == if first.surface == id then 0 else 1 + IndexOf(rest, id)
  {
    assert ([first] + rest)[1..] == rest;
  }

  lemma ConsDistinct(first: Entry, rest: seq<Entry>)
    requires Distinct(rest) && IndexOf(rest, first.surface) == |rest|
    ensures Distinct([first] + rest)
  {
  }

  lemma SweepKeepsSound(s: State, w: Win, keep: set<nat>)
    requires Sound(s)
    ensures Sound(Sweep(s, w, keep))
    ensures Inv(s) ==> Inv(Sweep(s, w, keep))
  {
    SweepKeeps(s, w, keep);
  }

  // ---- Theorems ----

  // After a sync the promoted surfaces of a shown window are exactly its mapped, non-empty,
  // overflowing subsurfaces, each with one entry at its current offset; an unshown window has
  // none. Entries of other windows are untouched.
  lemma PromotesExactly(e: Env, s: State, w: Win, shown: bool, surfs: seq<Surface>)
    requires Distinct(s.entries) && Once(surfs)
    ensures var t := Sync(e, s, w, shown, surfs);
            && Distinct(t.entries)
            && (forall id :: Tracked(t, id) && EntryOf(t, id).parent == w.id <==>
                  shown && exists i :: 0 <= i < |surfs| && surfs[i].id == id && Overflows(w, surfs[i]))
            && (shown ==> AllSettled(e, t, w, surfs))
            && (forall id :: Tracked(s, id) && EntryOf(s, id).parent != w.id && (shown ==> id !in Keep(w, surfs)) ==>
                  Tracked(t, id) && EntryOf(t, id) == EntryOf(s, id))
  {
    if shown {
      var m := TouchAll(e, s, w, surfs);
      TouchAllKeeps(e, s, w, surfs);
      SweepKeeps(m, w, Keep(w, surfs));
      var t := Sync(e, s, w, shown, surfs);
      forall id | id in Keep(w, surfs)
        ensures Tracked(t, id) && EntryOf(t, id).parent == w.id
      {
        var i :| 0 <= i < |surfs| && Overflows(w, surfs[i]) && surfs[i].id == id;
        assert Settled(e, m, w, surfs[i]);
      }
    } else {
      SweepKeeps(s, w, {});
    }
  }

  // ---- Scene copies ----

  // The surfaces the pass visits are in the tree of its window.
  predicate AtHome(s: State, w: Win, surfs: seq<Surface>) {
    forall i :: 0 <= i < |surfs| && surfs[i].id != w.root ==> surfs[i].id in s.homes && s.homes[surfs[i].id] == w.id
  }

  lemma TouchKeepsSound(e: Env, s: State, w: Win, surf: Surface)
    requires Sound(s) && AtHome(s, w, [surf])
    ensures Sound(Touch(e, s, w, surf))
  {
    hide Adopt, Present, IndexOf;
    if Overflows(w, surf) {
      assert [surf][0] == surf;
      AdoptKeeps(s, w, surf);
      PresentKeeps(e, Adopt(s, w, surf), w, surf);
      TouchKeeps(e, s, w, surf);
    }
  }

  lemma {:induction false} TouchAllKeepsSound(e: Env, s: State, w: Win, surfs: seq<Surface>)
    requires Sound(s) && AtHome(s, w, surfs)
    ensures Sound(TouchAll(e, s, w, surfs))
    decreases |surfs|
  {
    if surfs != [] {
      assert AtHome(s, w, [surfs[0]]);
      TouchKeepsSound(e, s, w, surfs[0]);
      TouchKeeps(e, s, w, surfs[0]);
      TouchAllKeepsSound(e, Touch(e, s, w, surfs[0]), w, surfs[1..]);
    }
  }

  // In the scene of window id every copy is off exactly when a present-window stands in for it.
  predicate InStep(s: State, id: nat) {
    forall n :: n in s.homes && s.homes[n] == id ==> (n in s.disabled <==> Covered(s, n))
  }

  // The pass finds the surface promoted, but its copy is on.
  predicate Exposed(s: State, w: Win, surf: Surface) {
    Overflows(w, surf) && Tracked(s, surf.id) && EntryOf(s, surf.id).present && surf.id !in s.disabled
  }

  // What the iteration makes of a kept surface: its copy ends up off unless it is not promoted,
  // or the window's position cannot be asked and the copy was on.
  lemma {:induction false} KeptCopy(e: Env, s: State, w: Win, surfs: seq<Surface>, i: nat)
    requires Sound(s) && Once(surfs) && AtHome(s, w, surfs) && i < |surfs| && Overflows(w, surfs[i])
    ensures var t, id := TouchAll(e, s, w, surfs), surfs[i].id;
            && t.homes == s.homes && Tracked(t, id) && EntryOf(t, id).parent == w.id
            && (EntryOf(t, id).present <==>
                  (Tracked(s, id) && EntryOf(s, id).present) || (w.content.Some? && e.createOk))
            && (id in t.disabled <==> EntryOf(t, id).present && (w.content.Some? || id in s.disabled))
    decreases |surfs|
  {
    var a, rest := Touch(e, s, w, surfs[0]), surfs[1..];
    assert AtHome(s, w, [surfs[0]]);
    TouchKeeps(e, s, w, surfs[0]);
    TouchKeepsSound(e, s, w, surfs[0]);
    assert Once(rest);
    if i > 0 {
      assert rest[i - 1] == surfs[i];
      KeptCopy(e, a, w, rest, i - 1);
    } else {
      TouchAllKeeps(e, a, w, rest);
      assert surfs[0].id !in Keep(w, rest);
      TouchedCopy(e, s, w, surfs[0]);
    }
  }

  lemma TouchedCopy(e: Env, s: State, w: Win, surf: Surface)
    requires Sound(s) && AtHome(s, w, [surf]) && Overflows(w, surf)
    ensures var t, id := Touch(e, s, w, surf), surf.id;
            && Tracked(t, id) && EntryOf(t, id).parent == w.id
            && (EntryOf(t, id).present <==>
                  (Tracked(s, id) && EntryOf(s, id).present) || (w.content.Some? && e.createOk))
            && (id in t.disabled <==> EntryOf(t, id).present && (w.content.Some? || id in s.disabled))
  {
    hide Adopt, Present, IndexOf;
    assert [surf][0] == surf;
    AdoptKeeps(s, w, surf);
    PresentKeeps(e, Adopt(s, w, surf), w, surf);
  }

  // A sync puts every copy of its window right, whatever was wrong before, exactly unless the
  // window's position cannot be asked and some promoted surface had its copy on.
  lemma SyncRestoresExactly(e: Env, s: State, w: Win, shown: bool, surfs: seq<Surface>)
    requires Sound(s) && Once(surfs) && (shown ==> AtHome(s, w, surfs))
    ensures var t := Sync(e, s, w, shown, surfs);
            && Sound(t)
            && (InStep(t, w.id) <==>
                  !shown || w.content.Some? || forall i :: 0 <= i < |surfs| ==> !Exposed(s, w, surfs[i]))
  {
    hide IndexOf;
    var t := Sync(e, s, w, shown, surfs);
    if shown {
      var m, keep := TouchAll(e, s, w, surfs), Keep(w, surfs);
      TouchAllKeepsSound(e, s, w, surfs);
      TouchAllKeeps(e, s, w, surfs);
      SweepKeeps(m, w, keep);
      SweepKeepsSound(m, w, keep);
      forall i | 0 <= i < |surfs| && Overflows(w, surfs[i])
        ensures surfs[i].id in t.homes && t.homes[surfs[i].id] == w.id
        ensures (surfs[i].id in t.disabled <==> Covered(t, surfs[i].id)) <==>
                  w.content.Some? || !Exposed(s, w, surfs[i])
      {
        KeptCopy(e, s, w, surfs, i);
        assert surfs[i].id in keep;
      }
      forall n | n in t.homes && t.homes[n] == w.id && n !in keep
        ensures n in t.disabled <==> Covered(t, n)
      {
      }
      forall n | n in keep
        ensures exists i :: 0 <= i < |surfs| && Overflows(w, surfs[i]) && surfs[i].id == n
      {
      }
    } else {
      SweepKeeps(s, w, {});
      SweepKeepsSound(s, w, {});
    }
  }

  // A sync leaves the copies of the other windows as right as they were.
  lemma SyncSparesOthers(e: Env, s: State, w: Win, shown: bool, surfs: seq<Surface>, other: nat)
    requires Sound(s) && Once(surfs) && (shown ==> AtHome(s, w, surfs)) && other != w.id
    ensures InStep(Sync(e, s, w, shown, surfs), other) <==> InStep(s, other)
  {
    hide IndexOf;
    var m := if shown then TouchAll(e, s, w, surfs) else s;
    var keep := if shown then Keep(w, surfs) else {};
    if shown {
      TouchAllKeeps(e, s, w, surfs);
    }
    SweepKeeps(m, w, keep);
    var t := Sync(e, s, w, shown, surfs);
    forall n | n in s.homes && s.homes[n] == other
      ensures (n in t.disabled <==> n in s.disabled) && (Covered(t, n) <==> Covered(s, n))
    {
      assert n !in keep;
    }
  }

  lemma SettledStays(e: Env, s: State, w: Win, surf: Surface)
    requires Distinct(s.entries) && Settled(e, s, w, surf) && Overflows(w, surf)
    ensures Touch(e, s, w, surf) == s
  {
    var k := IndexOf(s.entries, surf.id);
    var n := s.entries[k];
    assert s.entries[k := n] == s.entries;
    assert Adopt(s, w, surf) == s;
    if Placeable(e, w, n) {
      assert Switched(s, n, false) == s.disabled;
    }
  }

  lemma {:induction false} AllSettledStays(e: Env, s: State, w: Win, surfs: seq<Surface>)
    requires Distinct(s.entries) && AllSettled(e, s, w, surfs)
    ensures TouchAll(e, s, w, surfs) == s
  {
    if surfs != [] {
      if Overflows(w, surfs[0]) {
        SettledStays(e, s, w, surfs[0]);
      }
      assert AllSettled(e, s, w, surfs[1..]);
      AllSettledStays(e, s, w, surfs[1..]);
    }
  }

  lemma {:induction false} NothingToSweep(s: State, w: Win, keep: set<nat>)
    requires forall j :: 0 <= j < |s.entries| ==> Stays(w, keep, s.entries[j])
    ensures Sweep(s, w, keep) == s
    decreases |s.entries|
  {
    if s.entries != [] {
      NothingToSweep(Behind(s, w, keep), w, keep);
    }
  }

  // A second sync in the same circumstances changes nothing.
  lemma SecondSyncChangesNothing(e: Env, s: State, w: Win, shown: bool, surfs: seq<Surface>)
    requires Distinct(s.entries) && Once(surfs)
    ensures var t := Sync(e, s, w, shown, surfs);
            Sync(e, t, w, shown, surfs) == t
  {
    var t := Sync(e, s, w, shown, surfs);
    PromotesExactly(e, s, w, shown, surfs);
    if shown {
      AllSettledStays(e, t, w, surfs);
    }
    var keep := if shown then Keep(w, surfs) else {};
    forall j | 0 <= j < |t.entries|
      ensures Stays(w, keep, t.entries[j])
    {
      IndexUnique(t.entries, j);
      assert Tracked(t, t.entries[j].surface);
    }
    NothingToSweep(t, w, keep);
  }

  // ---- Whole runs ----

  // subpresent_destroy for entry k.
  function Destroyed(s: State, k: nat): State
    requires k < |s.entries|
  {
    s.(entries := s.entries[..k] + s.entries[k + 1..], disabled := Switched(s, s.entries[k], true))
  }

  // The present-window of entry k is destroyed under it.
  function PresentLost(s: State, k: nat): State
    requires k < |s.entries|
  {
    s.(entries := s.entries[k := s.entries[k].(present := false)], disabled := Switched(s, s.entries[k], true))
  }

  // The surface leaves its tree: the scene destroys the copy.
  function Left(s: State, id: nat): State {
    s.(homes := s.homes - {id}, disabled := s.disabled - {id})
  }

  // The scene's own commit listener comes first and switches the copy on.
  function CommitIn(e: Env, s: State, w: Win, surf: Surface): State {
    var c := s.(disabled := s.disabled - {surf.id});
    if Tracked(c, surf.id) then Present(e, c, w, surf, IndexOf(c.entries, surf.id)) else c
  }

  datatype Event =
    | EvEntered(id: nat, window: nat)
    | EvLeft(id: nat)
    | EvSynced(e: Env, win: Win, shown: bool, surfs: seq<Surface>)
    | EvCommitted(e: Env, win: Win, surf: Surface)
    | EvLost(id: nat)
    | EvSurfaceGone(id: nat)
    | EvWindowGone(win: Win)

  // A surface enters a tree only when it is in none; a pass visits the tree of its window; and
  // a commit is seen with the window that the entry names.
  predicate Enabled(s: State, ev: Event) {
    match ev
    case EvEntered(id, _) => id !in s.homes
    case EvLeft(id) => id in s.homes
    case EvSynced(_, win, shown, surfs) => Once(surfs) && (shown ==> AtHome(s, win, surfs))
    case EvCommitted(_, win, surf) => Tracked(s, surf.id) ==> EntryOf(s, surf.id).parent == win.id
    case _ => true
  }

  function Step(s: State, ev: Event): State {
    match ev
    case EvEntered(id, window) => s.(homes := s.homes[id := window])
    case EvLeft(id) => Left(s, id)
    case EvSynced(e, win, shown, surfs) => Sync(e, s, win, shown, surfs)
    case EvCommitted(e, win, surf) => CommitIn(e, s, win, surf)
    case EvLost(id) => if Tracked(s, id) then PresentLost(s, IndexOf(s.entries, id)) else s
    case EvSurfaceGone(id) => Left(if Tracked(s, id) then Destroyed(s, IndexOf(s.entries, id)) else s, id)
    case EvWindowGone(win) => Sweep(s, win, {})
  }

  function Run(evs: seq<Event>): State {
    if evs == [] then State([], map[], {}) else Step(Run(evs[..|evs| - 1]), evs[|evs| - 1])
  }

  // ---- What each event does to the copies ----

  lemma LostTracks(s: State, k: nat)
    requires Distinct(s.entries) && k < |s.entries|
    ensures var t := PresentLost(s, k);
            && Distinct(t.entries)
            && (forall id :: Tracked(t, id) <==> Tracked(s, id))
            && (forall id :: Tracked(s, id) && id != s.entries[k].surface ==> EntryOf(t, id) == EntryOf(s, id))
            && Tracked(s, s.entries[k].surface) && EntryOf(s, s.entries[k].surface) == s.entries[k]
            && !EntryOf(t, s.entries[k].surface).present
  {
    var t := PresentLost(s, k);
    IndexUnique(s.entries, k);
    forall id
      ensures IndexOf(t.entries, id) == IndexOf(s.entries, id)
    {
      UpdateKeepsIndex(s.entries, k, t.entries[k], id);
    }
  }

  lemma LostKeeps(s: State, k: nat)
    requires Sound(s) && k < |s.entries|
    ensures Sound(PresentLost(s, k)) && (Inv(s) ==> Inv(PresentLost(s, k)))
  {
    hide PresentLost, IndexOf;
    LostTracks(s, k);
    LostScene(s, k);
  }

  lemma LostScene(s: State, k: nat)
    requires k < |s.entries|
    ensures PresentLost(s, k).homes == s.homes && PresentLost(s, k).disabled == Switched(s, s.entries[k], true)
  {
  }

  lemma DestroyedTracks(s: State, k: nat)
    requires Distinct(s.entries) && k < |s.entries|
    ensures var t := Destroyed(s, k);
            && Distinct(t.entries)
            && Tracked(s, s.entries[k].surface) && EntryOf(s, s.entries[k].surface) == s.entries[k]
            && (forall id :: Tracked(t, id) <==> Tracked(s, id) && id != s.entries[k].surface)
            && (forall id :: Tracked(t, id) ==> EntryOf(t, id) == EntryOf(s, id))
  {
    hide IndexOf, Distinct, Switched;
    var t := Destroyed(s, k);
    IndexUnique(s.entries, k);
    CutDistinct(s.entries, k);
    forall id
      ensures Tracked(t, id) <==> Tracked(s, id) && id != s.entries[k].surface
      ensures Tracked(t, id) ==> EntryOf(t, id) == EntryOf(s, id)
    {
      var i := IndexOf(s.entries, id);
      if i < |s.entries| && i != k {
        IndexUnique(t.entries, if i < k then i else i - 1);
      }
      var m := IndexOf(t.entries, id);
      if m < |t.entries| {
        IndexUnique(s.entries, if m < k then m else m + 1);
      }
    }
  }

  lemma CutDistinct(es: seq<Entry>, k: nat)
    requires Distinct(es) && k < |es|
    ensures Distinct(es[..k] + es[k + 1..])
  {
    hide IndexOf;
    var fs := es[..k] + es[k + 1..];
    assert forall j :: 0 <= j < |fs| ==> fs[j] == es[if j < k then j else j + 1];
  }

  lemma DestroyedScene(s: State, k: nat)
    requires k < |s.entries|
    ensures Destroyed(s, k).homes == s.homes && Destroyed(s, k).disabled == Switched(s, s.entries[k], true)
  {
  }

  lemma DestroyedKeeps(s: State, k: nat)
    requires Sound(s) && k < |s.entries|
    ensures Sound(Destroyed(s, k)) && (Inv(s) ==> Inv(Destroyed(s, k)))
  {
    hide Destroyed, IndexOf;
    DestroyedTracks(s, k);
    DestroyedScene(s, k);
  }

  lemma LeftKeeps(s: State, id: nat)
    requires Sound(s)
    ensures Sound(Left(s, id)) && (Inv(s) ==> Inv(Left(s, id)))
  {
    hide IndexOf;
  }

  // A commit of the surface puts its copy right exactly unless it is promoted here and the
  // surface is not mapped, is empty, or cannot be placed: then the copy is on beside it.
  lemma CommitExactly(e: Env, s: State, w: Win, surf: Surface)
    requires Sound(s) && (Tracked(s, surf.id) ==> EntryOf(s, surf.id).parent == w.id)
    ensures var t := CommitIn(e, s, w, surf);
            && Sound(t)
            && ((Covered(t, surf.id) ==> surf.id in t.disabled) <==>
                  !Covered(s, surf.id) || (surf.mapped && surf.w > 0 && surf.h > 0 && w.content.Some?))
            && (forall id :: id != surf.id ==>
                  (id in t.disabled <==> id in s.disabled) && (Covered(t, id) <==> Covered(s, id)))
  {
    hide Present, IndexOf;
    var c := s.(disabled := s.disabled - {surf.id});
    if Tracked(c, surf.id) {
      PresentKeeps(e, c, w, surf);
    }
  }

  // The event leaves a copy on beside the present-window that stands in for it.
  predicate Exposes(s: State, ev: Event) {
    match ev
    case EvEntered(id, window) => Tracked(s, id) && EntryOf(s, id).present && EntryOf(s, id).parent == window
    case EvSynced(_, win, shown, surfs) =>
      shown && win.content == None && exists i :: 0 <= i < |surfs| && Exposed(s, win, surfs[i])
    case EvCommitted(_, win, surf) =>
      Covered(s, surf.id) && !(surf.mapped && surf.w > 0 && surf.h > 0 && win.content.Some?)
    case _ => false
  }

  lemma InvIsInStep(s: State)
    ensures Inv(s) <==> Sound(s) && forall w :: InStep(s, w)
  {
    hide IndexOf;
    if Sound(s) && forall w :: InStep(s, w) {
      forall id | Covered(s, id)
        ensures id in s.disabled
      {
        assert InStep(s, s.homes[id]);
      }
    }
  }

  lemma SyncKeepsExactly(e: Env, s: State, w: Win, shown: bool, surfs: seq<Surface>)
    requires Inv(s) && Once(surfs) && (shown ==> AtHome(s, w, surfs))
    ensures Inv(Sync(e, s, w, shown, surfs)) <==> !Exposes(s, EvSynced(e, w, shown, surfs))
  {
    hide InStep, Sync, Covered, IndexOf, Exposed;
    var t := Sync(e, s, w, shown, surfs);
    SyncRestoresExactly(e, s, w, shown, surfs);
    InvIsInStep(s);
    InvIsInStep(t);
    forall o | o != w.id
      ensures InStep(t, o)
    {
      SyncSparesOthers(e, s, w, shown, surfs, o);
    }
    assert Inv(t) <==> InStep(t, w.id);
  }

  lemma EnterExactly(s: State, id: nat, window: nat)
    requires Sound(s) && id !in s.homes
    ensures var t := s.(homes := s.homes[id := window]);
            Sound(t) && (Inv(s) ==> (Inv(t) <==> !Exposes(s, EvEntered(id, window))))
  {
    hide IndexOf;
    var t := s.(homes := s.homes[id := window]);
    if Exposes(s, EvEntered(id, window)) {
      assert Covered(t, id) && id !in t.disabled;
    }
  }

  // From a state in which every copy agrees with its present-window, exactly the exposing events
  // lead out.
  lemma StepKeepsExactly(s: State, ev: Event)
    requires Inv(s) && Enabled(s, ev)
    ensures Inv(Step(s, ev)) <==> !Exposes(s, ev)
  {
    hide Sync, CommitIn, Destroyed, PresentLost, Sweep, Left, IndexOf, Exposed, Once, AtHome;
    match ev
    case EvEntered(id, window) => EnterExactly(s, id, window);
    case EvLeft(id) => LeftKeeps(s, id);
    case EvSynced(e, win, shown, surfs) => SyncKeepsExactly(e, s, win, shown, surfs);
    case EvCommitted(e, win, surf) => CommitExactly(e, s, win, surf);
    case EvLost(id) =>
      if Tracked(s, id) {
        LostKeeps(s, IndexOf(s.entries, id));
      }
    case EvSurfaceGone(id) =>
      if Tracked(s, id) {
        DestroyedKeeps(s, IndexOf(s.entries, id));
        LeftKeeps(Destroyed(s, IndexOf(s.entries, id)), id);
      } else {
        LeftKeeps(s, id);
      }
    case EvWindowGone(win) => SweepKeepsSound(s, win, {});
  }

  lemma StepKeepsSound(s: State, ev: Event)
    requires Sound(s) && Enabled(s, ev)
    ensures Sound(Step(s, ev))
  {
    hide Sync, CommitIn, Destroyed, PresentLost, Sweep, Left, IndexOf, Exposed, Covered;
    match ev
    case EvEntered(id, window) => EnterExactly(s, id, window);
    case EvLeft(id) => LeftKeeps(s, id);
    case EvSynced(e, win, shown, surfs) => SyncRestoresExactly(e, s, win, shown, surfs);
    case EvCommitted(e, win, surf) => CommitExactly(e, s, win, surf);
    case EvLost(id) =>
      if Tracked(s, id) {
        LostKeeps(s, IndexOf(s.entries, id));
      }
    case EvSurfaceGone(id) =>
      if Tracked(s, id) {
        DestroyedKeeps(s, IndexOf(s.entries, id));
        LeftKeeps(Destroyed(s, IndexOf(s.entries, id)), id);
      } else {
        LeftKeeps(s, id);
      }
    case EvWindowGone(win) => SweepKeepsSound(s, win, {});
  }

  // ---- Runs ----

  ghost predicate Possible(evs: seq<Event>) {
    forall i :: 0 <= i < |evs| ==> Enabled(Run(evs[..i]), evs[i])
  }

  lemma PossibleInit(evs: seq<Event>)
    requires evs != [] && Possible(evs)
    ensures Possible(evs[..|evs| - 1]) && Enabled(Run(evs[..|evs| - 1]), evs[|evs| - 1])
  {
    hide Run, Enabled;
    var p := evs[..|evs| - 1];
    forall i | 0 <= i < |p|
      ensures Enabled(Run(p[..i]), p[i])
    {
      assert p[..i] == evs[..i];
    }
  }

  // In every run each surface has at most one entry, and no surface is lost to both: a copy that
  // is off always has a present-window in its place.
  lemma {:induction false} RunsKeepSound(evs: seq<Event>)
    requires Possible(evs)
    ensures Sound(Run(evs))
  {
    hide Sound, Enabled, Step;
    if evs != [] {
      PossibleInit(evs);
      RunsKeepSound(evs[..|evs| - 1]);
      StepKeepsSound(Run(evs[..|evs| - 1]), evs[|evs| - 1]);
    } else {
      NothingIsInvariant();
    }
  }

  lemma NothingIsInvariant()
    ensures Sound(State([], map[], {})) && Inv(State([], map[], {}))
  {
  }

  // In every run whose events expose nothing, a copy is off exactly when the surface is tracked
  // in that scene with a present-window.
  lemma {:induction false} RunsKeepInv(evs: seq<Event>)
    requires Possible(evs)
    requires forall i :: 0 <= i < |evs| ==> !Exposes(Run(evs[..i]), evs[i])
    ensures Inv(Run(evs))
  {
    hide Inv, Enabled, Step, Exposes;
    if evs != [] {
      var p := evs[..|evs| - 1];
      PossibleInit(evs);
      assert forall i :: 0 <= i < |p| ==> p[..i] == evs[..i];
      RunsKeepInv(p);
      StepKeepsExactly(Run(p), evs[|evs| - 1]);
    } else {
      NothingIsInvariant();
    }
  }

  // Whatever a run has exposed, the next sync of a window whose position can be asked puts every
  // copy in its scene right.
  lemma SyncRestoresAfterAnyRun(evs: seq<Event>, ev: Event)
    requires Possible(evs) && Enabled(Run(evs), ev)
    requires ev.EvSynced? && (ev.shown ==> ev.win.content.Some?)
    ensures InStep(Step(Run(evs), ev), ev.win.id)
  {
    hide Sync, InStep, Sound, IndexOf, Run;
    RunsKeepSound(evs);
    SyncRestoresExactly(ev.e, Run(evs), ev.win, ev.shown, ev.surfs);
  }

  // ---- A commit that unmaps a promoted surface ----

  const HOST: Env := Env(0.0, true, true)
  const WINDOW: Win := Win(1, 3, 100, 100, Some((0, 0)), Box(0, 0, 0, 0))
  const MENU: Surface := Surface(5, -10, 0, 20, 20, true, None)
  const PROMOTED: seq<Event> := [EvEntered(5, 1)] + [EvSynced(HOST, WINDOW, true, [MENU])]

  lemma RunOne(evs: seq<Event>, ev: Event)
    requires Possible(evs) && Enabled(Run(evs), ev)
    ensures Possible(evs + [ev]) && Run(evs + [ev]) == Step(Run(evs), ev)
  {
    hide Enabled, Step;
    var fs := evs + [ev];
    assert fs[..|fs| - 1] == evs;
    forall i | 0 <= i < |fs|
      ensures Enabled(Run(fs[..i]), fs[i])
    {
      assert fs[..i] == evs[..i];
      assert evs[..|evs|] == evs;
    }
  }

  // The menu is promoted and its copy is off; the commit that unmaps it leaves the copy on beside
  // the present-window.
  lemma UnmapExposesWitness()
    ensures Possible(PROMOTED) && Inv(Run(PROMOTED)) && Covered(Run(PROMOTED), 5)
    ensures var ev := EvCommitted(HOST, WINDOW, MENU.(mapped := false));
            && Enabled(Run(PROMOTED), ev) && !Inv(Step(Run(PROMOTED), ev))
  {
    hide Sync, CommitIn, Covered, Inv, IndexOf;
    var none := State([], map[], {});
    NothingIsInvariant();
    assert Run([]) == none;
    RunOne([], EvEntered(5, 1));
    assert [] + [EvEntered(5, 1)] == [EvEntered(5, 1)];
    var s := Run([EvEntered(5, 1)]);
    NothingTracked(map[5 := 1]);
    assert AtHome(s, WINDOW, [MENU]) && Once([MENU]);
    var sync := EvSynced(HOST, WINDOW, true, [MENU]);
    RunOne([EvEntered(5, 1)], sync);
    SyncKeepsExactly(HOST, s, WINDOW, true, [MENU]);
    MenuIsCovered(s);
    var t := Run(PROMOTED);
    CommittedWindow(t);
    StepKeepsExactly(t, EvCommitted(HOST, WINDOW, MENU.(mapped := false)));
  }

  lemma NothingTracked(homes: map<nat, nat>)
    ensures Inv(State([], homes, {}))
  {
  }

  lemma MenuIsCovered(s: State)
    requires s == State([], map[5 := 1], {})
    ensures Covered(Sync(HOST, s, WINDOW, true, [MENU]), 5)
  {
    NothingTracked(map[5 := 1]);
    assert Once([MENU]) && AtHome(s, WINDOW, [MENU]) && Overflows(WINDOW, [MENU][0]);
    KeptCopy(HOST, s, WINDOW, [MENU], 0);
    SweepKeeps(TouchAll(HOST, s, WINDOW, [MENU]), WINDOW, Keep(WINDOW, [MENU]));
    assert [MENU][0].id in Keep(WINDOW, [MENU]);
  }

  lemma CommittedWindow(t: State)
    requires Covered(t, 5) && t == Sync(HOST, State([], map[5 := 1], {}), WINDOW, true, [MENU])
    ensures EntryOf(t, 5).parent == WINDOW.id
  {
    PromotesExactly(HOST, State([], map[5 := 1], {}), WINDOW, true, [MENU]);
    assert Overflows(WINDOW, [MENU][0]) && [MENU][0].id == 5;
  }
}

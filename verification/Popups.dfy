// Popup placement: each popup caches its box on the root window, computed from the cache of
// the popup it hangs on, or from the toplevel's content window.
// src/xdg.c, popup_compute_root_placement and wlx_reposition_popups_for_window.

module Popups {
  import opened Base
  import opened Scale

  datatype Box = Box(x: int, y: int, w: int, h: int)

  // A toplevel: where its content window is on the root, if that can be asked, and its window
  // geometry.
  datatype Window = Window(content: Option<(int, int)>, geo: Box)

  // One popup. current and scheduled are its xdg geometries, surfW and surfH its surface size.
  datatype Popup = Popup(
    id: nat,
    parent: Option<nat>,     // the popup it hangs on; None for a child of the toplevel
    win: nat,                // its toplevel
    mapped: bool,
    current: Box,
    scheduled: Box,
    surfW: int,
    surfH: int,
    present: Option<Box>,    // the present-window, with its geometry
    box: Box,                // root_x, root_y, root_w, root_h
    valid: bool)             // root_box_valid

  datatype Env = Env(scale: real, csd: bool, windows: map<nat, Window>)

  lemma Int16Absorbs(x: int, d: int)
    ensures Int16(Int16(x) + d) == Int16(x + d)
  {
    var q := (x + 0x8000) / 0x10000;
    var a, b := Int16(x) + d + 0x8000, x + d + 0x8000;
    assert a == b - q * 0x10000;
    ModShift(b, q);
  }

  lemma ModShift(b: int, q: int)
    ensures (b - q * 0x10000) % 0x10000 == b % 0x10000
  {
    var c := b - q * 0x10000;
    var r, s := b % 0x10000, c % 0x10000;
    assert b / 0x10000 * 0x10000 + r == c / 0x10000 * 0x10000 + s + q * 0x10000;
    var t := b / 0x10000 - c / 0x10000 - q;
    assert t * 0x10000 == s - r;
  }

  // ---- Placement of one popup ----

  // The position: current geometry, or the scheduled one while the current one is at the origin.
  function Offset(p: Popup): (int, int) {
    if p.current.x == 0 && p.current.y == 0 && (p.scheduled.x != 0 || p.scheduled.y != 0)
    then (p.scheduled.x, p.scheduled.y)
    else (p.current.x, p.current.y)
  }

  function Width(p: Popup): int {
    if p.surfW > 0 then p.surfW else if p.current.w > 0 then p.current.w else p.scheduled.w
  }

  function Height(p: Popup): int {
    if p.surfH > 0 then p.surfH else if p.current.h > 0 then p.current.h else p.scheduled.h
  }

  predicate Sized(p: Popup) {
    Width(p) > 0 && Height(p) > 0
  }

  // Without client decorations the content window shows the geometry part of the surface.
  function Inset(e: Env, win: nat): (int, int)
    requires win in e.windows
  {
    var g := e.windows[win].geo;
    if !e.csd && g.w > 0 && g.h > 0 then (g.x, g.y) else (0, 0)
  }

  // What the popup adds to the position of what it hangs on.
  function Shift(e: Env, p: Popup): (int, int)
    requires p.win in e.windows
  {
    var o := Offset(p);
    var i := if p.parent == None then Inset(e, p.win) else (0, 0);
    (ScaleSize(e.scale, o.0 - i.0), ScaleSize(e.scale, o.1 - i.1))
  }

  function ScaledSize(e: Env, p: Popup): (int, int) {
    var w, h := ScaleSize(e.scale, Width(p)), ScaleSize(e.scale, Height(p));
    (if w > 0 then w else 1, if h > 0 then h else 1)
  }

  function PlacedAt(e: Env, p: Popup, ox: int, oy: int): Box
    requires p.win in e.windows
  {
    var s, z := Shift(e, p), ScaledSize(e, p);
    Box(Int16(ox + s.0), Int16(oy + s.1), z.0, z.1)
  }

  // popup_update_root_box: from the present-window, or as if it hung on the toplevel.
  function Refreshed(e: Env, p: Popup): Popup
    requires p.win in e.windows
  {
    if p.present.Some? then
      p.(box := p.present.value, valid := p.present.value.w > 0 && p.present.value.h > 0)
    else if e.windows[p.win].content == None then p.(valid := false)
    else
      var g := if p.current.w <= 0 || p.current.h <= 0 then p.scheduled else p.current;
      var o := e.windows[p.win].content.value;
      var i := Inset(e, p.win);
      var w := ScaleSize(e.scale, if g.w > 0 then g.w else p.surfW);
      var h := ScaleSize(e.scale, if g.h > 0 then g.h else p.surfH);
      if w <= 0 || h <= 0 then p.(valid := false)
      else p.(box := Box(Int16(o.0 + ScaleSize(e.scale, g.x - i.0)), Int16(o.1 + ScaleSize(e.scale, g.y - i.1)), w, h),
              valid := true)
  }

  // ---- The list: newest first ----

  // Where the popup named id is, or the length of the list.
  function IndexOf(ps: seq<Popup>, id: nat): (k: nat)
    ensures k <= |ps|
    ensures k < |ps| ==> ps[k].id == id
    ensures k == |ps| ==> forall j :: 0 <= j < |ps| ==> ps[j].id != id
  {
    if ps == [] || ps[0].id == id then 0
    else
      var k := IndexOf(ps[1..], id);
      assert forall j :: 1 <= j < |ps| ==> ps[1..][j - 1] == ps[j];
      k + 1
  }

  predicate Distinct(ps: seq<Popup>) {
    forall i, j :: 0 <= i < j < |ps| ==> ps[i].id != ps[j].id
  }

  // Every popup stands ahead of the popup it hangs on, and both belong to one toplevel.
  predicate ChildrenFirst(e: Env, ps: seq<Popup>) {
    && Distinct(ps)
    && (forall i :: 0 <= i < |ps| ==> ps[i].win in e.windows)
    && forall i :: 0 <= i < |ps| && ps[i].parent.Some? ==> ParentBehind(ps, i)
  }

  predicate ParentBehind(ps: seq<Popup>, i: nat)
    requires i < |ps| && ps[i].parent.Some?
  {
    var j := IndexOf(ps, ps[i].parent.value);
    i < j < |ps| && ps[j].win == ps[i].win
  }

  lemma IndexUnique(ps: seq<Popup>, k: nat)
    requires Distinct(ps) && k < |ps|
    ensures IndexOf(ps, ps[k].id) == k
  {
  }

  // setup_popup inserts at the head.
  lemma InsertKeepsOrder(e: Env, ps: seq<Popup>, p: Popup)
    requires ChildrenFirst(e, ps) && p.win in e.windows
    requires forall i :: 0 <= i < |ps| ==> ps[i].id != p.id
    requires p.parent.Some? ==> exists j :: 0 <= j < |ps| && ps[j].id == p.parent.value && ps[j].win == p.win
    ensures ChildrenFirst(e, [p] + ps)
  {
    var qs := [p] + ps;
    assert qs[1..] == ps;
    assert Distinct(qs);
    forall i | 0 <= i < |qs| && qs[i].parent.Some?
      ensures ParentBehind(qs, i)
    {
      if i == 0 {
        var j :| 0 <= j < |ps| && ps[j].id == p.parent.value && ps[j].win == p.win;
        IndexUnique(qs, j + 1);
      } else {
        assert ParentBehind(ps, i - 1);
        IndexUnique(qs, IndexOf(ps, ps[i - 1].parent.value) + 1);
      }
    }
  }

  function Cut(ps: seq<Popup>, k: nat): (r: seq<Popup>)
    requires k < |ps|
    ensures |r| == |ps| - 1
    ensures forall i :: 0 <= i < |r| ==> r[i] == ps[if i < k then i else i + 1]
  {
    ps[..k] + ps[k + 1..]
  }

  lemma CutDistinct(ps: seq<Popup>, k: nat)
    requires Distinct(ps) && k < |ps|
    ensures Distinct(Cut(ps, k))
  {
    hide Cut;
  }

  // popup_destroy removes a popup nothing hangs on any more.
  lemma RemoveKeepsOrder(e: Env, ps: seq<Popup>, k: nat)
    requires ChildrenFirst(e, ps) && k < |ps|
    requires forall i :: 0 <= i < |ps| ==> ps[i].parent != Some(ps[k].id)
    ensures ChildrenFirst(e, Cut(ps, k))
  {
    hide Cut, Distinct;
    var qs := Cut(ps, k);
    CutDistinct(ps, k);
    forall i | 0 <= i < |qs| && qs[i].parent.Some?
      ensures ParentBehind(qs, i)
    {
      var i' := if i < k then i else i + 1;
      assert ParentBehind(ps, i');
      var j' := IndexOf(ps, ps[i'].parent.value);
      assert j' != k;
      IndexUnique(qs, if j' < k then j' else j' - 1);
    }
  }

  // ---- The pass ----

  // popup_compute_root_placement for the popup at i; asking may refresh its parent's cache.
  function Compute(e: Env, ps: seq<Popup>, i: nat): (r: (seq<Popup>, Option<Box>))
    requires ChildrenFirst(e, ps) && i < |ps|
    ensures |r.0| == |ps|
  {
    var p := ps[i];
    if !Sized(p) then (ps, None)
    else if p.parent.Some? then
      assert ParentBehind(ps, i);
      var j := IndexOf(ps, p.parent.value);
      var q := if ps[j].valid then ps[j] else Refreshed(e, ps[j]);
      (ps[j := q], if q.valid then Some(PlacedAt(e, p, q.box.x, q.box.y)) else None)
    else if e.windows[p.win].content == None then (ps, None)
    else
      var o := e.windows[p.win].content.value;
      (ps, Some(PlacedAt(e, p, o.0, o.1)))
  }

  function Reposition1(e: Env, ps: seq<Popup>, win: nat, i: nat): (r: seq<Popup>)
    requires ChildrenFirst(e, ps) && i < |ps|
    ensures |r| == |ps|
  {
    if ps[i].win != win || !ps[i].mapped then ps
    else
      var (qs, b) := Compute(e, ps, i);
      if b == None then qs
      else qs[i := qs[i].(box := b.value, valid := true,
                          present := if qs[i].present.Some? then b else None)]
  }

  // What never changes in a pass.
  predicate SameTree(a: Popup, b: Popup) {
    && a.id == b.id && a.parent == b.parent && a.win == b.win && a.mapped == b.mapped
    && a.current == b.current && a.scheduled == b.scheduled && a.surfW == b.surfW && a.surfH == b.surfH
  }

  predicate SameForest(ps: seq<Popup>, qs: seq<Popup>) {
    |qs| == |ps| && forall i :: 0 <= i < |ps| ==> SameTree(ps[i], qs[i])
  }

  // What no event but creation and destruction changes.
  predicate SameSkeleton(ps: seq<Popup>, qs: seq<Popup>) {
    |qs| == |ps| &&
    forall i :: 0 <= i < |ps| ==> qs[i].id == ps[i].id && qs[i].parent == ps[i].parent && qs[i].win == ps[i].win
  }

  lemma {:induction false} IndexSame(ps: seq<Popup>, qs: seq<Popup>, id: nat)
    requires SameSkeleton(ps, qs)
    ensures IndexOf(qs, id) == IndexOf(ps, id)
  {
    if ps != [] {
      assert SameSkeleton(ps[1..], qs[1..]);
      IndexSame(ps[1..], qs[1..], id);
    }
  }

  lemma SameThroughout(ps: seq<Popup>, qs: seq<Popup>, rs: seq<Popup>)
    requires SameForest(ps, qs) && SameForest(qs, rs)
    ensures SameForest(ps, rs)
  {
  }

  lemma OrderSame(e: Env, ps: seq<Popup>, qs: seq<Popup>)
    requires ChildrenFirst(e, ps) && SameSkeleton(ps, qs)
    ensures ChildrenFirst(e, qs)
  {
    forall i | 0 <= i < |qs| && qs[i].parent.Some?
      ensures ParentBehind(qs, i)
    {
      assert ParentBehind(ps, i);
      IndexSame(ps, qs, qs[i].parent.value);
    }
  }

  lemma RefreshedSame(e: Env, p: Popup)
    requires p.win in e.windows
    ensures SameTree(p, Refreshed(e, p))
  {
    hide ScaleSize, Int16, Inset;
  }

  lemma ComputeSame(e: Env, ps: seq<Popup>, i: nat)
    requires ChildrenFirst(e, ps) && i < |ps|
    ensures SameForest(ps, Compute(e, ps, i).0)
  {
    hide PlacedAt, Refreshed, Distinct;
    if ps[i].parent.Some? {
      assert ParentBehind(ps, i);
      RefreshedSame(e, ps[IndexOf(ps, ps[i].parent.value)]);
    }
  }

  lemma Reposition1Keeps(e: Env, ps: seq<Popup>, win: nat, i: nat)
    requires ChildrenFirst(e, ps) && i < |ps|
    ensures SameForest(ps, Reposition1(e, ps, win, i)) && ChildrenFirst(e, Reposition1(e, ps, win, i))
  {
    hide Compute, ParentBehind, Distinct;
    ComputeSame(e, ps, i);
    OrderSame(e, ps, Reposition1(e, ps, win, i));
  }

  // The popups below n, oldest first: from n - 1 down to 0.
  function RepositionBelow(e: Env, ps: seq<Popup>, win: nat, n: nat): (r: seq<Popup>)
    requires ChildrenFirst(e, ps) && n <= |ps|
    ensures |r| == |ps|
    decreases n
  {
    hide Reposition1, Distinct, ParentBehind;
    if n == 0 then ps
    else
      Reposition1Keeps(e, ps, win, n - 1);
      RepositionBelow(e, Reposition1(e, ps, win, n - 1), win, n - 1)
  }

  // wlx_reposition_popups_for_window, as far as popups go.
  function Reposition(e: Env, ps: seq<Popup>, win: nat): seq<Popup>
    requires ChildrenFirst(e, ps)
  {
    RepositionBelow(e, ps, win, |ps|)
  }

  // ---- Events between passes ----

  // What a commit can change; mapped says whether the surface is mapped after it.
  datatype Change = Change(current: Box, scheduled: Box, surfW: int, surfH: int, mapped: bool)

  function Changed(p: Popup, ch: Change): Popup {
    p.(current := ch.current, scheduled := ch.scheduled, surfW := ch.surfW, surfH := ch.surfH, mapped := ch.mapped)
  }

  // popup_position_and_map; buffer is the size of the attached buffer.
  function PositionAndMap(e: Env, ps: seq<Popup>, i: nat, buffer: Option<(int, int)>, createOk: bool): (r: seq<Popup>)
    requires ChildrenFirst(e, ps) && i < |ps|
    ensures |r| == |ps|
  {
    var (qs, b) := Compute(e, ps, i);
    ComputeSame(e, ps, i);
    if b == None then qs
    else if qs[i].present == None && !createOk then qs[i := Refreshed(e, qs[i])]
    else
      var whole := buffer.Some? && buffer.value.0 > 0 && buffer.value.1 > 0;
      var box := Box(b.value.x, b.value.y,
                     if whole then ScaleSize(e.scale, buffer.value.0) else b.value.w,
                     if whole then ScaleSize(e.scale, buffer.value.1) else b.value.h);
      qs[i := qs[i].(box := box, valid := true, present := Some(box))]
  }

  // popup_commit and popup_map.
  function Committed(e: Env, ps: seq<Popup>, i: nat, ch: Change, buffer: Option<(int, int)>, createOk: bool): (r: seq<Popup>)
    requires ChildrenFirst(e, ps) && i < |ps|
    ensures |r| == |ps|
  {
    var qs := ps[i := Changed(ps[i], ch)];
    OrderSame(e, ps, qs);
    if ch.mapped then PositionAndMap(e, qs, i, buffer, createOk) else qs
  }

  // popup_unmap
  function Unmapped(ps: seq<Popup>, i: nat): (r: seq<Popup>)
    requires i < |ps|
    ensures |r| == |ps|
  {
    ps[i := ps[i].(mapped := false, present := None, valid := false)]
  }

  lemma PositionAndMapSame(e: Env, ps: seq<Popup>, i: nat, buffer: Option<(int, int)>, createOk: bool)
    requires ChildrenFirst(e, ps) && i < |ps|
    ensures SameForest(ps, PositionAndMap(e, ps, i, buffer, createOk))
  {
    hide Compute, Refreshed, ChildrenFirst;
    ComputeSame(e, ps, i);
    WindowKnown(e, ps, i);
    RefreshedSame(e, Compute(e, ps, i).0[i]);
  }

  lemma WindowKnown(e: Env, ps: seq<Popup>, i: nat)
    requires ChildrenFirst(e, ps) && i < |ps|
    ensures ps[i].win in e.windows
  {
  }

  lemma CommittedKeepsOrder(e: Env, ps: seq<Popup>, i: nat, ch: Change, buffer: Option<(int, int)>, createOk: bool)
    requires ChildrenFirst(e, ps) && i < |ps|
    ensures ChildrenFirst(e, Committed(e, ps, i, ch, buffer, createOk))
  {
    hide PositionAndMap, ChildrenFirst;
    var qs := ps[i := Changed(ps[i], ch)];
    OrderSame(e, ps, qs);
    PositionAndMapSame(e, qs, i, buffer, createOk);
    OrderSame(e, qs, PositionAndMap(e, qs, i, buffer, createOk));
  }

  // ---- Where a popup belongs ----

  // The popup, everything it hangs on and the toplevel can be placed.
  predicate Shown(e: Env, ps: seq<Popup>, i: nat)
    requires ChildrenFirst(e, ps) && i < |ps|
    decreases |ps| - i
  {
    && ps[i].mapped && Sized(ps[i])
    && if ps[i].parent.Some?
       then assert ParentBehind(ps, i); Shown(e, ps, IndexOf(ps, ps[i].parent.value))
       else e.windows[ps[i].win].content.Some?
  }

  // The content origin plus the shifts along the whole chain.
  function Target(e: Env, ps: seq<Popup>, i: nat): (int, int)
    requires ChildrenFirst(e, ps) && i < |ps| && Shown(e, ps, i)
    decreases |ps| - i
  {
    var s := Shift(e, ps[i]);
    var o := if ps[i].parent.Some?
             then assert ParentBehind(ps, i); Target(e, ps, IndexOf(ps, ps[i].parent.value))
             else e.windows[ps[i].win].content.value;
    (o.0 + s.0, o.1 + s.1)
  }

  predicate InPlace(e: Env, ps: seq<Popup>, i: nat, p: Popup)
    requires ChildrenFirst(e, ps) && i < |ps| && Shown(e, ps, i)
  {
    var t, z := Target(e, ps, i), ScaledSize(e, ps[i]);
    p.valid && p.box == Box(Int16(t.0), Int16(t.1), z.0, z.1)
  }

  // From index n on, every shown popup of win is in place. ps says what the tree is, qs what
  // the caches are.
  ghost predicate PlacedFrom(e: Env, ps: seq<Popup>, qs: seq<Popup>, win: nat, n: nat)
    requires ChildrenFirst(e, ps) && |qs| == |ps|
  {
    forall i :: n <= i < |ps| && ps[i].win == win && Shown(e, ps, i) ==> InPlace(e, ps, i, qs[i])
  }

  // A shown popup whose parent is already in place gets its target.
  lemma ComputeShown(e: Env, ps: seq<Popup>, qs: seq<Popup>, win: nat, i: nat)
    requires ChildrenFirst(e, ps) && ChildrenFirst(e, qs) && SameForest(ps, qs) && i < |ps|
    requires PlacedFrom(e, ps, qs, win, i + 1)
    requires ps[i].win == win && Shown(e, ps, i)
    ensures var t, z := Target(e, ps, i), ScaledSize(e, ps[i]);
            Compute(e, qs, i) == (qs, Some(Box(Int16(t.0), Int16(t.1), z.0, z.1)))
  {
    hide ScaleSize, Int16, Shift, ScaledSize, Sized, Refreshed, ParentBehind, Distinct;
    SameShape(e, ps[i], qs[i]);
    if qs[i].parent.Some? {
      BehindBoth(e, ps, qs, i);
      var j := IndexOf(ps, ps[i].parent.value);
      assert InPlace(e, ps, j, qs[j]);
      ParentPlaces(e, ps, qs, i, j);
    }
  }

  lemma ParentPlaces(e: Env, ps: seq<Popup>, qs: seq<Popup>, i: nat, j: nat)
    requires ChildrenFirst(e, ps) && ChildrenFirst(e, qs) && SameForest(ps, qs) && i < j < |ps|
    requires ps[i].parent.Some? && IndexOf(ps, ps[i].parent.value) == j == IndexOf(qs, ps[i].parent.value)
    requires ps[i].win in e.windows
    requires Shown(e, ps, i) && Shown(e, ps, j) && InPlace(e, ps, j, qs[j])
    ensures var t, z := Target(e, ps, i), ScaledSize(e, ps[i]);
            Compute(e, qs, i) == (qs, Some(Box(Int16(t.0), Int16(t.1), z.0, z.1)))
  {
    hide ScaleSize, Int16, Shift, ScaledSize, Sized, Refreshed, ParentBehind, Distinct, ChildrenFirst, IndexOf;
    SameShape(e, ps[i], qs[i]);
    assert qs[j := qs[j]] == qs;
    var t, s := Target(e, ps, j), Shift(e, ps[i]);
    Int16Absorbs(t.0, s.0);
    Int16Absorbs(t.1, s.1);
  }

  lemma SameShape(e: Env, a: Popup, b: Popup)
    requires SameTree(a, b) && a.win in e.windows && b.win in e.windows
    ensures Shift(e, b) == Shift(e, a) && ScaledSize(e, b) == ScaledSize(e, a) && (Sized(b) <==> Sized(a))
  {
  }

  lemma BehindBoth(e: Env, ps: seq<Popup>, qs: seq<Popup>, i: nat)
    requires ChildrenFirst(e, ps) && SameForest(ps, qs) && i < |ps| && ps[i].parent.Some?
    ensures var j := IndexOf(ps, ps[i].parent.value);
            i < j < |ps| && ps[j].win == ps[i].win && IndexOf(qs, ps[i].parent.value) == j
  {
    assert ParentBehind(ps, i);
    IndexSame(ps, qs, ps[i].parent.value);
  }

  // Working on popup i leaves the popups in place behind it alone.
  lemma OthersUntouched(e: Env, ps: seq<Popup>, qs: seq<Popup>, win: nat, i: nat, k: nat)
    requires ChildrenFirst(e, ps) && ChildrenFirst(e, qs) && SameForest(ps, qs) && i < k < |ps|
    requires qs[k].valid
    ensures Reposition1(e, qs, win, i)[k] == qs[k]
  {
    hide ScaleSize, Int16, Refreshed, PlacedAt;
  }

  lemma Reposition1Places(e: Env, ps: seq<Popup>, qs: seq<Popup>, win: nat, i: nat)
    requires ChildrenFirst(e, ps) && ChildrenFirst(e, qs) && SameForest(ps, qs) && i < |ps|
    requires PlacedFrom(e, ps, qs, win, i + 1)
    ensures PlacedFrom(e, ps, Reposition1(e, qs, win, i), win, i)
  {
    hide ScaleSize, Int16, Compute, Target, ScaledSize;
    var rs := Reposition1(e, qs, win, i);
    forall k | i <= k < |ps| && ps[k].win == win && Shown(e, ps, k)
      ensures InPlace(e, ps, k, rs[k])
    {
      if k == i {
        ComputeShown(e, ps, qs, win, i);
      } else {
        assert InPlace(e, ps, k, qs[k]);
        OthersUntouched(e, ps, qs, win, i, k);
      }
    }
  }

  lemma {:induction false} PassPlaces(e: Env, ps: seq<Popup>, qs: seq<Popup>, win: nat, n: nat)
    requires ChildrenFirst(e, ps) && ChildrenFirst(e, qs) && SameForest(ps, qs) && n <= |ps|
    requires PlacedFrom(e, ps, qs, win, n)
    ensures PlacedFrom(e, ps, RepositionBelow(e, qs, win, n), win, 0)
    decreases n
  {
    hide Reposition1, PlacedFrom, ChildrenFirst, SameTree;
    if n > 0 {
      Reposition1Keeps(e, qs, win, n - 1);
      Reposition1Places(e, ps, qs, win, n - 1);
      SameThroughout(ps, qs, Reposition1(e, qs, win, n - 1));
      PassPlaces(e, ps, Reposition1(e, qs, win, n - 1), win, n - 1);
    }
  }

  // One pass over the list, whatever the caches held before, leaves every shown popup at the
  // content origin plus the scaled offsets along its whole chain.
  lemma CachesAgreeWithTree(e: Env, ps: seq<Popup>, win: nat)
    requires ChildrenFirst(e, ps)
    ensures PlacedFrom(e, ps, Reposition(e, ps, win), win, 0)
  {
    PassPlaces(e, ps, ps, win, |ps|);
  }

  // ---- The clamp on offsets ----

  // docs/SCALE.md: the parent's root position plus the scaled offset, with no clamp.
  function Plain(scale: real, d: int): int {
    if scale <= 0.0 then d else Round(d as real * scale)
  }

  function PlainShift(e: Env, p: Popup): (int, int)
    requires p.win in e.windows
  {
    var o := Offset(p);
    var i := if p.parent == None then Inset(e, p.win) else (0, 0);
    (Plain(e.scale, o.0 - i.0), Plain(e.scale, o.1 - i.1))
  }

  function Documented(e: Env, ps: seq<Popup>, i: nat): (int, int)
    requires ChildrenFirst(e, ps) && i < |ps| && Shown(e, ps, i)
    decreases |ps| - i
  {
    var s := PlainShift(e, ps[i]);
    var o := if ps[i].parent.Some?
             then assert ParentBehind(ps, i); Documented(e, ps, IndexOf(ps, ps[i].parent.value))
             else e.windows[ps[i].win].content.value;
    (o.0 + s.0, o.1 + s.1)
  }

  // Along the whole chain no offset is zero or negative once scaled.
  predicate Unclamped(e: Env, ps: seq<Popup>, i: nat)
    requires ChildrenFirst(e, ps) && i < |ps| && Shown(e, ps, i)
    decreases |ps| - i
  {
    && (e.scale > 0.0 ==> PlainShift(e, ps[i]).0 >= 1 && PlainShift(e, ps[i]).1 >= 1)
    && (ps[i].parent.Some? ==>
          assert ParentBehind(ps, i); Unclamped(e, ps, IndexOf(ps, ps[i].parent.value)))
  }

  lemma ClampOnlyRaises(scale: real, d: int)
    ensures ScaleSize(scale, d) >= Plain(scale, d)
    ensures ScaleSize(scale, d) == Plain(scale, d) <==> scale <= 0.0 || Plain(scale, d) >= 1
  {
  }

  lemma {:induction false} TargetVersusDocs(e: Env, ps: seq<Popup>, i: nat)
    requires ChildrenFirst(e, ps) && i < |ps| && Shown(e, ps, i)
    ensures var t, d := Target(e, ps, i), Documented(e, ps, i);
            && t.0 >= d.0 && t.1 >= d.1
            && (t == d <==> Unclamped(e, ps, i))
    decreases |ps| - i
  {
    var p := ps[i];
    var o := Offset(p);
    var n := if p.parent == None then Inset(e, p.win) else (0, 0);
    ClampOnlyRaises(e.scale, o.0 - n.0);
    ClampOnlyRaises(e.scale, o.1 - n.1);
    if p.parent.Some? {
      assert ParentBehind(ps, i);
      TargetVersusDocs(e, ps, IndexOf(ps, p.parent.value));
    }
  }

  // A menu at offset (0, 20) of a toplevel, at scale 1, lands one pixel right of the documented
  // place.
  lemma ClampWitness()
    ensures var e := Env(1.0, true, map[1 := Window(Some((100, 100)), Box(0, 0, 0, 0))]);
            var at := Box(0, 20, 50, 50);
            var ps := [Popup(9, None, 1, true, at, at, 50, 50, None, at, false)];
            && ChildrenFirst(e, ps) && Shown(e, ps, 0)
            && Target(e, ps, 0) == (101, 120) && Documented(e, ps, 0) == (100, 120)
  {
    RoundUnique(0.0, 0);
    RoundUnique(20.0, 20);
  }

  // ---- The list object ----

  class PopupList {
    const scale: real
    const preferCsd: bool
    var windows: map<nat, Window>
    var popups: seq<Popup>

    ghost function Settings(): Env
      reads this
    {
      Env(scale, preferCsd, windows)
    }

    ghost predicate Valid()
      reads this
    {
      ChildrenFirst(Settings(), popups)
    }

    constructor (scale: real, preferCsd: bool)
      ensures Valid() && popups == [] && Settings() == Env(scale, preferCsd, map[])
    {
      this.scale, this.preferCsd := scale, preferCsd;
      windows, popups := map[], [];
    }

    // setup_popup
    method Setup(p: Popup)
      requires Valid() && p.win in windows
      requires forall q :: q in popups ==> q.id != p.id
      requires p.parent.Some? ==> exists q :: q in popups && q.id == p.parent.value && q.win == p.win
      modifies this`popups
      ensures Valid() && popups == [p] + old(popups)
    {
      InsertKeepsOrder(Settings(), popups, p);
      popups := [p] + popups;
    }

    // popup_destroy
    method Destroy(k: nat)
      requires Valid() && k < |popups|
      requires forall q :: q in popups ==> q.parent != Some(popups[k].id)
      modifies this`popups
      ensures Valid() && popups == Cut(old(popups), k)
    {
      RemoveKeepsOrder(Settings(), popups, k);
      popups := popups[..k] + popups[k + 1..];
    }

    method ComputePlacement(i: nat) returns (b: Option<Box>)
      requires Valid() && i < |popups|
      modifies this`popups
      ensures (popups, b) == Compute(Settings(), old(popups), i)
    {
      var p := popups[i];
      var e := Env(scale, preferCsd, windows);
      if Width(p) <= 0 || Height(p) <= 0 {
        return None;
      }
      if p.parent.Some? {
        assert ParentBehind(popups, i);
        var j := IndexOf(popups, p.parent.value);
        if !popups[j].valid {
          popups := popups[j := Refreshed(e, popups[j])];
        }
        if !popups[j].valid {
          return None;
        }
        assert old(popups)[j := old(popups)[j]] == old(popups);
        return Some(PlacedAt(e, p, popups[j].box.x, popups[j].box.y));
      }
      if windows[p.win].content == None {
        return None;
      }
      var o := windows[p.win].content.value;
      return Some(PlacedAt(e, p, o.0, o.1));
    }

    // popup_commit and popup_map: the surface has changed, and is positioned if it is mapped.
    method CommitPopup(i: nat, ch: Change, buffer: Option<(int, int)>, createOk: bool)
      requires Valid() && i < |popups|
      modifies this`popups
      ensures Valid() && popups == Committed(Settings(), old(popups), i, ch, buffer, createOk)
    {
      CommittedKeepsOrder(Settings(), popups, i, ch, buffer, createOk);
      OrderSame(Settings(), popups, popups[i := Changed(popups[i], ch)]);
      popups := popups[i := Changed(popups[i], ch)];
      if ch.mapped {
        PositionAndMapPopup(i, buffer, createOk);
      }
    }

    method PositionAndMapPopup(i: nat, buffer: Option<(int, int)>, createOk: bool)
      requires Valid() && i < |popups|
      modifies this`popups
      ensures popups == PositionAndMap(Settings(), old(popups), i, buffer, createOk)
    {
      ComputeSame(Settings(), popups, i);
      var b := ComputePlacement(i);
      if b == None {
        return;
      }
      var box := b.value;
      if popups[i].present == None && !createOk {
        popups := popups[i := Refreshed(Env(scale, preferCsd, windows), popups[i])];
        return;
      }
      if buffer.Some? && buffer.value.0 > 0 && buffer.value.1 > 0 {
        box := box.(w := ScaleSize(scale, buffer.value.0), h := ScaleSize(scale, buffer.value.1));
      }
      popups := popups[i := popups[i].(present := Some(box), box := box, valid := true)];
    }

    method UnmapPopup(i: nat)
      requires Valid() && i < |popups|
      modifies this`popups
      ensures Valid() && popups == Unmapped(old(popups), i)
    {
      OrderSame(Settings(), popups, Unmapped(popups, i));
      popups := popups[i := popups[i].(mapped := false, present := None, valid := false)];
    }

    method RepositionOne(win: nat, i: nat)
      requires Valid() && i < |popups|
      modifies this`popups
      ensures Valid() && popups == Reposition1(Settings(), old(popups), win, i)
    {
      Reposition1Keeps(Settings(), popups, win, i);
      if popups[i].win == win && popups[i].mapped {
        var b := ComputePlacement(i);
        if b.Some? {
          popups := popups[i := popups[i].(box := b.value, valid := true,
                                           present := if popups[i].present.Some? then b else None)];
        }
      }
    }

    method RepositionForWindow(win: nat)
      requires Valid()
      modifies this`popups
      ensures Valid() && popups == Reposition(Settings(), old(popups), win)
      ensures PlacedFrom(Settings(), old(popups), popups, win, 0)
    {
      hide ChildrenFirst, Reposition1, PlacedFrom;
      CachesAgreeWithTree(Settings(), popups, win);
      var n: nat := |popups|;
      while n > 0
        invariant n <= |popups| && Valid()
        invariant RepositionBelow(Settings(), popups, win, n) == Reposition(Settings(), old(popups), win)
      {
        RepositionOne(win, n - 1);
        n := n - 1;
      }
    }
  }
}

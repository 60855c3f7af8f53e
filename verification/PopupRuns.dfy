// Popup caches over whole runs: what puts them in position, what keeps them there, and exactly
// which commit leaves the popups that hang on it behind.
// src/xdg.c:1080-1194, 1216-1247, 1371-1428.

module PopupRuns {
  import opened Base
  import opened Popups

  // ---- In position ----

  // The cached position is the content origin plus the shifts along the chain.
  predicate AtTarget(e: Env, ps: seq<Popup>, i: nat)
    requires ChildrenFirst(e, ps) && i < |ps| && Shown(e, ps, i)
  {
    ps[i].valid && ps[i].box.x == Int16(Target(e, ps, i).0) && ps[i].box.y == Int16(Target(e, ps, i).1)
  }

  // Every popup of win that can be placed is.
  ghost predicate InPosition(e: Env, ps: seq<Popup>, win: nat)
    requires ChildrenFirst(e, ps)
  {
    forall i :: 0 <= i < |ps| && ps[i].win == win && Shown(e, ps, i) ==> AtTarget(e, ps, i)
  }

  // ---- Passes ----

  lemma {:induction false} TargetSame(e: Env, ps: seq<Popup>, qs: seq<Popup>, i: nat)
    requires ChildrenFirst(e, ps) && ChildrenFirst(e, qs) && SameForest(ps, qs) && i < |ps|
    ensures Shown(e, qs, i) <==> Shown(e, ps, i)
    ensures Shown(e, ps, i) ==> Target(e, qs, i) == Target(e, ps, i)
    decreases |ps| - i
  {
    SameShape(e, ps[i], qs[i]);
    if ps[i].parent.Some? {
      BehindBoth(e, ps, qs, i);
      TargetSame(e, ps, qs, IndexOf(ps, ps[i].parent.value));
    }
  }

  lemma {:induction false} PassSame(e: Env, ps: seq<Popup>, win: nat, n: nat)
    requires ChildrenFirst(e, ps) && n <= |ps|
    ensures var qs := RepositionBelow(e, ps, win, n);
            && SameForest(ps, qs) && ChildrenFirst(e, qs)
            && forall k :: 0 <= k < |ps| && ps[k].win != win ==> qs[k] == ps[k]
    decreases n
  {
    if n > 0 {
      var rs := Reposition1(e, ps, win, n - 1);
      Reposition1Keeps(e, ps, win, n - 1);
      forall k | 0 <= k < |ps| && ps[k].win != win
        ensures rs[k] == ps[k]
      {
        OtherWindowUntouched(e, ps, win, n - 1, k);
      }
      PassSame(e, rs, win, n - 1);
      SameThroughout(ps, rs, RepositionBelow(e, rs, win, n - 1));
    }
  }

  lemma OtherWindowUntouched(e: Env, ps: seq<Popup>, win: nat, i: nat, k: nat)
    requires ChildrenFirst(e, ps) && i < |ps| && k < |ps| && ps[k].win != win
    ensures Reposition1(e, ps, win, i)[k] == ps[k]
  {
    hide PlacedAt, Refreshed;
    if ps[i].parent.Some? {
      assert ParentBehind(ps, i);
    }
  }

  // A pass puts every popup of its window in position, and moves no other popup.
  lemma PassPositions(e: Env, ps: seq<Popup>, win: nat, other: nat)
    requires ChildrenFirst(e, ps)
    requires other == win || InPosition(e, ps, other)
    ensures var qs := Reposition(e, ps, win); ChildrenFirst(e, qs) && InPosition(e, qs, other)
  {
    hide Target, Shown, RepositionBelow;
    CachesAgreeWithTree(e, ps, win);
    PassSame(e, ps, win, |ps|);
    var qs := Reposition(e, ps, win);
    forall i | 0 <= i < |qs| && qs[i].win == other && Shown(e, qs, i)
      ensures AtTarget(e, qs, i)
    {
      TargetSame(e, ps, qs, i);
      if other == win {
        assert InPlace(e, ps, i, qs[i]);
      } else {
        assert AtTarget(e, ps, i);
      }
    }
  }

  // ---- Changing one popup ----

  predicate HangsOn(ps: seq<Popup>, k: nat, i: nat)
    requires k < |ps| && i < |ps|
  {
    ps[k].parent == Some(ps[i].id)
  }

  predicate NoMappedChild(ps: seq<Popup>, i: nat)
    requires i < |ps|
  {
    forall k :: 0 <= k < |ps| && HangsOn(ps, k, i) ==> !ps[k].mapped
  }

  predicate Placeable(p: Popup) {
    p.mapped && Sized(p)
  }

  lemma UpdatedOrder(e: Env, ps: seq<Popup>, i: nat, q: Popup)
    requires ChildrenFirst(e, ps) && i < |ps|
    requires q.id == ps[i].id && q.parent == ps[i].parent && q.win == ps[i].win
    ensures ChildrenFirst(e, ps[i := q])
    ensures forall k :: 0 <= k < |ps| && ps[k].parent.Some? ==>
              var j := IndexOf(ps, ps[k].parent.value);
              && k < j < |ps| && ps[j].win == ps[k].win && IndexOf(ps[i := q], ps[k].parent.value) == j
              && (j == i ==> HangsOn(ps, k, i))
  {
    var qs := ps[i := q];
    OrderSame(e, ps, qs);
    forall k | 0 <= k < |ps| && ps[k].parent.Some?
      ensures var j := IndexOf(ps, ps[k].parent.value);
              k < j < |ps| && ps[j].win == ps[k].win && IndexOf(qs, ps[k].parent.value) == j
    {
      assert ParentBehind(ps, k);
      IndexSame(ps, qs, ps[k].parent.value);
    }
  }

  // A popup whose chain does not lead through i, or is not shown anyway, stays where it belongs.
  lemma {:induction false} Unaffected(e: Env, ps: seq<Popup>, i: nat, q: Popup, k: nat)
    requires ChildrenFirst(e, ps) && i < |ps| && k < |ps| && k != i
    requires q.id == ps[i].id && q.parent == ps[i].parent && q.win == ps[i].win
    requires ps[k].win != ps[i].win || NoMappedChild(ps, i) || (!Placeable(ps[i]) && !Placeable(q))
    ensures ChildrenFirst(e, ps[i := q])
    ensures Shown(e, ps[i := q], k) <==> Shown(e, ps, k)
    ensures Shown(e, ps, k) ==> Target(e, ps[i := q], k) == Target(e, ps, k)
    decreases |ps| - k
  {
    UpdatedOrder(e, ps, i, q);
    if ps[k].parent.Some? {
      var j := IndexOf(ps, ps[k].parent.value);
      if j != i {
        Unaffected(e, ps, i, q, j);
      }
    }
  }

  // What is still shown after popup i has gone off the screen stays where it belongs.
  lemma {:induction false} ShownWithout(e: Env, ps: seq<Popup>, i: nat, q: Popup, k: nat)
    requires ChildrenFirst(e, ps) && i < |ps| && k < |ps| && !q.mapped
    requires q.id == ps[i].id && q.parent == ps[i].parent && q.win == ps[i].win
    ensures ChildrenFirst(e, ps[i := q])
    ensures Shown(e, ps[i := q], k) ==>
              k != i && Shown(e, ps, k) && Target(e, ps[i := q], k) == Target(e, ps, k)
    decreases |ps| - k
  {
    UpdatedOrder(e, ps, i, q);
    if k != i && ps[k].parent.Some? {
      ShownWithout(e, ps, i, q, IndexOf(ps, ps[k].parent.value));
    }
  }

  // k hangs on i, directly or not.
  predicate Under(e: Env, ps: seq<Popup>, k: nat, i: nat)
    requires ChildrenFirst(e, ps) && k < |ps|
    decreases |ps| - k
  {
    k == i || (ps[k].parent.Some? && (assert ParentBehind(ps, k); Under(e, ps, IndexOf(ps, ps[k].parent.value), i)))
  }

  lemma {:induction false} UnderIsAhead(e: Env, ps: seq<Popup>, k: nat, i: nat)
    requires ChildrenFirst(e, ps) && k < |ps| && Under(e, ps, k, i)
    ensures k <= i
    decreases |ps| - k
  {
    if k != i {
      assert ParentBehind(ps, k);
      UnderIsAhead(e, ps, IndexOf(ps, ps[k].parent.value), i);
    }
  }

  // A shown popup under i hangs on it through a shown child of i.
  lemma {:induction false} ShownChild(e: Env, ps: seq<Popup>, k: nat, i: nat) returns (c: nat)
    requires ChildrenFirst(e, ps) && k < |ps| && i < |ps| && k != i && Under(e, ps, k, i) && Shown(e, ps, k)
    ensures c < |ps| && HangsOn(ps, c, i) && Shown(e, ps, c)
    decreases |ps| - k
  {
    assert ParentBehind(ps, k);
    var j := IndexOf(ps, ps[k].parent.value);
    if j == i {
      c := k;
    } else {
      c := ShownChild(e, ps, j, i);
    }
  }

  // How far popup i moves what hangs on it.
  function Movement(e: Env, p: Popup, q: Popup): (int, int)
    requires p.win in e.windows && q.win in e.windows
  {
    (Shift(e, q).0 - Shift(e, p).0, Shift(e, q).1 - Shift(e, p).1)
  }

  // While i stays on the screen, everything under it moves along.
  lemma {:induction false} TargetMoves(e: Env, ps: seq<Popup>, i: nat, q: Popup, k: nat)
    requires ChildrenFirst(e, ps) && i < |ps| && k < |ps|
    requires q.id == ps[i].id && q.parent == ps[i].parent && q.win == ps[i].win
    requires Placeable(ps[i]) && Placeable(q)
    ensures ChildrenFirst(e, ps[i := q]) && ps[i].win in e.windows
    ensures Shown(e, ps[i := q], k) <==> Shown(e, ps, k)
    ensures Shown(e, ps, k) ==>
              var m := if Under(e, ps, k, i) then Movement(e, ps[i], q) else (0, 0);
              Target(e, ps[i := q], k) == (Target(e, ps, k).0 + m.0, Target(e, ps, k).1 + m.1)
    decreases |ps| - k
  {
    hide Shift, Sized, ChildrenFirst, IndexOf;
    UpdatedOrder(e, ps, i, q);
    WindowKnown(e, ps, k);
    WindowKnown(e, ps, i);
    if ps[k].parent.Some? {
      BehindBoth(e, ps, ps, k);
      var j := IndexOf(ps, ps[k].parent.value);
      TargetMoves(e, ps, i, q, j);
      if k == i && Under(e, ps, j, i) {
        UnderIsAhead(e, ps, j, i);
      }
    }
  }

  // ---- Positioning one popup ----

  // A shown popup whose parent is in position is put in position; nothing else is touched.
  lemma PositionsOne(e: Env, ps: seq<Popup>, i: nat, buffer: Option<(int, int)>, createOk: bool)
    requires ChildrenFirst(e, ps) && i < |ps| && Shown(e, ps, i) && (ps[i].present.Some? || createOk)
    requires ps[i].parent.Some? ==>
               var j := IndexOf(ps, ps[i].parent.value); j < |ps| && Shown(e, ps, j) && AtTarget(e, ps, j)
    ensures var rs := PositionAndMap(e, ps, i, buffer, createOk);
            && ChildrenFirst(e, rs) && SameForest(ps, rs)
            && (forall k :: 0 <= k < |ps| && k != i ==> rs[k] == ps[k])
            && Shown(e, rs, i) && AtTarget(e, rs, i)
  {
    hide Refreshed, Shift, ScaledSize;
    PositionAndMapSame(e, ps, i, buffer, createOk);
    var rs := PositionAndMap(e, ps, i, buffer, createOk);
    OrderSame(e, ps, rs);
    TargetSame(e, ps, rs, i);
    var s := Shift(e, ps[i]);
    if ps[i].parent.Some? {
      assert ParentBehind(ps, i);
      var j := IndexOf(ps, ps[i].parent.value);
      var t := Target(e, ps, j);
      assert ps[j := ps[j]] == ps;
      Int16Absorbs(t.0, s.0);
      Int16Absorbs(t.1, s.1);
    }
  }

  // Positioning a popup never touches one that is shown and in position, but itself.
  lemma PositioningSpares(e: Env, ps: seq<Popup>, i: nat, buffer: Option<(int, int)>, createOk: bool, k: nat)
    requires ChildrenFirst(e, ps) && i < |ps| && k < |ps| && k != i
    requires ps[k].valid || ps[k].win != ps[i].win
    ensures PositionAndMap(e, ps, i, buffer, createOk)[k] == ps[k]
  {
    hide Refreshed, PlacedAt;
    ComputeSame(e, ps, i);
    if ps[i].parent.Some? {
      assert ParentBehind(ps, i);
    }
  }

  // ---- Commits ----

  predicate Still(m: (int, int)) {
    m.0 % 0x10000 == 0 && m.1 % 0x10000 == 0
  }

  lemma StillExactly(x: int, d: int)
    ensures Int16(x + d) == Int16(x) <==> d % 0x10000 == 0
  {
    if Int16(x + d) == Int16(x) {
      var a, b := (x + d + 0x8000) / 0x10000, (x + 0x8000) / 0x10000;
      assert d == (a - b) * 0x10000;
      ModShift(0, b - a);
    } else if d % 0x10000 == 0 {
      ModShift(x + 0x8000, -(d / 0x10000));
    }
  }

  // A commit of a shown popup that stays shown keeps its window in position exactly when it
  // does not move the popup, or no shown popup hangs on it: what hangs on it is not repositioned.
  lemma CommitKeepsExactly(e: Env, ps: seq<Popup>, i: nat, ch: Change, buffer: Option<(int, int)>, createOk: bool)
    requires ChildrenFirst(e, ps) && i < |ps| && InPosition(e, ps, ps[i].win) && Shown(e, ps, i)
    requires Placeable(Changed(ps[i], ch)) && (ps[i].present.Some? || createOk)
    ensures var rs := Committed(e, ps, i, ch, buffer, createOk);
            && ChildrenFirst(e, rs) && ps[i].win in e.windows
            && (InPosition(e, rs, ps[i].win) <==>
                  || Still(Movement(e, ps[i], Changed(ps[i], ch)))
                  || forall k :: 0 <= k < |ps| && HangsOn(ps, k, i) ==> !Shown(e, ps, k))
  {
    hide Shift, Sized, Int16, PositionAndMap, Target, Shown, Under, ChildrenFirst, SameTree, Movement, IndexOf;
    var q := Changed(ps[i], ch);
    var qs, rs := ps[i := q], Committed(e, ps, i, ch, buffer, createOk);
    WindowKnown(e, ps, i);
    var m := Movement(e, ps[i], q);
    MovedAndPositioned(e, ps, i, q, buffer, createOk);
    if exists k :: 0 <= k < |ps| && HangsOn(ps, k, i) && Shown(e, ps, k) {
      var k :| 0 <= k < |ps| && HangsOn(ps, k, i) && Shown(e, ps, k);
      ChildIsUnder(e, ps, k, i);
      MovedExactly(e, ps, i, q, buffer, createOk, k);
      assert AtTarget(e, rs, k) <==> Still(m);
    }
    forall k | 0 <= k < |ps| && k != i && rs[k].win == ps[i].win && Shown(e, rs, k)
      ensures Still(m) || (forall c :: 0 <= c < |ps| && HangsOn(ps, c, i) ==> !Shown(e, ps, c)) ==> AtTarget(e, rs, k)
    {
      MovedExactly(e, ps, i, q, buffer, createOk, k);
      if Under(e, ps, k, i) {
        var c := ShownChild(e, ps, k, i);
      }
    }
  }

  lemma ChildIsUnder(e: Env, ps: seq<Popup>, k: nat, i: nat)
    requires ChildrenFirst(e, ps) && k < |ps| && i < |ps| && HangsOn(ps, k, i)
    ensures k < i && ps[k].win == ps[i].win && Under(e, ps, k, i)
  {
    assert ParentBehind(ps, k);
    IndexUnique(ps, i);
  }

  // After the commit, popup i is in position and the other caches are as before.
  lemma MovedAndPositioned(e: Env, ps: seq<Popup>, i: nat, q: Popup, buffer: Option<(int, int)>, createOk: bool)
    requires ChildrenFirst(e, ps) && i < |ps| && InPosition(e, ps, ps[i].win) && Shown(e, ps, i)
    requires q.id == ps[i].id && q.parent == ps[i].parent && q.win == ps[i].win && q.present == ps[i].present
    requires Placeable(q) && (q.present.Some? || createOk)
    ensures ChildrenFirst(e, ps[i := q])
    ensures var rs := PositionAndMap(e, ps[i := q], i, buffer, createOk);
            && ChildrenFirst(e, rs) && SameForest(ps[i := q], rs)
            && (forall k :: 0 <= k < |ps| && k != i ==> rs[k] == ps[k])
            && Shown(e, rs, i) && AtTarget(e, rs, i)
  {
    hide Shift, Sized, Int16, PositionAndMap, Target;
    var qs := ps[i := q];
    TargetMoves(e, ps, i, q, i);
    if ps[i].parent.Some? {
      BehindBoth(e, ps, ps, i);
      IndexSame(ps, qs, ps[i].parent.value);
      var j := IndexOf(ps, ps[i].parent.value);
      assert Shown(e, ps, j) && AtTarget(e, ps, j);
      TargetMoves(e, ps, i, q, j);
      if Under(e, ps, j, i) {
        UnderIsAhead(e, ps, j, i);
      }
    }
    PositionsOne(e, qs, i, buffer, createOk);
  }

  // Another popup of the window is in position after the commit unless it hangs on i and i moved.
  lemma MovedExactly(e: Env, ps: seq<Popup>, i: nat, q: Popup, buffer: Option<(int, int)>, createOk: bool, k: nat)
    requires ChildrenFirst(e, ps) && i < |ps| && InPosition(e, ps, ps[i].win) && Shown(e, ps, i)
    requires q.id == ps[i].id && q.parent == ps[i].parent && q.win == ps[i].win && q.present == ps[i].present
    requires Placeable(q) && (q.present.Some? || createOk)
    requires k < |ps| && k != i && ps[k].win == ps[i].win
    ensures ChildrenFirst(e, ps[i := q]) && ps[i].win in e.windows
    ensures var rs := PositionAndMap(e, ps[i := q], i, buffer, createOk);
            && ChildrenFirst(e, rs)
            && (Shown(e, rs, k) <==> Shown(e, ps, k))
            && (Shown(e, ps, k) ==> (AtTarget(e, rs, k) <==> !Under(e, ps, k, i) || Still(Movement(e, ps[i], q))))
  {
    hide Shift, Sized, Int16, PositionAndMap, Target, Shown, Under, ChildrenFirst, SameTree, Movement, IndexOf;
    MovedAndPositioned(e, ps, i, q, buffer, createOk);
    var qs := ps[i := q];
    var rs := PositionAndMap(e, qs, i, buffer, createOk);
    ShownIsPlaceable(e, ps, i);
    TargetMoves(e, ps, i, q, k);
    TargetSame(e, qs, rs, k);
    if Shown(e, ps, k) {
      assert AtTarget(e, ps, k);
      var t, m := Target(e, ps, k), Movement(e, ps[i], q);
      StillExactly(t.0, m.0);
      StillExactly(t.1, m.1);
    }
  }

  // A commit of a popup that no mapped popup hangs on, mapping it or not, keeps its window and
  // every other in position.
  lemma LeafCommitKeeps(e: Env, ps: seq<Popup>, i: nat, ch: Change, buffer: Option<(int, int)>, createOk: bool, win: nat)
    requires ChildrenFirst(e, ps) && i < |ps| && InPosition(e, ps, win)
    requires ps[i].win != win || NoMappedChild(ps, i) || (!Placeable(ps[i]) && !ch.mapped)
    requires ps[i].win == win && ch.mapped ==> ps[i].present.Some? || createOk
    ensures var rs := Committed(e, ps, i, ch, buffer, createOk); ChildrenFirst(e, rs) && InPosition(e, rs, win)
  {
    hide Shift, Sized, Int16, PositionAndMap, Target, Shown, NoMappedChild, Refreshed;
    var q := Changed(ps[i], ch);
    var qs, rs := ps[i := q], Committed(e, ps, i, ch, buffer, createOk);
    CommittedKeepsOrder(e, ps, i, ch, buffer, createOk);
    UpdatedOrder(e, ps, i, q);
    if ch.mapped {
      PositionAndMapSame(e, qs, i, buffer, createOk);
    }
    forall k | 0 <= k < |ps| && rs[k].win == win && Shown(e, rs, k)
      ensures AtTarget(e, rs, k)
    {
      TargetSame(e, qs, rs, k);
      if k != i {
        OtherInPosition(e, ps, i, q, win, k);
        if ch.mapped {
          PositioningSpares(e, qs, i, buffer, createOk, k);
        }
      } else {
        ShownIsPlaceable(e, qs, i);
        if ps[i].parent.Some? {
          ShownUnderShown(e, qs, i);
          var j := IndexOf(qs, qs[i].parent.value);
          OtherInPosition(e, ps, i, q, win, j);
        }
        PositionsOne(e, qs, i, buffer, createOk);
      }
    }
  }

  lemma ShownIsPlaceable(e: Env, ps: seq<Popup>, i: nat)
    requires ChildrenFirst(e, ps) && i < |ps| && Shown(e, ps, i)
    ensures Placeable(ps[i])
  {
  }

  lemma ShownUnderShown(e: Env, ps: seq<Popup>, i: nat)
    requires ChildrenFirst(e, ps) && i < |ps| && Shown(e, ps, i) && ps[i].parent.Some?
    ensures var j := IndexOf(ps, ps[i].parent.value);
            i < j < |ps| && ps[j].win == ps[i].win && Shown(e, ps, j)
  {
    assert ParentBehind(ps, i);
  }

  // Before it is positioned, the changed popup has put no other out of position.
  lemma OtherInPosition(e: Env, ps: seq<Popup>, i: nat, q: Popup, win: nat, k: nat)
    requires ChildrenFirst(e, ps) && i < |ps| && InPosition(e, ps, win)
    requires q.id == ps[i].id && q.parent == ps[i].parent && q.win == ps[i].win
    requires ps[i].win != win || NoMappedChild(ps, i) || (!Placeable(ps[i]) && !q.mapped)
    requires k < |ps| && k != i && ps[k].win == win
    ensures ChildrenFirst(e, ps[i := q])
    ensures Shown(e, ps[i := q], k) ==> ps[k].valid && AtTarget(e, ps[i := q], k)
  {
    hide Sized, Int16, Target, Shown, NoMappedChild;
    Unaffected(e, ps, i, q, k);
    assert Shown(e, ps, k) ==> AtTarget(e, ps, k);
  }

  lemma UnmapKeeps(e: Env, ps: seq<Popup>, i: nat, win: nat)
    requires ChildrenFirst(e, ps) && i < |ps| && InPosition(e, ps, win)
    ensures var qs := Unmapped(ps, i); ChildrenFirst(e, qs) && InPosition(e, qs, win)
  {
    hide Int16, Target, Shown;
    var qs := Unmapped(ps, i);
    UpdatedOrder(e, ps, i, qs[i]);
    forall k | 0 <= k < |ps| && qs[k].win == win && Shown(e, qs, k)
      ensures AtTarget(e, qs, k)
    {
      ShownWithout(e, ps, i, qs[i], k);
      assert AtTarget(e, ps, k);
    }
  }

  // ---- Creation and destruction ----

  // ps and qs hold the same popups, except for one that nothing hangs on.
  ghost predicate SameBut(ps: seq<Popup>, qs: seq<Popup>, but: nat) {
    forall k :: 0 <= k < |ps| && ps[k].id != but ==>
      && ps[k].parent != Some(but)
      && var m := IndexOf(qs, ps[k].id); m < |qs| && qs[m] == ps[k]
  }

  lemma {:induction false} SameByName(e: Env, ps: seq<Popup>, qs: seq<Popup>, but: nat, k: nat, m: nat)
    requires ChildrenFirst(e, ps) && ChildrenFirst(e, qs) && SameBut(ps, qs, but)
    requires k < |ps| && m < |qs| && qs[m] == ps[k] && ps[k].id != but
    ensures Shown(e, qs, m) <==> Shown(e, ps, k)
    ensures Shown(e, ps, k) ==> Target(e, qs, m) == Target(e, ps, k)
    decreases |ps| - k
  {
    if ps[k].parent.Some? {
      assert ParentBehind(ps, k);
      var j := IndexOf(ps, ps[k].parent.value);
      SameByName(e, ps, qs, but, j, IndexOf(qs, ps[j].id));
    }
  }

  lemma SameButKeeps(e: Env, ps: seq<Popup>, qs: seq<Popup>, but: nat, win: nat)
    requires ChildrenFirst(e, ps) && ChildrenFirst(e, qs) && SameBut(qs, ps, but) && InPosition(e, ps, win)
    requires forall m :: 0 <= m < |qs| && qs[m].id == but ==> !qs[m].mapped
    ensures InPosition(e, qs, win)
  {
    hide Int16, Target, ChildrenFirst;
    forall m | 0 <= m < |qs| && qs[m].win == win && Shown(e, qs, m)
      ensures AtTarget(e, qs, m)
    {
      var k := IndexOf(ps, qs[m].id);
      SameByName(e, qs, ps, but, m, k);
      assert AtTarget(e, ps, k);
    }
  }

  predicate Creatable(e: Env, ps: seq<Popup>, p: Popup) {
    && p.win in e.windows && !p.mapped && !p.valid && p.present == None
    && (forall i :: 0 <= i < |ps| ==> ps[i].id != p.id)
    && (p.parent.Some? ==> exists j :: 0 <= j < |ps| && ps[j].id == p.parent.value && ps[j].win == p.win)
  }

  lemma SetupKeeps(e: Env, ps: seq<Popup>, p: Popup, win: nat)
    requires ChildrenFirst(e, ps) && Creatable(e, ps, p) && InPosition(e, ps, win)
    ensures ChildrenFirst(e, [p] + ps) && InPosition(e, [p] + ps, win)
  {
    hide Shown, Target, AtTarget;
    InsertKeepsOrder(e, ps, p);
    var qs := [p] + ps;
    forall m | 0 <= m < |qs| && qs[m].id != p.id
      ensures qs[m].parent != Some(p.id) && var k := IndexOf(ps, qs[m].id); k < |ps| && ps[k] == qs[m]
    {
      assert qs[m] == ps[m - 1];
      IndexUnique(ps, m - 1);
      if ps[m - 1].parent.Some? {
        assert ParentBehind(ps, m - 1);
      }
    }
    assert SameBut(qs, ps, p.id);
    SameButKeeps(e, ps, qs, p.id, win);
  }

  predicate Childless(ps: seq<Popup>, i: nat)
    requires i < |ps|
  {
    forall k :: 0 <= k < |ps| ==> ps[k].parent != Some(ps[i].id)
  }

  lemma DestroyKeeps(e: Env, ps: seq<Popup>, i: nat, win: nat)
    requires ChildrenFirst(e, ps) && i < |ps| && Childless(ps, i) && InPosition(e, ps, win)
    ensures ChildrenFirst(e, Cut(ps, i)) && InPosition(e, Cut(ps, i), win)
  {
    hide Cut, Shown, Target, AtTarget;
    RemoveKeepsOrder(e, ps, i);
    var qs := Cut(ps, i);
    forall m | 0 <= m < |qs| && qs[m].id != ps[i].id
      ensures qs[m].parent != Some(ps[i].id) && var k := IndexOf(ps, qs[m].id); k < |ps| && ps[k] == qs[m]
    {
      var k := if m < i then m else m + 1;
      IndexUnique(ps, k);
    }
    assert SameBut(qs, ps, ps[i].id);
    SameButKeeps(e, ps, qs, ps[i].id, win);
  }

  // ---- Windows that move ----

  lemma {:induction false} SameWindow(e: Env, f: Env, ps: seq<Popup>, i: nat)
    requires ChildrenFirst(e, ps) && ChildrenFirst(f, ps) && i < |ps|
    requires f.scale == e.scale && f.csd == e.csd && f.windows[ps[i].win] == e.windows[ps[i].win]
    ensures Shown(f, ps, i) <==> Shown(e, ps, i)
    ensures Shown(e, ps, i) ==> Target(f, ps, i) == Target(e, ps, i)
    decreases |ps| - i
  {
    if ps[i].parent.Some? {
      assert ParentBehind(ps, i);
      SameWindow(e, f, ps, IndexOf(ps, ps[i].parent.value));
    }
  }

  lemma MoveKeeps(e: Env, f: Env, ps: seq<Popup>, win: nat)
    requires ChildrenFirst(e, ps) && ChildrenFirst(f, ps) && InPosition(e, ps, win)
    requires f.scale == e.scale && f.csd == e.csd
    requires win in e.windows ==> win in f.windows && f.windows[win] == e.windows[win]
    ensures InPosition(f, ps, win)
  {
    hide Int16, Target, Shown;
    forall i | 0 <= i < |ps| && ps[i].win == win && Shown(f, ps, i)
      ensures AtTarget(f, ps, i)
    {
      SameWindow(e, f, ps, i);
      assert AtTarget(e, ps, i);
    }
  }

  // ---- Runs ----

  datatype World = World(e: Env, ps: seq<Popup>)

  datatype Event =
    | EvSetup(p: Popup)
    | EvCommit(id: nat, ch: Change, buffer: Option<(int, int)>, createOk: bool)
    | EvUnmap(id: nat)
    | EvDestroy(id: nat)
    | EvMove(windows: map<nat, Window>)
    | EvReposition(win: nat)

  predicate Ordered(w: World) {
    ChildrenFirst(w.e, w.ps)
  }

  predicate Known(w: World, id: nat) {
    IndexOf(w.ps, id) < |w.ps|
  }

  // Popups are created under existing ones and destroyed without children; a mapped surface
  // stops being mapped by unmapping only; windows do not disappear before their popups.
  predicate Enabled(w: World, ev: Event) {
    match ev
    case EvSetup(p) => Creatable(w.e, w.ps, p)
    case EvCommit(id, ch, _, _) => Known(w, id) && (w.ps[IndexOf(w.ps, id)].mapped ==> ch.mapped)
    case EvUnmap(id) => Known(w, id)
    case EvDestroy(id) => Known(w, id) && Childless(w.ps, IndexOf(w.ps, id))
    case EvMove(windows) => w.e.windows.Keys <= windows.Keys
    case EvReposition(_) => true
  }

  function Step(w: World, ev: Event): (w': World)
    requires Ordered(w) && Enabled(w, ev)
    ensures Ordered(w')
  {
    hide Committed, Reposition;
    match ev
    case EvSetup(p) => InsertKeepsOrder(w.e, w.ps, p); w.(ps := [p] + w.ps)
    case EvCommit(id, ch, buffer, createOk) =>
      CommittedKeepsOrder(w.e, w.ps, IndexOf(w.ps, id), ch, buffer, createOk);
      w.(ps := Committed(w.e, w.ps, IndexOf(w.ps, id), ch, buffer, createOk))
    case EvUnmap(id) =>
      OrderSame(w.e, w.ps, Unmapped(w.ps, IndexOf(w.ps, id)));
      w.(ps := Unmapped(w.ps, IndexOf(w.ps, id)))
    case EvDestroy(id) =>
      RemoveKeepsOrder(w.e, w.ps, IndexOf(w.ps, id));
      w.(ps := Cut(w.ps, IndexOf(w.ps, id)))
    case EvMove(windows) => w.(e := w.e.(windows := windows))
    case EvReposition(win) =>
      RepositionKeepsOrder(w.e, w.ps, win);
      w.(ps := Reposition(w.e, w.ps, win))
  }

  lemma RepositionKeepsOrder(e: Env, ps: seq<Popup>, win: nat)
    requires ChildrenFirst(e, ps)
    ensures ChildrenFirst(e, Reposition(e, ps, win))
  {
    PassSame(e, ps, win, |ps|);
  }

  predicate Possible(w: World, es: seq<Event>)
    requires Ordered(w)
    decreases |es|
  {
    es == [] || (Enabled(w, es[0]) && Possible(Step(w, es[0]), es[1..]))
  }

  function Run(w: World, es: seq<Event>): (w': World)
    requires Ordered(w) && Possible(w, es)
    ensures Ordered(w')
    decreases |es|
  {
    if es == [] then w else Run(Step(w, es[0]), es[1..])
  }

  // The event cannot leave a popup of win behind: it does not move the window, and a commit of
  // one of its popups does not move anything that hangs on it.
  predicate Gentle(w: World, ev: Event, win: nat)
    requires Ordered(w) && Enabled(w, ev)
  {
    match ev
    case EvMove(windows) => win in w.e.windows ==> windows[win] == w.e.windows[win]
    case EvCommit(id, ch, _, createOk) =>
      var i := IndexOf(w.ps, id);
      var p := w.ps[i];
      WindowKnown(w.e, w.ps, i);
      || p.win != win
      || !ch.mapped
      || ((p.present.Some? || createOk)
          && (NoMappedChild(w.ps, i)
              || (Shown(w.e, w.ps, i) && Sized(Changed(p, ch)) && Still(Movement(w.e, p, Changed(p, ch))))))
    case _ => true
  }

  predicate AllGentle(w: World, es: seq<Event>, win: nat)
    requires Ordered(w) && Possible(w, es)
    decreases |es|
  {
    es == [] || (Gentle(w, es[0], win) && AllGentle(Step(w, es[0]), es[1..], win))
  }

  lemma CommitStepKeeps(w: World, ev: Event, win: nat)
    requires Ordered(w) && Enabled(w, ev) && ev.EvCommit? && InPosition(w.e, w.ps, win) && Gentle(w, ev, win)
    ensures InPosition(Step(w, ev).e, Step(w, ev).ps, win)
  {
    hide InPosition, Committed, Shown, Movement, Sized, NoMappedChild;
    var i := IndexOf(w.ps, ev.id);
    var p := w.ps[i];
    if p.win == win && ev.ch.mapped && !NoMappedChild(w.ps, i) {
      ShownIsPlaceable(w.e, w.ps, i);
      CommitKeepsExactly(w.e, w.ps, i, ev.ch, ev.buffer, ev.createOk);
    } else {
      LeafCommitKeeps(w.e, w.ps, i, ev.ch, ev.buffer, ev.createOk, win);
    }
  }

  lemma StepKeeps(w: World, ev: Event, win: nat)
    requires Ordered(w) && Enabled(w, ev) && InPosition(w.e, w.ps, win) && Gentle(w, ev, win)
    ensures InPosition(Step(w, ev).e, Step(w, ev).ps, win)
  {
    hide InPosition, Committed, Reposition, Unmapped, ChildrenFirst;
    match ev
    case EvSetup(p) => SetupKeeps(w.e, w.ps, p, win);
    case EvCommit(_, _, _, _) => CommitStepKeeps(w, ev, win);
    case EvUnmap(id) => UnmapKeeps(w.e, w.ps, IndexOf(w.ps, id), win);
    case EvDestroy(id) => DestroyKeeps(w.e, w.ps, IndexOf(w.ps, id), win);
    case EvMove(windows) => MoveKeeps(w.e, Step(w, ev).e, w.ps, win);
    case EvReposition(other) => PassPositions(w.e, w.ps, other, win);
  }

  lemma {:induction false} StaysInPosition(w: World, es: seq<Event>, win: nat)
    requires Ordered(w) && Possible(w, es) && InPosition(w.e, w.ps, win) && AllGentle(w, es, win)
    ensures InPosition(Run(w, es).e, Run(w, es).ps, win)
    decreases |es|
  {
    hide InPosition, Gentle, Step, Ordered;
    if es != [] {
      StepKeeps(w, es[0], win);
      StaysInPosition(Step(w, es[0]), es[1..], win);
    }
  }

  // After any history a pass puts every popup of its window in position, and they stay there as
  // long as the window does not move and no commit moves a popup that shown popups hang on.
  lemma PositionedAfterPass(start: Env, es: seq<Event>, win: nat, fs: seq<Event>)
    requires Ordered(World(start, [])) && Possible(World(start, []), es)
    requires var w := Step(Run(World(start, []), es), EvReposition(win)); Possible(w, fs) && AllGentle(w, fs, win)
    ensures var w := Step(Run(World(start, []), es), EvReposition(win));
            InPosition(w.e, w.ps, win) && InPosition(Run(w, fs).e, Run(w, fs).ps, win)
  {
    hide InPosition, AllGentle, Possible, Run, Reposition;
    var v := Run(World(start, []), es);
    PassPositions(v.e, v.ps, win, win);
    StaysInPosition(Step(v, EvReposition(win)), fs, win);
  }

  // ---- A menu that moves under its submenu ----

  function PlacedMenu(id: nat, parent: Option<nat>, x: int, rootX: int, rootY: int): Popup {
    var at, root := Box(x, 10, 50, 50), Box(rootX, rootY, 50, 50);
    Popup(id, parent, 1, true, at, at, 50, 50, Some(root), root, true)
  }

  const DESKTOP: Env := Env(0.0, true, map[1 := Window(Some((100, 100)), Box(0, 0, 0, 0))])

  // Submenu 3 at (10, 10) of menu 2, and the menu at (x, 10) with its caches up to date.
  function Menus(x: int): (ps: seq<Popup>)
    ensures |ps| == 2
  {
    [PlacedMenu(3, Some(2), 10, 120, 120), PlacedMenu(2, None, x, 100 + x, 110)]
  }

  lemma MenusOrdered(x: int)
    ensures ChildrenFirst(DESKTOP, Menus(x)) && IndexOf(Menus(x), 2) == 1
  {
    var ps := Menus(x);
    assert IndexOf(ps, 2) == 1 by {
      assert ps[1..] == [ps[1]];
    }
    assert ParentBehind(ps, 0);
  }

  lemma MenusTargets(x: int)
    ensures ChildrenFirst(DESKTOP, Menus(x)) && Shown(DESKTOP, Menus(x), 0) && Shown(DESKTOP, Menus(x), 1)
    ensures Target(DESKTOP, Menus(x), 0) == (110 + x, 120) && Target(DESKTOP, Menus(x), 1) == (100 + x, 110)
  {
    hide ChildrenFirst, ParentBehind, IndexOf;
    MenusOrdered(x);
    var ps := Menus(x);
    assert Shift(DESKTOP, ps[1]) == (x, 10) && Shift(DESKTOP, ps[0]) == (10, 10);
    assert Shown(DESKTOP, ps, 1) && Target(DESKTOP, ps, 1) == (100 + x, 110);
  }

  lemma MenusInPosition(x: int)
    requires 0 <= x < 1000
    ensures ChildrenFirst(DESKTOP, Menus(x)) && (InPosition(DESKTOP, Menus(x), 1) <==> x == 10)
  {
    hide ChildrenFirst, Shown, Target, IndexOf;
    MenusTargets(x);
    var ps := Menus(x);
    assert ps[0].win == ps[1].win == 1;
    assert AtTarget(DESKTOP, ps, 1);
    assert AtTarget(DESKTOP, ps, 0) <==> x == 10;
  }

  lemma MenuMoves()
    ensures ChildrenFirst(DESKTOP, Menus(10))
    ensures Committed(DESKTOP, Menus(10), 1, Change(Box(20, 10, 50, 50), Box(20, 10, 50, 50), 50, 50, true), None, true) == Menus(20)
  {
    hide ChildrenFirst, IndexOf;
    MenusOrdered(10);
  }

  // Both in position; the menu commits the offset (20, 10) and moves, and the submenu on it
  // stays where it was.
  lemma LeftBehindWitness()
    ensures ChildrenFirst(DESKTOP, Menus(10)) && InPosition(DESKTOP, Menus(10), 1)
    ensures var ch := Change(Box(20, 10, 50, 50), Box(20, 10, 50, 50), 50, 50, true);
            && Committed(DESKTOP, Menus(10), 1, ch, None, true) == Menus(20)
            && ChildrenFirst(DESKTOP, Menus(20)) && !InPosition(DESKTOP, Menus(20), 1)
  {
    hide InPosition, ChildrenFirst, Committed, Menus;
    MenuMoves();
    MenusInPosition(10);
    MenusInPosition(20);
  }
}

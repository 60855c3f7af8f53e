// The server's list of promoted subsurfaces, updated in place, and the pass that promotes and
// demotes. Each operation is tied to its value in Subpresent.dfy.
// src/subpresent.c:245-455.

module SubpresentList {
  import opened Base
  import opened Subpresent

  // struct subpresent_sync_ctx: the surfaces still overflowing, in an array that doubles.
  class SyncContext {
    var keep: array<nat>
    var count: nat

    ghost predicate Valid()
      reads this
    {
      count <= keep.Length
    }

    ghost function Kept(): seq<nat>
      requires Valid()
      reads this, keep
    {
      keep[..count]
    }

    constructor ()
      ensures Valid() && fresh(keep) && Kept() == []
    {
      keep := new nat[0];
      count := 0;
    }

    method Push(id: nat)
      requires Valid()
      modifies this, keep
      ensures Valid() && (keep == old(keep) || fresh(keep)) && Kept() == old(Kept()) + [id]
    {
      if count >= keep.Length {
        var larger := new nat[if keep.Length > 0 then keep.Length * 2 else 8];
        forall i | 0 <= i < count {
          larger[i] := keep[i];
        }
        assert larger[..count] == Kept();
        keep := larger;
      }
      keep[count] := id;
      count := count + 1;
      assert Kept() == old(Kept()) + [id];
    }

    method Contains(id: nat) returns (found: bool)
      requires Valid()
      ensures found <==> id in Kept()
    {
      var i := 0;
      while i < count
        invariant 0 <= i <= count
        invariant id !in keep[..i]
      {
        if keep[i] == id {
          assert Kept()[i] == id;
          return true;
        }
        i := i + 1;
      }
      found := false;
    }
  }

  class PromotionList {
    var entries: seq<Entry>

    // The scene: where each surface has its copy, and which copies are off.
    var homes: map<nat, nat>
    var disabled: set<nat>

    ghost function View(): State
      reads this
    {
      State(entries, homes, disabled)
    }

    // subpresent_set_scene_enabled: the copy in the scene of the entry's window, if there is one.
    method SetSceneEnabled(n: Entry, on: bool)
      modifies this`disabled
      ensures disabled == Switched(old(View()), n, on)
    {
      if n.surface in homes && homes[n.surface] == n.parent {
        disabled := if on then disabled - {n.surface} else disabled + {n.surface};
      }
    }

    // subpresent_find
    method FindEntry(id: nat) returns (k: nat)
      ensures k == IndexOf(entries, id)
    {
      k := 0;
      assert entries[0..] == entries;
      while k < |entries|
        invariant k <= |entries|
        invariant IndexOf(entries, id) == k + IndexOf(entries[k..], id)
      {
        assert entries[k..][1..] == entries[k + 1..];
        if entries[k].surface == id {
          return;
        }
        k := k + 1;
      }
    }

    // subpresent_get_or_create
    method GetOrCreate(w: Win, surf: Surface) returns (k: nat)
      modifies this`entries
      ensures View() == Adopt(old(View()), w, surf)
      ensures k < |entries| && k == IndexOf(entries, surf.id)
    {
      AdoptTracks(View(), w, surf);
      k := FindEntry(surf.id);
      if k < |entries| {
        ghost var before := entries;
        entries := entries[k := entries[k].(sx := surf.sx, sy := surf.sy, parent := w.id)];
        UpdateKeepsIndex(before, k, entries[k], surf.id);
      } else {
        entries := [Entry(surf.id, w.id, surf.sx, surf.sy, false, Box(0, 0, 0, 0), false)] + entries;
        k := 0;
      }
    }

    // subpresent_position_and_present
    method PositionAndPresent(e: Env, w: Win, surf: Surface, k: nat)
      requires k < |entries|
      modifies this
      ensures View() == Present(e, old(View()), w, surf, k)
    {
      if !surf.mapped || surf.w <= 0 || surf.h <= 0 || w.content == None {
        return;
      }
      var entry := entries[k];
      if !entry.present {
        if !e.createOk {
          return;
        }
        entry := entry.(present := true);
      }
      entries := entries[k := entry.(box := Placed(e, w, surf, entry.sx, entry.sy), valid := true)];
      SetSceneEnabled(entry, false);
    }

    // subpresent_sync_iterator
    method SyncIterator(e: Env, w: Win, surf: Surface, ctx: SyncContext)
      requires ctx.Valid()
      modifies this, ctx, ctx.keep
      ensures ctx.Valid() && (ctx.keep == old(ctx.keep) || fresh(ctx.keep))
      ensures View() == Touch(e, old(View()), w, surf)
      ensures ctx.Kept() == old(ctx.Kept()) + if Overflows(w, surf) then [surf.id] else []
    {
      if surf.id == w.root || !surf.mapped || surf.w <= 0 || surf.h <= 0 {
        return;
      }
      var overflows := surf.sx < 0 || surf.sy < 0 || surf.sx + surf.w > w.rootW || surf.sy + surf.h > w.rootH;
      if !overflows {
        return;
      }
      ctx.Push(surf.id);
      var k := GetOrCreate(w, surf);
      PositionAndPresent(e, w, surf, k);
    }

    // subpresent_destroy for entry k.
    method DestroyEntry(k: nat)
      requires k < |entries|
      modifies this
      ensures View() == Destroyed(old(View()), k)
    {
      SetSceneEnabled(entries[k], true);
      entries := entries[..k] + entries[k + 1..];
    }

    // wlx_window_destroy_subpresents: the walk keeps its place when an entry goes.
    method DestroyFor(w: Win)
      modifies this
      ensures View() == Sweep(old(View()), w, {})
    {
      var ctx := new SyncContext();
      Demote(w, ctx, {});
    }

    // The demotion loop of wlx_window_sync_subpresents.
    method Demote(w: Win, ctx: SyncContext, ghost keep: set<nat>)
      requires ctx.Valid() && forall id :: id in keep <==> id in ctx.Kept()
      modifies this
      ensures View() == Sweep(old(View()), w, keep)
    {
      var k := 0;
      ghost var rest := Sweep(View(), w, keep);
      assert entries[0..] == entries;
      while k < |entries|
        invariant k <= |entries|
        invariant homes == old(homes) && rest == Sweep(State(entries[k..], homes, disabled), w, keep)
        invariant old(Sweep(View(), w, keep)) == State(entries[..k] + rest.entries, homes, rest.disabled)
        decreases |entries| - k
      {
        ghost var here := State(entries[k..], homes, disabled);
        var still := entries[k].parent != w.id;
        if !still {
          still := ctx.Contains(entries[k].surface);
        }
        ghost var done := entries[..k];
        assert here.entries[1..] == entries[k + 1..];
        if still {
          rest := Sweep(Behind(here, w, keep), w, keep);
          assert done + ([entries[k]] + rest.entries) == entries[..k + 1] + rest.entries;
          k := k + 1;
        } else {
          DestroyEntry(k);
          assert entries[..k] == done && entries[k..] == here.entries[1..];
        }
      }
      assert entries[k..] == [] && entries[..k] == entries;
    }

    // wlx_window_sync_subpresents
    method SyncFor(e: Env, w: Win, shown: bool, surfs: seq<Surface>)
      modifies this
      ensures View() == Sync(e, old(View()), w, shown, surfs)
    {
      if !shown {
        DestroyFor(w);
        return;
      }
      var ctx := new SyncContext();
      Iterate(e, w, surfs, ctx);
      Demote(w, ctx, Keep(w, surfs));
    }

    // The surface iteration.
    method Iterate(e: Env, w: Win, surfs: seq<Surface>, ctx: SyncContext)
      requires ctx.Valid() && ctx.Kept() == []
      modifies this, ctx, ctx.keep
      ensures ctx.Valid() && forall id :: id in Keep(w, surfs) <==> id in ctx.Kept()
      ensures View() == TouchAll(e, old(View()), w, surfs)
    {
      var i := 0;
      assert surfs[0..] == surfs;
      while i < |surfs|
        invariant 0 <= i <= |surfs| && ctx.Valid() && (ctx.keep == old(ctx.keep) || fresh(ctx.keep))
        invariant forall id :: id in Keep(w, surfs) <==> id in ctx.Kept() || id in Keep(w, surfs[i..])
        invariant TouchAll(e, View(), w, surfs[i..]) == TouchAll(e, old(View()), w, surfs)
      {
        assert surfs[i..][1..] == surfs[i + 1..];
        KeepStep(w, surfs[i..]);
        SyncIterator(e, w, surfs[i], ctx);
        i := i + 1;
      }
      assert surfs[i..] == [];
      assert Keep(w, []) == {};
    }

    // A commit of a surface: the scene's listener, registered first, switches the copy on, then
    // subpresent_handle_surface_commit.
    method HandleCommit(e: Env, w: Win, surf: Surface)
      modifies this
      ensures View() == Step(old(View()), EvCommitted(e, w, surf))
    {
      disabled := disabled - {surf.id};
      var k := FindEntry(surf.id);
      if k < |entries| {
        PositionAndPresent(e, w, surf, k);
      }
    }

    // subpresent_handle_surface_destroy; the scene drops the copy as well.
    method HandleSurfaceDestroy(id: nat)
      modifies this
      ensures View() == Step(old(View()), EvSurfaceGone(id))
    {
      var k := FindEntry(id);
      if k < |entries| {
        DestroyEntry(k);
      }
      LeaveTree(id);
    }

    // subpresent_handle_xpresent_destroy
    method HandlePresentDestroy(id: nat)
      modifies this
      ensures View() == Step(old(View()), EvLost(id))
    {
      var k := FindEntry(id);
      if k < |entries| {
        SetSceneEnabled(entries[k], true);
        entries := entries[k := entries[k].(present := false)];
      }
    }

    // The subsurface is created: the scene makes a copy, switched on.
    method EnterTree(id: nat, window: nat)
      requires id !in homes
      modifies this`homes
      ensures View() == Step(old(View()), EvEntered(id, window))
    {
      homes := homes[id := window];
    }

    // The subsurface is destroyed: the scene destroys the copy.
    method LeaveTree(id: nat)
      modifies this`homes, this`disabled
      ensures View() == Left(old(View()), id)
    {
      homes := homes - {id};
      disabled := disabled - {id};
    }
  }
}

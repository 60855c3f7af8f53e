// The operations on colour transforms that change memory: reference counting with recursive
// destruction, pipelines, and composition with its two collecting passes.

module ColorHeap {
  import opened Color
  import opened ColorOwnership

  datatype Created = AssertFailed | NoMemory | Created(ptr: Ptr)

  // compose returns false when memory runs out; a failed assert ends the process.
  datatype Outcome = Aborted | OutOfMemory | Composed(result: Ptr)

  class Heap {
    var mem: Mem
    var next: nat

    // The references held outside memory.
    ghost var handles: multiset<Ptr>

    ghost predicate Valid()
      reads this
    {
      Owned(mem, next, handles)
    }

    constructor ()
      ensures Valid() && mem == map[] && handles == multiset{}
    {
      mem, next := map[], 1;
      handles := multiset{};
    }

    method InitLeaf(op: Op, ok: bool) returns (p: Ptr)
      requires Valid()
      modifies this
      ensures Valid()
      ensures !ok ==> p == NULL && mem == old(mem) && handles == old(handles)
      ensures ok ==> p !in old(mem) && p != NULL && mem == old(mem)[p := Obj(1, Leaf(op))]
                     && handles == old(handles) + multiset{p}
    {
      if !ok {
        return NULL;
      }
      NewLeaf(mem, next, handles, op);
      p := next;
      mem := mem[p := Obj(1, Leaf(op))];
      next := next + 1;
      handles := handles + multiset{p};
    }

    method Ref(p: Ptr)
      requires Valid() && p in mem
      modifies this
      ensures Valid() && next == old(next)
      ensures handles == old(handles) + multiset{p}
      ensures KindsOf(mem) == old(KindsOf(mem))
    {
      AddReference(mem, next, handles, p);
      mem := mem[p := mem[p].(refs := mem[p].refs + 1)];
      handles := handles + multiset{p};
      KindsKept(old(mem), mem);
    }

    // Gives up one handle, and frees exactly what no remaining handle can reach.
    method Unref(p: Ptr)
      requires Valid() && (p == NULL || p in handles)
      modifies this
      ensures Valid() && next == old(next)
      ensures handles == if p == NULL then old(handles) else old(handles) - multiset{p}
      ensures Shrunk(old(mem), mem) && FreedUnreachable(old(mem), mem, handles)
      decreases p, 2
    {
      hide Owned, Counted, FreedUnreachable;
      if p == NULL {
        NothingShrunk(mem);
      } else {
        DropHandle(mem, next, handles, p);
        mem := mem[p := mem[p].(refs := mem[p].refs - 1)];
        handles := handles - multiset{p};
        if mem[p].refs == 0 {
          Destroy(p);
        }
      }
      FreedExactly(old(mem), mem, next, handles);
    }

    // The source frees the record after its parts. Nothing refers to it any more, so it leaves
    // memory first here, and its references turn into handles that are given up one by one.
    method Destroy(p: Ptr)
      requires Counted(mem, next, handles)
      requires p in mem && mem[p].refs == 0
      requires forall q :: q in mem && q != p ==> mem[q].refs > 0
      modifies this
      ensures Valid() && next == old(next) && handles == old(handles)
      ensures Shrunk(old(mem) - {p}, mem)
      decreases p, 1
    {
      Retire(mem, next, handles, p);
      var parts := PartsOf(mem[p].kind);
      PartsAreOlder(mem, next, handles, p, parts);
      NonNullIsAll(parts);
      handles := handles + multiset(parts);
      mem := mem - {p};
      UnrefAll(parts, p);
    }

    // The loop that gives up an array of references, null pointers included.
    method UnrefAll(list: seq<Ptr>, ghost below: nat)
      requires Valid() && multiset(NonNull(list)) <= handles
      requires forall j :: 0 <= j < |list| ==> list[j] < below
      modifies this
      ensures Valid() && next == old(next)
      ensures handles == old(handles) - multiset(NonNull(list))
      ensures Shrunk(old(mem), mem)
      decreases below, 0
    {
      hide Owned, Counted, FreedUnreachable, Shrunk, NonNull;
      NothingShrunk(mem);
      NonNullOfNothing();
      ghost var kept := handles - multiset(NonNull(list));
      assert handles == kept + multiset(NonNull(list));
      assert list[0..] == list;
      var i := 0;
      while i < |list|
        invariant 0 <= i <= |list|
        invariant Valid() && next == old(next)
        invariant handles == kept + multiset(NonNull(list[i..]))
        invariant Shrunk(old(mem), mem)
      {
        ghost var m, rest := mem, multiset(NonNull(list[i + 1..]));
        NonNullStep(list, i);
        GiveOne(handles, kept, rest, list[i]);
        Unref(list[i]);
        ShrunkTwice(old(mem), m, mem);
        i := i + 1;
      }
      assert list[i..] == [];
    }

    // wlr_color_transform_init_pipeline: two allocations, then a reference on every part.
    method InitPipeline(list: seq<Ptr>, okCopy: bool, okObj: bool) returns (r: Created)
      requires Valid() && list != []
      requires forall p :: p in list ==> p == NULL || p in mem
      modifies this
      ensures r.NoMemory? <==> !(okCopy && okObj)
      ensures r.NoMemory? ==> mem == old(mem) && handles == old(handles) && Valid()
      ensures r.AssertFailed? <==> okCopy && okObj && NULL in list
      ensures r.Created? ==> Valid() && r.ptr !in old(mem) && r.ptr != NULL
      ensures r.Created? ==> KindsOf(mem) == old(KindsOf(mem))[r.ptr := Pipeline(list)]
      ensures r.Created? ==> handles == old(handles) + multiset{r.ptr}
    {
      hide Owned;
      if !okCopy || !okObj {
        return NoMemory;
      }
      FreshPointer(mem, next, handles);
      var ok := RefAll(list);
      if !ok {
        return AssertFailed;
      }
      ghost var k := KindsOf(mem);
      NewPipeline(mem, next, handles, list);
      r := Created(next);
      mem := mem[next := Obj(1, Pipeline(list))];
      next := next + 1;
      handles := handles - multiset(list) + multiset{r.ptr};
      assert KindsOf(mem) == k[r.ptr := Pipeline(list)];
    }

    // color_transform_compose, as written. It aborts exactly when some transform follows a
    // pipeline in the list. Otherwise the result is the composition, with one new handle on it,
    // and every reference taken on the way has been given back. When memory runs out after the
    // second pass, the references that overwriting lost are never given back: exactly on the
    // lists the code would have aborted on.
    method Compose(list: seq<Ptr>, okBuf: bool, okCopy: bool, okObj: bool) returns (out: Outcome)
      requires Valid() && Color.Valid(KindsOf(mem), list)
      modifies this
      ensures var k, f := old(KindsOf(mem)), Flatten(old(KindsOf(mem)), list);
              && (out.OutOfMemory? <==> f != [] && !(okBuf && (|f| == 1 || (okCopy && okObj))))
              && (out.Aborted? <==> !out.OutOfMemory? && !TailOnly(k, list))
      ensures !out.Aborted? ==> Valid()
      ensures out.OutOfMemory? ==>
                && KindsOf(mem) == old(KindsOf(mem))
                && (handles == old(handles) <==> !okBuf || TailOnly(old(KindsOf(mem)), list))
      ensures out.Composed? ==>
                && Shrunk(mem, old(mem))
                && ComposedOf(KindsOf(mem), out.result, Flatten(old(KindsOf(mem)), list))
                && handles == old(handles) + if out.result == NULL then multiset{} else multiset{out.result}
    {
      hide Owned, WellFormed, Flatten, Fill, TailOnly, NonNull, Shrunk, KindsOf, ComposedOf;
      OwnedIsWellFormed(mem, next, handles);
      ghost var k := KindsOf(mem);
      ghost var f := Flatten(k, list);
      CollectedAgain(k, list);
      var none := new Ptr[0];
      var n := Collect(none, 0, 0, list);
      if n == 0 {
        NothingComposed(KindsOf(mem), f);
        SameKinds(old(mem), mem, mem);
        return Composed(NULL);
      }
      if !okBuf {
        return OutOfMemory;
      }
      var buf := new Ptr[n](_ => NULL);
      assert buf[..] == seq(n, _ => NULL);
      var _ := Collect(buf, 0, n, list);
      assert buf[..] == Collected(k, list);
      out := ComposeCollected(buf[..], okCopy, okObj, f, TailOnly(k, list), old(mem), old(next), old(handles));
    }

    // The second half of compose, on the collected buffer; m0, next0 and h0 are from before it.
    method ComposeCollected(c: seq<Ptr>, okCopy: bool, okObj: bool, ghost f: seq<Ptr>, ghost tail: bool,
                            ghost m0: Mem, ghost next0: nat, ghost h0: multiset<Ptr>)
      returns (out: Outcome)
      requires Valid() && Owned(m0, next0, h0) && KindsOf(mem) == KindsOf(m0) && handles == h0 + multiset(f)
      requires c != [] && |c| == |f| && Color.Valid(KindsOf(mem), c) && multiset(NonNull(c)) <= multiset(f)
      requires (tail ==> c == f && NonNull(c) == f) && (|f| <= 1 ==> tail) && (NULL !in c <==> tail)
      modifies this
      ensures out.OutOfMemory? <==> |f| != 1 && !(okCopy && okObj)
      ensures out.Aborted? <==> !out.OutOfMemory? && !tail
      ensures !out.Aborted? ==> Valid()
      ensures out.OutOfMemory? ==> KindsOf(mem) == KindsOf(m0) && (handles == h0 <==> tail)
      ensures out.Composed? ==> Shrunk(mem, m0) && out.result != NULL
                                && ComposedOf(KindsOf(mem), out.result, f) && handles == h0 + multiset{out.result}
    {
      hide Owned, NonNull, Shrunk, KindsOf, ComposedOf;
      ghost var m := mem;
      SameKinds(m0, m, m);
      assert |c| == 1 ==> c[0] in c;
      var r := Wrap(c, okCopy, okObj);
      if r.AssertFailed? {
        return Aborted;
      }
      ghost var m1 := mem;
      ShrunkTwice(mem, m, m0);
      GiveBack(c, m0, next0, h0);
      if r.NoMemory? {
        SameKinds(m0, m1, mem);
        if !tail {
          SomeAreLost(c, f, h0);
        }
        return OutOfMemory;
      }
      StillComposed(m1, mem, r.ptr, f);
      return Composed(r.ptr);
    }

    // A single transform is shared, several become a pipeline.
    method Wrap(list: seq<Ptr>, okCopy: bool, okObj: bool) returns (r: Created)
      requires Valid() && list != [] && Color.Valid(KindsOf(mem), list)
      requires |list| == 1 ==> list[0] != NULL
      modifies this
      ensures r.NoMemory? <==> |list| != 1 && !(okCopy && okObj)
      ensures r.AssertFailed? <==> |list| != 1 && okCopy && okObj && NULL in list
      ensures !r.AssertFailed? ==> Valid() && Shrunk(mem, old(mem))
      ensures r.NoMemory? ==> mem == old(mem) && handles == old(handles)
      ensures r.Created? ==> r.ptr != NULL && handles == old(handles) + multiset{r.ptr} && ComposedOf(KindsOf(mem), r.ptr, list)
    {
      hide Owned;
      if |list| == 1 {
        assert list[0] in list;
        Ref(list[0]);
        return Created(list[0]);
      }
      r := InitPipeline(list, okCopy, okObj);
      assert r.Created? ==> forall p :: p in old(KindsOf(mem)) ==> KindsOf(mem)[p] == old(KindsOf(mem))[p];
    }

    // The cleanup loop of compose: what was alive before it took its references stays alive.
    method GiveBack(list: seq<Ptr>, ghost m0: Mem, ghost next0: nat, ghost h0: multiset<Ptr>)
      requires Valid() && Owned(m0, next0, h0)
      requires h0 + multiset(NonNull(list)) <= handles
      requires Shrunk(mem, m0)
      modifies this
      ensures Valid() && handles == old(handles) - multiset(NonNull(list))
      ensures Shrunk(old(mem), mem)
      ensures Shrunk(mem, m0)
      ensures forall p :: p in handles ==> p in mem
    {
      hide Owned;
      HeldAreOlder(mem, next, handles, list);
      UnrefAll(list, next);
      HandlesAreAlive(mem, next, handles);
      OldOnesSurvive(m0, next0, h0, old(mem), mem, next, handles);
    }

    // Takes a reference on every part; false stands for the failed assert on a null pointer.
    method RefAll(list: seq<Ptr>) returns (ok: bool)
      requires Valid()
      requires forall p :: p in list ==> p == NULL || p in mem
      modifies this
      ensures ok <==> NULL !in list
      ensures ok ==> Valid() && next == old(next) && KindsOf(mem) == old(KindsOf(mem))
                     && handles == old(handles) + multiset(list)
    {
      hide Owned;
      ghost var k := KindsOf(mem);
      var i := 0;
      while i < |list|
        invariant 0 <= i <= |list|
        invariant Valid() && next == old(next) && KindsOf(mem) == k
        invariant handles == old(handles) + multiset(list[..i])
        invariant NULL !in list[..i]
      {
        if list[i] == NULL {
          return false;
        }
        assert list[..i + 1] == list[..i] + [list[i]];
        assert list[i] in k;
        Ref(list[i]);
        i := i + 1;
      }
      assert list[..i] == list;
      return true;
    }

    // color_transform_compose_collect, as written: the cursor into buf is not advanced past
    // what a nested pipeline writes. With no capacity it only counts.
    method Collect(buf: array<Ptr>, off: nat, cap: nat, list: seq<Ptr>) returns (count: nat)
      requires Valid() && Color.Valid(KindsOf(mem), list)
      requires off + cap <= buf.Length
      requires cap == 0 || |Flatten(KindsOf(mem), list)| <= cap
      modifies this, buf
      ensures Valid() && next == old(next) && KindsOf(mem) == old(KindsOf(mem))
      ensures count == |Flatten(KindsOf(mem), list)|
      ensures buf[..] == Fill(KindsOf(mem), old(buf[..]), off, cap, list)
      ensures handles == old(handles) + Taken(cap, Flatten(KindsOf(mem), list))
      decreases Top(list), 1
    {
      hide Owned, WellFormed, Flatten, Fill, Entry, FillEntry, Taken, Top;
      OwnedIsWellFormed(mem, next, handles);
      ghost var k, all := KindsOf(mem), Flatten(KindsOf(mem), list);
      ghost var goal := Fill(k, buf[..], off, cap, list);
      NothingLeft(k);
      NothingTaken(cap);
      count := 0;
      var o: nat, c: nat := off, cap;
      assert list[0..] == list;
      var i := 0;
      while i < |list|
        invariant 0 <= i <= |list| && o + c == off + cap && c <= cap
        invariant Valid() && next == old(next) && KindsOf(mem) == k
        invariant Color.Valid(k, list[i..])
        invariant count + |Flatten(k, list[i..])| == |all|
        invariant cap == 0 || |Flatten(k, list[i..])| <= c
        invariant Fill(k, buf[..], o, c, list[i..]) == goal
        invariant handles + Taken(cap, Flatten(k, list[i..])) == old(handles) + Taken(cap, all)
      {
        var p := list[i];
        FlattenStep(k, list, i);
        FillStep(k, buf[..], o, c, list, i);
        TakenAppend(cap, c, Entry(k, p), Flatten(k, list[i + 1..]));
        ghost var before := buf[..];
        var n, step := CollectEntry(buf, o, c, p);
        assert buf[..] == FillEntry(k, before, o, c, p);
        count, o, c := count + n, o + step, c - step;
        i := i + 1;
      }
      assert list[i..] == [];
    }

    // One turn of the loop: what the entry adds to the count, and how far the cursor moves.
    method CollectEntry(buf: array<Ptr>, off: nat, cap: nat, p: Ptr) returns (n: nat, step: nat)
      requires Valid() && (p == NULL || p in KindsOf(mem))
      requires off + cap <= buf.Length
      requires cap == 0 || |Entry(KindsOf(mem), p)| <= cap
      modifies this, buf
      ensures Valid() && next == old(next) && KindsOf(mem) == old(KindsOf(mem))
      ensures n == |Entry(KindsOf(mem), p)|
      ensures step <= n
      ensures step == if p != NULL && KindsOf(mem)[p].Leaf? && cap > 0 then 1 else 0
      ensures buf[..] == FillEntry(KindsOf(mem), old(buf[..]), off, cap, p)
      ensures handles == old(handles) + Taken(cap, Entry(KindsOf(mem), p))
      decreases p, 0
    {
      n, step := 0, 0;
      if p == NULL {
        return;
      }
      ghost var k := KindsOf(mem);
      if mem[p].kind.Pipeline? {
        assert k[p] == mem[p].kind && WellBuilt(k, p);
        n := Collect(buf, off, cap, mem[p].kind.parts);
      } else {
        if cap > 0 {
          Ref(p);
          buf[off] := p;
          step := 1;
        }
        n := 1;
      }
    }
  }

  // Without capacity no reference is taken.
  ghost function Taken(cap: nat, list: seq<Ptr>): multiset<Ptr> {
    if cap == 0 then multiset{} else multiset(list)
  }

  lemma NothingTaken(cap: nat)
    ensures Taken(cap, []) == multiset{}
  {
  }

  // c is the capacity left when a is collected.
  lemma TakenAppend(cap: nat, c: nat, a: seq<Ptr>, b: seq<Ptr>)
    requires c <= cap && (cap == 0 || |a + b| <= c)
    ensures Taken(cap, a + b) == Taken(c, a) + Taken(cap, b)
  {
  }
}

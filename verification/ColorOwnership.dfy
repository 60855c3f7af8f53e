// Who keeps a colour transform alive. The count of a transform is the number of handles on it
// plus the number of times it occurs in live pipelines.
// subprojects/wlroots/render/color.c:75-141.

module ColorOwnership {
  import opened Color

  datatype Obj = Obj(refs: int, kind: Kind)

  type Mem = map<Ptr, Obj>

  function KindsOf(m: Mem): (k: Kinds)
    ensures k.Keys == m.Keys
  {
    map p | p in m :: m[p].kind
  }

  function PartsOf(k: Kind): seq<Ptr> {
    if k.Pipeline? then k.parts else []
  }

  function NonNull(list: seq<Ptr>): seq<Ptr> {
    if list == [] then []
    else (if list[0] == NULL then [] else [list[0]]) + NonNull(list[1..])
  }

  lemma NonNullOfNothing()
    ensures NonNull([]) == []
  {
  }

  lemma NonNullStep(list: seq<Ptr>, i: nat)
    requires i < |list|
    ensures multiset(NonNull(list[i..])) ==
              (if list[i] == NULL then multiset{} else multiset{list[i]}) + multiset(NonNull(list[i + 1..]))
  {
    assert list[i..][1..] == list[i + 1..];
  }

  lemma GiveOne(handles: multiset<Ptr>, kept: multiset<Ptr>, rest: multiset<Ptr>, p: Ptr)
    requires handles == kept + ((if p == NULL then multiset{} else multiset{p}) + rest)
    ensures p == NULL ==> handles == kept + rest
    ensures p != NULL ==> p in handles && handles - multiset{p} == kept + rest
  {
  }

  lemma {:induction false} NonNullIsAll(list: seq<Ptr>)
    requires forall j :: 0 <= j < |list| ==> list[j] != NULL
    ensures NonNull(list) == list
  {
    if list != [] {
      NonNullIsAll(list[1..]);
    }
  }

  lemma {:induction false} NonNullIsShorter(list: seq<Ptr>)
    ensures |NonNull(list)| <= |list|
    ensures NULL in list ==> |NonNull(list)| < |list|
  {
    if list != [] {
      NonNullIsShorter(list[1..]);
    }
  }

  // What overwriting lost is not given back.
  lemma SomeAreLost(c: seq<Ptr>, f: seq<Ptr>, h: multiset<Ptr>)
    requires NULL in c && |c| == |f| && multiset(NonNull(c)) <= multiset(f)
    ensures h + multiset(f) - multiset(NonNull(c)) != h
  {
    NonNullIsShorter(c);
    assert |h + multiset(f) - multiset(NonNull(c))| == |h| + |f| - |NonNull(c)|;
  }

  lemma {:induction false} NonNullCounts(list: seq<Ptr>, x: Ptr)
    ensures multiset(NonNull(list))[x] == if x == NULL then 0 else multiset(list)[x]
  {
    if list != [] {
      assert list == [list[0]] + list[1..];
      NonNullCounts(list[1..], x);
    }
  }

  // The buffer holds nothing but null pointers and references the pass took.
  lemma CollectedAreTaken(k: Kinds, list: seq<Ptr>)
    requires WellFormed(k) && Valid(k, list)
    ensures var f, c := Flatten(k, list), Collected(k, list);
            && (forall x :: x in c ==> x == NULL || x in f)
            && multiset(NonNull(c)) <= multiset(f)
  {
    hide WellFormed, Valid, Flatten, Fill, NonNull;
    var f, c := Flatten(k, list), Collected(k, list);
    var zero := seq(|f|, _ => NULL);
    FillAddsOnlyLeaves(k, zero, 0, |f|, list);
    forall x
      ensures multiset(NonNull(c))[x] <= multiset(f)[x]
      ensures x in c ==> x == NULL || x in f
    {
      NonNullCounts(c, x);
      if x != NULL {
        assert x !in zero;
        assert multiset(zero)[x] == 0;
      }
    }
  }

  // What compose needs to know about its buffer after the second pass.
  lemma CollectedAgain(k: Kinds, list: seq<Ptr>)
    requires WellFormed(k) && Valid(k, list)
    ensures var f, c := Flatten(k, list), Collected(k, list);
            && Valid(k, c)
            && multiset(NonNull(c)) <= multiset(f)
            && (TailOnly(k, list) ==> c == f && NonNull(c) == f)
            && (|f| <= 1 ==> TailOnly(k, list))
            && (NULL !in c <==> TailOnly(k, list))
  {
    hide WellFormed, Flatten, Fill, NonNull, TailOnly, Collected;
    var f := Flatten(k, list);
    CollectsExactly(k, list);
    FlattenGivesLeaves(k, list);
    CollectedAreTaken(k, list);
    if TailOnly(k, list) {
      NonNullIsAll(f);
    }
    if |f| <= 1 {
      SingleIsTailOnly(k, list);
    }
  }

  // How often o holds x.
  function Uses(o: Obj, x: Ptr): nat {
    multiset(PartsOf(o.kind))[x]
  }

  // How often the transforms below n hold x.
  function Occurrences(m: Mem, n: nat, x: Ptr): nat {
    if n == 0 then 0
    else Occurrences(m, n - 1, x) + if n - 1 in m then Uses(m[n - 1], x) else 0
  }

  // handles is the multiset of references held outside memory.
  ghost predicate Counted(m: Mem, next: nat, handles: multiset<Ptr>) {
    && WellFormed(KindsOf(m))
    && next > 0
    && (forall p :: p in m ==> p < next && m[p].refs == handles[p] + Occurrences(m, next, p))
    && (forall p :: p in handles ==> p in m)
  }

  ghost predicate Owned(m: Mem, next: nat, handles: multiset<Ptr>) {
    Counted(m, next, handles) && forall p :: p in m ==> m[p].refs > 0
  }

  // ---- Counting occurrences ----

  lemma {:induction false} OccurrencesSame(m: Mem, m': Mem, n: nat, x: Ptr)
    requires forall i: nat :: i < n ==> (i in m <==> i in m') && (i in m ==> m'[i].kind == m[i].kind)
    ensures Occurrences(m', n, x) == Occurrences(m, n, x)
  {
    if n > 0 {
      OccurrencesSame(m, m', n - 1, x);
    }
  }

  lemma {:induction false} OccurrencesRemove(m: Mem, n: nat, d: Ptr, x: Ptr)
    requires d in m && d < n
    ensures Occurrences(m, n, x) == Occurrences(m - {d}, n, x) + Uses(m[d], x)
  {
    if n - 1 == d {
      OccurrencesSame(m, m - {d}, n - 1, x);
    } else {
      OccurrencesRemove(m, n - 1, d, x);
    }
  }

  lemma {:induction false} OccurrencesUser(m: Mem, n: nat, x: Ptr) returns (user: Ptr)
    requires Occurrences(m, n, x) > 0
    ensures user in m && user < n && Uses(m[user], x) > 0
  {
    if n - 1 in m && Uses(m[n - 1], x) > 0 {
      user := n - 1;
    } else {
      user := OccurrencesUser(m, n - 1, x);
    }
  }

  lemma {:induction false} OccurrencesZero(m: Mem, n: nat, x: Ptr)
    requires forall i :: i in m ==> Uses(m[i], x) == 0
    ensures Occurrences(m, n, x) == 0
  {
    if n > 0 {
      OccurrencesZero(m, n - 1, x);
    }
  }

  lemma KindsKept(m: Mem, m': Mem)
    requires m'.Keys == m.Keys && forall p :: p in m ==> m'[p].kind == m[p].kind
    ensures KindsOf(m') == KindsOf(m)
  {
  }

  // ---- The four ways memory changes ----

  lemma AddReference(m: Mem, next: nat, handles: multiset<Ptr>, x: Ptr)
    requires Counted(m, next, handles) && x in m
    ensures Counted(m[x := m[x].(refs := m[x].refs + 1)], next, handles + multiset{x})
  {
    var m' := m[x := m[x].(refs := m[x].refs + 1)];
    KindsKept(m, m');
    forall p | p in m'
      ensures m'[p].refs == (handles + multiset{x})[p] + Occurrences(m', next, p)
    {
      OccurrencesSame(m, m', next, p);
    }
  }

  lemma DropReference(m: Mem, next: nat, handles: multiset<Ptr>, x: Ptr)
    requires Counted(m, next, handles) && x in handles
    ensures m[x].refs > 0
    ensures Counted(m[x := m[x].(refs := m[x].refs - 1)], next, handles - multiset{x})
  {
    var m' := m[x := m[x].(refs := m[x].refs - 1)];
    KindsKept(m, m');
    forall p | p in m'
      ensures m'[p].refs == (handles - multiset{x})[p] + Occurrences(m', next, p)
    {
      OccurrencesSame(m, m', next, p);
    }
  }

  lemma PartsAreOlder(m: Mem, next: nat, handles: multiset<Ptr>, d: Ptr, parts: seq<Ptr>)
    requires Counted(m, next, handles) && d in m && parts == PartsOf(m[d].kind)
    ensures forall j :: 0 <= j < |parts| ==> 0 < parts[j] < d
  {
    var k := KindsOf(m);
    if k[d].Pipeline? {
      assert WellBuilt(k, d);
      assert forall j :: 0 <= j < |parts| ==> parts[j] in k[d].parts;
    }
  }

  lemma DropHandle(m: Mem, next: nat, handles: multiset<Ptr>, x: Ptr)
    requires Owned(m, next, handles) && x in handles
    ensures x in m
    ensures var m' := m[x := m[x].(refs := m[x].refs - 1)];
            && Counted(m', next, handles - multiset{x})
            && (m'[x].refs != 0 ==> Owned(m', next, handles - multiset{x}))
            && (forall q :: q in m' && q != x ==> m'[q].refs > 0)
            && Shrunk(m, m')
  {
    DropReference(m, next, handles, x);
  }

  // A transform nobody holds can go; what it held becomes a set of handles to give up.
  lemma Retire(m: Mem, next: nat, handles: multiset<Ptr>, d: Ptr)
    requires Counted(m, next, handles) && d in m && m[d].refs == 0
    requires forall q :: q in m && q != d ==> m[q].refs > 0
    ensures Owned(m - {d}, next, handles + multiset(PartsOf(m[d].kind)))
  {
    var m', parts := m - {d}, PartsOf(m[d].kind);
    var k, k' := KindsOf(m), KindsOf(m');
    assert k[d] == m[d].kind;
    forall i | i in k' && k'[i].Pipeline?
      ensures WellBuilt(k', i)
    {
      assert k[i] == k'[i] && WellBuilt(k, i);
      OccurrencesRemove(m, next, i, d);
      assert Uses(m[i], d) == 0;
      assert d !in k'[i].parts;
    }
    forall p | p in m'
      ensures m'[p].refs == (handles + multiset(parts))[p] + Occurrences(m', next, p)
    {
      OccurrencesRemove(m, next, d, p);
    }
  }

  lemma OwnedIsWellFormed(m: Mem, next: nat, handles: multiset<Ptr>)
    requires Owned(m, next, handles)
    ensures WellFormed(KindsOf(m))
  {
  }

  lemma HeldAreOlder(m: Mem, next: nat, handles: multiset<Ptr>, list: seq<Ptr>)
    requires Owned(m, next, handles) && multiset(NonNull(list)) <= handles
    ensures forall j :: 0 <= j < |list| ==> list[j] < next
  {
    forall j | 0 <= j < |list|
      ensures list[j] < next
    {
      NonNullCounts(list, list[j]);
      assert list[j] in list;
    }
  }

  lemma HandlesAreAlive(m: Mem, next: nat, handles: multiset<Ptr>)
    requires Owned(m, next, handles)
    ensures forall p :: p in handles ==> p in m
  {
  }

  lemma FreshPointer(m: Mem, next: nat, handles: multiset<Ptr>)
    requires Owned(m, next, handles)
    ensures next != NULL && next !in m
  {
  }

  lemma NewLeaf(m: Mem, next: nat, handles: multiset<Ptr>, op: Op)
    requires Counted(m, next, handles)
    ensures Counted(m[next := Obj(1, Leaf(op))], next + 1, handles + multiset{next})
  {
    NewObject(m, next, handles, Leaf(op), multiset{});
  }

  lemma NewPipeline(m: Mem, next: nat, handles: multiset<Ptr>, parts: seq<Ptr>)
    requires Owned(m, next, handles) && parts != [] && multiset(parts) <= handles
    ensures Owned(m[next := Obj(1, Pipeline(parts))], next + 1, handles - multiset(parts) + multiset{next})
  {
    assert forall p :: p in parts ==> p in multiset(parts);
    NewObject(m, next, handles, Pipeline(parts), multiset(parts));
  }

  // A new transform takes over the references it is built from.
  lemma NewObject(m: Mem, next: nat, handles: multiset<Ptr>, kind: Kind, taken: multiset<Ptr>)
    requires Counted(m, next, handles) && taken <= handles && taken == multiset(PartsOf(kind))
    requires kind.Pipeline? ==> kind.parts != [] && forall p :: p in kind.parts ==> p in m
    ensures Counted(m[next := Obj(1, kind)], next + 1, handles - taken + multiset{next})
  {
    var m' := m[next := Obj(1, kind)];
    var h' := handles - taken + multiset{next};
    NewIsWellFormed(m, next, handles, kind);
    forall p | p in m'
      ensures m'[p].refs == h'[p] + Occurrences(m', next + 1, p)
    {
      OccurrencesSame(m, m', next, p);
      if p == next {
        NobodyHoldsNew(m, next, handles);
      }
    }
  }

  lemma NewIsWellFormed(m: Mem, next: nat, handles: multiset<Ptr>, kind: Kind)
    requires Counted(m, next, handles)
    requires kind.Pipeline? ==> kind.parts != [] && forall p :: p in kind.parts ==> p in m
    ensures WellFormed(KindsOf(m[next := Obj(1, kind)]))
  {
    var k, k' := KindsOf(m), KindsOf(m[next := Obj(1, kind)]);
    forall i | i in k' && k'[i].Pipeline?
      ensures WellBuilt(k', i)
    {
      if i != next {
        assert k[i] == k'[i] && WellBuilt(k, i);
      }
    }
  }

  lemma NobodyHoldsNew(m: Mem, next: nat, handles: multiset<Ptr>)
    requires Counted(m, next, handles)
    ensures Occurrences(m, next, next) == 0
  {
    var k := KindsOf(m);
    forall i | i in m
      ensures Uses(m[i], next) == 0
    {
      if k[i].Pipeline? {
        assert WellBuilt(k, i);
        assert next !in k[i].parts;
      }
    }
    OccurrencesZero(m, next, next);
  }

  // ---- Reachability ----

  // path leads from a handle, along pipelines, to its last element.
  ghost predicate Holds(m: Mem, handles: multiset<Ptr>, path: seq<Ptr>) {
    && path != [] && path[0] in handles
    && (forall i :: 0 <= i < |path| ==> path[i] in m)
    && forall i :: 0 <= i < |path| - 1 ==> path[i + 1] in PartsOf(m[path[i]].kind)
  }

  ghost predicate Reachable(m: Mem, handles: multiset<Ptr>, x: Ptr) {
    exists path :: Holds(m, handles, path) && path[|path|-1] == x
  }

  // No leak: under the counting discipline everything alive is held, directly or through
  // pipelines, by a handle.
  lemma {:induction false} AliveIsReachable(m: Mem, next: nat, handles: multiset<Ptr>, x: Ptr)
    requires Owned(m, next, handles) && x in m
    ensures Reachable(m, handles, x)
    decreases next - x
  {
    if x in handles {
      assert Holds(m, handles, [x]);
      assert [x][|[x]|-1] == x;
    } else {
      var user := OccurrencesUser(m, next, x);
      var k := KindsOf(m);
      assert k[user] == m[user].kind && k[user].Pipeline? && WellBuilt(k, user);
      assert x in PartsOf(m[user].kind);
      AliveIsReachable(m, next, handles, user);
      var path :| Holds(m, handles, path) && path[|path|-1] == user;
      var longer := path + [x];
      assert Holds(m, handles, longer);
      assert longer[|longer|-1] == x;
    }
  }

  ghost predicate Shrunk(m: Mem, m': Mem) {
    forall p :: p in m' ==> p in m && m'[p].kind == m[p].kind
  }

  lemma NothingShrunk(m: Mem)
    ensures Shrunk(m, m)
  {
  }

  lemma ShrunkTwice(a: Mem, b: Mem, c: Mem)
    requires Shrunk(a, b) && Shrunk(b, c)
    ensures Shrunk(a, c)
  {
  }

  lemma {:induction false} PathSurvives(m: Mem, m': Mem, next: nat, handles: multiset<Ptr>, path: seq<Ptr>)
    requires Counted(m', next, handles) && Shrunk(m, m') && Holds(m, handles, path)
    ensures Holds(m', handles, path)
  {
    if |path| > 1 {
      var shorter := path[..|path|-1];
      PathSurvives(m, m', next, handles, shorter);
      var p := shorter[|shorter|-1];
      assert p in m' && path[|path|-1] in PartsOf(m'[p].kind);
      var k := KindsOf(m');
      assert k[p] == m'[p].kind && k[p].Pipeline? && WellBuilt(k, p);
    }
  }

  ghost predicate FreedUnreachable(m: Mem, m': Mem, handles: multiset<Ptr>) {
    forall x :: x in m ==> (x in m' <==> Reachable(m, handles, x))
  }

  // If memory only shrank and is again correctly counted, then what is gone is exactly what
  // the remaining handles could not reach.
  lemma FreedExactly(m: Mem, m': Mem, next: nat, handles: multiset<Ptr>)
    requires Owned(m', next, handles) && Shrunk(m, m')
    ensures FreedUnreachable(m, m', handles)
  {
    forall x | x in m
      ensures x in m' <==> Reachable(m, handles, x)
    {
      if x in m' {
        AliveIsReachable(m', next, handles, x);
        var path :| Holds(m', handles, path) && path[|path|-1] == x;
        assert Holds(m, handles, path);
      }
      if Reachable(m, handles, x) {
        var path :| Holds(m, handles, path) && path[|path|-1] == x;
        PathSurvives(m, m', next, handles, path);
      }
    }
  }

  lemma SameKinds(m0: Mem, m1: Mem, m2: Mem)
    requires KindsOf(m1) == KindsOf(m0)
    ensures Shrunk(m1, m0)
    ensures Shrunk(m1, m2) && Shrunk(m2, m0) ==> KindsOf(m2) == KindsOf(m0)
  {
    assert m0.Keys == m1.Keys;
    forall p | p in m0
      ensures m1[p].kind == m0[p].kind
    {
      assert KindsOf(m1)[p] == KindsOf(m0)[p];
    }
    if Shrunk(m1, m2) && Shrunk(m2, m0) {
      assert m2.Keys == m0.Keys;
    }
  }

  lemma StillComposed(m1: Mem, m2: Mem, r: Ptr, f: seq<Ptr>)
    requires ComposedOf(KindsOf(m1), r, f) && r in m2 && Shrunk(m1, m2)
    ensures ComposedOf(KindsOf(m2), r, f)
  {
  }

  lemma NothingComposed(k: Kinds, f: seq<Ptr>)
    requires f == []
    ensures ComposedOf(k, NULL, f)
  {
  }

  // Giving up references taken in between frees nothing that was alive before.
  lemma OldOnesSurvive(m0: Mem, next0: nat, h0: multiset<Ptr>, m1: Mem, m2: Mem, next2: nat, h2: multiset<Ptr>)
    requires Owned(m0, next0, h0) && Owned(m2, next2, h2)
    requires Shrunk(m1, m0) && Shrunk(m1, m2) && h0 <= h2
    ensures Shrunk(m2, m0)
  {
    forall p | p in m0
      ensures p in m2 && m2[p].kind == m0[p].kind
    {
      AliveIsReachable(m0, next0, h0, p);
      var path :| Holds(m0, h0, path) && path[|path|-1] == p;
      assert Holds(m1, h2, path);
      PathSurvives(m1, m2, next2, h2, path);
    }
  }

  // What the result of compose means in the memory it leaves behind.
  lemma ComposedMeaning(m0: Mem, next0: nat, h0: multiset<Ptr>, m1: Mem, next1: nat, h1: multiset<Ptr>,
                        ops: (Op, Rgb) -> Rgb, list: seq<Ptr>, r: Ptr, v: Rgb)
    requires Owned(m0, next0, h0) && Owned(m1, next1, h1) && Shrunk(m1, m0)
    requires Color.Valid(KindsOf(m0), list) && ComposedOf(KindsOf(m1), r, Flatten(KindsOf(m0), list))
    ensures r == NULL || r in m1
    ensures Eval(KindsOf(m1), ops, r, v) == EvalList(KindsOf(m0), ops, list, v)
    ensures Normal(KindsOf(m1), r)
    ensures r == NULL <==> AllNull(list)
  {
    CompositionPreservesMeaning(KindsOf(m0), KindsOf(m1), ops, list, r, v);
  }
}

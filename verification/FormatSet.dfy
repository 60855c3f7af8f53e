// Sets of DRM formats with modifiers: what the operations mean as set algebra on
// (format, modifier) pairs. The arrays that carry them are in FormatArrays.dfy.
// subprojects/wlroots/render/drm_format_set.c.

module FormatSet {

  // One format with its modifiers, in the order they were added.
  datatype Entry = Entry(format: nat, mods: seq<nat>)

  predicate Distinct(s: seq<nat>) {
    forall i, j :: 0 <= i < j < |s| ==> s[i] != s[j]
  }

  // Formats distinct, and the modifiers of each format distinct.
  predicate WellFormed(v: seq<Entry>) {
    && (forall i, j :: 0 <= i < j < |v| ==> v[i].format != v[j].format)
    && (forall i :: 0 <= i < |v| ==> Distinct(v[i].mods))
  }

  // The position of format f, or |v|.
  function Find(v: seq<Entry>, f: nat): (k: nat)
    ensures k <= |v|
    ensures k < |v| ==> v[k].format == f
    ensures forall j :: 0 <= j < k ==> v[j].format != f
  {
    if v == [] || v[0].format == f then 0
    else
      var k := Find(v[1..], f);
      assert forall j :: 1 <= j < |v| ==> v[1..][j - 1] == v[j];
      k + 1
  }

  // The position of modifier m, or |ms|.
  function IndexOf(ms: seq<nat>, m: nat): (k: nat)
    ensures k <= |ms|
    ensures k < |ms| ==> ms[k] == m
    ensures forall j :: 0 <= j < k ==> ms[j] != m
    ensures k < |ms| <==> m in ms
  {
    if ms == [] || ms[0] == m then 0 else 1 + IndexOf(ms[1..], m)
  }

  predicate Has(v: seq<Entry>, f: nat, m: nat) {
    var k := Find(v, f);
    k < |v| && m in v[k].mods
  }

  // ---- The operations on values ----

  function AddMod(ms: seq<nat>, m: nat): seq<nat> {
    if m in ms then ms else ms + [m]
  }

  function Add(v: seq<Entry>, f: nat, m: nat): seq<Entry> {
    var k := Find(v, f);
    if k < |v| then v[k := Entry(f, AddMod(v[k].mods, m))] else v + [Entry(f, [m])]
  }

  function RemoveMod(ms: seq<nat>, m: nat): seq<nat> {
    var k := IndexOf(ms, m);
    if k < |ms| then ms[..k] + ms[k + 1..] else ms
  }

  function Remove(v: seq<Entry>, f: nat, m: nat): seq<Entry> {
    var k := Find(v, f);
    if k < |v| then v[k := Entry(f, RemoveMod(v[k].mods, m))] else v
  }

  function Common(a: seq<nat>, b: seq<nat>): (c: seq<nat>)
    ensures |c| <= |a|
  {
    if a == [] then []
    else Common(a[..|a| - 1], b) + if a[|a| - 1] in b then [a[|a| - 1]] else []
  }

  // What one entry of a contributes: nothing when no modifier is left.
  function Shared(x: Entry, b: seq<Entry>): seq<Entry> {
    var k := Find(b, x.format);
    if k < |b| && Common(x.mods, b[k].mods) != [] then [Entry(x.format, Common(x.mods, b[k].mods))] else []
  }

  function Intersect(a: seq<Entry>, b: seq<Entry>): seq<Entry> {
    if a == [] then [] else Intersect(a[..|a| - 1], b) + Shared(a[|a| - 1], b)
  }

  function AddAll(v: seq<Entry>, f: nat, ms: seq<nat>): seq<Entry> {
    if ms == [] then v else Add(AddAll(v, f, ms[..|ms| - 1]), f, ms[|ms| - 1])
  }

  function Extend(v: seq<Entry>, src: seq<Entry>): seq<Entry> {
    if src == [] then v
    else AddAll(Extend(v, src[..|src| - 1]), src[|src| - 1].format, src[|src| - 1].mods)
  }

  function Union(a: seq<Entry>, b: seq<Entry>): seq<Entry> {
    Extend(Extend([], a), b)
  }

  // ---- Adding and removing one pair ----

  lemma FoundAt(v: seq<Entry>, k: nat)
    requires WellFormed(v) && k < |v|
    ensures Find(v, v[k].format) == k
  {
  }

  // The set after adding holds the pairs it held and the new one; nothing is ever doubled.
  lemma AddExact(v: seq<Entry>, f: nat, m: nat)
    requires WellFormed(v)
    ensures WellFormed(Add(v, f, m))
    ensures forall g, n :: Has(Add(v, f, m), g, n) <==> Has(v, g, n) || (g == f && n == m)
  {
    var k, w := Find(v, f), Add(v, f, m);
    forall g
      ensures Find(w, g) == if k == |v| && g == f then |v| else if Find(v, g) < |v| then Find(v, g) else |w|
    {
      if k < |v| {
        FindUpdate(v, k, w[k], g);
      } else {
        FindAppend(v, [Entry(f, [m])], g);
      }
    }
    AddKeepsWellFormed(v, f, m);
  }

  lemma AddKeepsWellFormed(v: seq<Entry>, f: nat, m: nat)
    requires WellFormed(v)
    ensures WellFormed(Add(v, f, m))
  {
    var k := Find(v, f);
    if k == |v| {
      AppendWellFormed(v, Entry(f, [m]));
    }
  }

  lemma FindUpdate(v: seq<Entry>, k: nat, x: Entry, g: nat)
    requires k < |v| && x.format == v[k].format
    ensures Find(v[k := x], g) == Find(v, g)
  {
    var i, j := Find(v, g), Find(v[k := x], g);
    assert i < |v| ==> v[k := x][i].format == g;
    assert j < |v| ==> v[j].format == g;
  }

  // Cutting position k out of a list without repetitions takes out its member and nothing else.
  lemma CutExact(s: seq<nat>, k: nat)
    requires k < |s| && Distinct(s)
    ensures Distinct(s[..k] + s[k + 1..])
    ensures forall n :: n in s[..k] + s[k + 1..] <==> n in s && n != s[k]
  {
    var r := s[..k] + s[k + 1..];
    assert forall j :: 0 <= j < |r| ==> r[j] == s[if j < k then j else j + 1];
    forall n
      ensures n in r <==> n in s && n != s[k]
    {
      if n in s && n != s[k] {
        CutKeeps(s, k, n);
      }
    }
  }

  lemma CutKeeps(s: seq<nat>, k: nat, n: nat)
    requires k < |s| && n in s && n != s[k]
    ensures n in s[..k] + s[k + 1..]
  {
    var i := IndexOf(s, n);
    var r := s[..k] + s[k + 1..];
    assert r[if i < k then i else i - 1] == n;
  }

  lemma RemoveModExact(ms: seq<nat>, m: nat)
    requires Distinct(ms)
    ensures Distinct(RemoveMod(ms, m))
    ensures forall n :: n in RemoveMod(ms, m) <==> n in ms && n != m
  {
    var k := IndexOf(ms, m);
    if k < |ms| {
      CutExact(ms, k);
    }
  }

  // The set after removing holds every pair but the removed one. The format stays listed even
  // when its last modifier goes.
  lemma RemoveExact(v: seq<Entry>, f: nat, m: nat)
    requires WellFormed(v)
    ensures WellFormed(Remove(v, f, m))
    ensures forall g, n :: Has(Remove(v, f, m), g, n) <==> Has(v, g, n) && !(g == f && n == m)
    ensures forall g :: Find(Remove(v, f, m), g) == Find(v, g)
  {
    var k, w := Find(v, f), Remove(v, f, m);
    if k < |v| {
      RemoveModExact(v[k].mods, m);
    }
    assert WellFormed(w);
    forall g
      ensures Find(w, g) == Find(v, g)
    {
      if k < |v| {
        FindUpdate(v, k, w[k], g);
      }
    }
  }

  // ---- The pigeonhole that keeps the writes in bounds ----


  // A list without repetitions whose members all occur in t is no longer than t.
  lemma {:induction false} Pigeonhole(s: seq<nat>, t: seq<nat>)
    requires Distinct(s)
    requires forall x :: x in s ==> x in t
    ensures |s| <= |t|
    decreases |s|
  {
    if s != [] {
      var k := IndexOf(t, s[0]);
      var u := t[..k] + t[k + 1..];
      forall x | x in s[1..]
        ensures x in u
      {
        CutKeeps(t, k, x);
      }
      Pigeonhole(s[1..], u);
    }
  }

  lemma {:induction false} CommonExact(a: seq<nat>, b: seq<nat>)
    requires Distinct(a)
    ensures Distinct(Common(a, b))
    ensures forall n :: n in Common(a, b) <==> n in a && n in b
  {
    if a != [] {
      var init, last := a[..|a| - 1], a[|a| - 1];
      CommonExact(init, b);
      assert a == init + [last];
      assert last !in init;
    }
  }

  // The common modifiers fit an array of the smaller length, after every prefix of a.
  lemma CommonFits(a: seq<nat>, b: seq<nat>)
    requires Distinct(a)
    ensures |Common(a, b)| <= |a| && |Common(a, b)| <= |b|
  {
    CommonExact(a, b);
    Pigeonhole(Common(a, b), b);
  }

  // ---- Intersection ----

  ghost predicate Within(v: seq<Entry>, a: seq<Entry>) {
    forall i :: 0 <= i < |v| ==> Find(a, v[i].format) < |a|
  }

  lemma FindInit(a: seq<Entry>, f: nat)
    requires a != []
    ensures Find(a, f) == var k := Find(a[..|a| - 1], f);
                          if k < |a| - 1 then k else if a[|a| - 1].format == f then |a| - 1 else |a|
  {
    var k, i := Find(a[..|a| - 1], f), Find(a, f);
    assert forall j :: 0 <= j < |a| - 1 ==> a[..|a| - 1][j] == a[j];
    assert k < |a| - 1 ==> a[k].format == f;
  }

  lemma {:induction false} IntersectWithin(a: seq<Entry>, b: seq<Entry>)
    ensures Within(Intersect(a, b), a)
  {
    if a != [] {
      var init := a[..|a| - 1];
      IntersectWithin(init, b);
      var w := Intersect(a, b);
      forall i | 0 <= i < |w|
        ensures Find(a, w[i].format) < |a|
      {
        FindInit(a, w[i].format);
      }
    }
  }

  // The last format of a occurs nowhere before it, so no earlier entry contributes it.
  lemma LastIsNew(a: seq<Entry>, b: seq<Entry>)
    requires WellFormed(a) && a != []
    ensures var init, f := a[..|a| - 1], a[|a| - 1].format;
            Find(init, f) == |init| && Find(Intersect(init, b), f) == |Intersect(init, b)|
  {
    FoundAt(a, |a| - 1);
    FindInit(a, a[|a| - 1].format);
    IntersectWithin(a[..|a| - 1], b);
  }

  lemma {:induction false} IntersectShape(a: seq<Entry>, b: seq<Entry>)
    requires WellFormed(a)
    ensures WellFormed(Intersect(a, b))
    ensures forall i :: 0 <= i < |Intersect(a, b)| ==> Intersect(a, b)[i].mods != []
  {
    if a != [] {
      var init, x := a[..|a| - 1], a[|a| - 1];
      IntersectShape(init, b);
      LastIsNew(a, b);
      var k := Find(b, x.format);
      if k < |b| {
        CommonExact(x.mods, b[k].mods);
        AppendWellFormed(Intersect(init, b), Entry(x.format, Common(x.mods, b[k].mods)));
      }
    }
  }

  lemma AppendWellFormed(v: seq<Entry>, x: Entry)
    requires WellFormed(v) && Distinct(x.mods) && Find(v, x.format) == |v|
    ensures WellFormed(v + [x])
  {
  }

  lemma SharedExact(x: Entry, b: seq<Entry>)
    requires Distinct(x.mods)
    ensures forall f, m :: Has(Shared(x, b), f, m) <==> f == x.format && m in x.mods && Has(b, f, m)
  {
    var k := Find(b, x.format);
    if k < |b| {
      CommonExact(x.mods, b[k].mods);
    }
  }

  // Formats and modifiers stay distinct, no format is left without modifiers, and the pairs are
  // those in both sets.
  lemma {:induction false} IntersectExact(a: seq<Entry>, b: seq<Entry>)
    requires WellFormed(a)
    ensures WellFormed(Intersect(a, b))
    ensures forall i :: 0 <= i < |Intersect(a, b)| ==> Intersect(a, b)[i].mods != []
    ensures forall f, m :: Has(Intersect(a, b), f, m) <==> Has(a, f, m) && Has(b, f, m)
  {
    IntersectShape(a, b);
    forall f, m
      ensures Has(Intersect(a, b), f, m) <==> Has(a, f, m) && Has(b, f, m)
    {
      IntersectPair(a, b, f, m);
    }
  }

  lemma {:induction false} IntersectPair(a: seq<Entry>, b: seq<Entry>, f: nat, m: nat)
    requires WellFormed(a)
    ensures Has(Intersect(a, b), f, m) <==> Has(a, f, m) && Has(b, f, m)
  {
    if a != [] {
      var init, x := a[..|a| - 1], a[|a| - 1];
      IntersectPair(init, b, f, m);
      LastIsNew(a, b);
      SharedExact(x, b);
      FindInit(a, f);
      HasAppend(Intersect(init, b), Shared(x, b), f, m);
      if f == x.format {
        assert Has(a, f, m) <==> m in x.mods;
      } else {
        assert Has(a, f, m) <==> Has(init, f, m);
      }
    }
  }

  lemma HasAppend(v: seq<Entry>, u: seq<Entry>, f: nat, m: nat)
    ensures Has(v + u, f, m) <==> if Find(v, f) < |v| then Has(v, f, m) else Has(u, f, m)
  {
    hide Find;
    FindAppend(v, u, f);
    assert Find(u, f) < |u| ==> (v + u)[|v| + Find(u, f)] == u[Find(u, f)];
  }

  lemma FindAppend(v: seq<Entry>, u: seq<Entry>, f: nat)
    ensures Find(v + u, f) == if Find(v, f) < |v| then Find(v, f) else |v| + Find(u, f)
  {
    var i, j := Find(v, f), Find(v + u, f);
    assert i < |v| ==> (v + u)[i].format == f;
    var n := Find(u, f);
    assert n < |u| ==> (v + u)[|v| + n] == u[n];
    assert |v| <= j < |v + u| ==> (v + u)[j] == u[j - |v|];
  }

  function Formats(v: seq<Entry>): seq<nat> {
    seq(|v|, i requires 0 <= i < |v| => v[i].format)
  }

  lemma MatchesAreInBoth(a: seq<Entry>, b: seq<Entry>)
    requires WellFormed(a)
    ensures forall g :: g in Formats(Intersect(a, b)) ==> g in Formats(a) && g in Formats(b)
  {
    IntersectExact(a, b);
    var v := Intersect(a, b);
    forall g | g in Formats(v)
      ensures g in Formats(a) && g in Formats(b)
    {
      var n :| 0 <= n < |v| && v[n].format == g;
      FoundAt(v, n);
      assert Has(v, g, v[n].mods[0]);
      assert Has(a, g, v[n].mods[0]) && Has(b, g, v[n].mods[0]);
      assert Formats(a)[Find(a, g)] == g && Formats(b)[Find(b, g)] == g;
    }
  }

  // The intersection fits an array of the smaller length.
  lemma IntersectFits(a: seq<Entry>, b: seq<Entry>)
    requires WellFormed(a)
    ensures |Intersect(a, b)| <= |a| && |Intersect(a, b)| <= |b|
  {
    IntersectShape(a, b);
    MatchesAreInBoth(a, b);
    Pigeonhole(Formats(Intersect(a, b)), Formats(a));
    Pigeonhole(Formats(Intersect(a, b)), Formats(b));
  }

  // The intersection is refused as empty exactly when the sets share no pair.
  lemma EmptyIntersection(a: seq<Entry>, b: seq<Entry>)
    requires WellFormed(a)
    ensures Intersect(a, b) == [] <==> forall f, m :: !(Has(a, f, m) && Has(b, f, m))
  {
    IntersectExact(a, b);
    var v := Intersect(a, b);
    if v != [] {
      FoundAt(v, 0);
      assert Has(v, v[0].format, v[0].mods[0]);
    } else {
      forall f, m
        ensures !(Has(a, f, m) && Has(b, f, m))
      {
        assert !Has(v, f, m);
      }
    }
  }

  // ---- Union ----

  lemma {:induction false} AddAllExact(v: seq<Entry>, f: nat, ms: seq<nat>)
    requires WellFormed(v)
    ensures WellFormed(AddAll(v, f, ms))
    ensures forall g, n :: Has(AddAll(v, f, ms), g, n) <==> Has(v, g, n) || (g == f && n in ms)
    ensures |v| <= |AddAll(v, f, ms)| <= |v| + 1
    ensures ms != [] ==> Find(AddAll(v, f, ms), f) < |AddAll(v, f, ms)|
  {
    if ms != [] {
      var init, last := ms[..|ms| - 1], ms[|ms| - 1];
      assert ms == init + [last];
      AddAllExact(v, f, init);
      AddExact(AddAll(v, f, init), f, last);
      assert Has(AddAll(v, f, ms), f, last);
    }
  }

  lemma {:induction false} ExtendExact(v: seq<Entry>, src: seq<Entry>)
    requires WellFormed(v) && WellFormed(src)
    ensures WellFormed(Extend(v, src))
    ensures forall f, m :: Has(Extend(v, src), f, m) <==> Has(v, f, m) || Has(src, f, m)
    ensures |Extend(v, src)| <= |v| + |src|
  {
    if src != [] {
      var init, x := src[..|src| - 1], src[|src| - 1];
      ExtendExact(v, init);
      AddAllExact(Extend(v, init), x.format, x.mods);
      FoundAt(src, |src| - 1);
      forall f, m
        ensures Has(Extend(v, src), f, m) <==> Has(v, f, m) || Has(src, f, m)
      {
        FindInit(src, f);
        assert Has(Extend(v, init), f, m) <==> Has(v, f, m) || Has(init, f, m);
      }
    }
  }

  // The pairs of a union are those in either set, and it fits an array of the summed length.
  lemma UnionExact(a: seq<Entry>, b: seq<Entry>)
    requires WellFormed(a) && WellFormed(b)
    ensures WellFormed(Union(a, b)) && |Union(a, b)| <= |a| + |b|
    ensures forall f, m :: Has(Union(a, b), f, m) <==> Has(a, f, m) || Has(b, f, m)
  {
    ExtendExact([], a);
    ExtendExact(Extend([], a), b);
  }

  // ---- Formats without modifiers ----

  function NonEmpty(v: seq<Entry>): (r: seq<Entry>)
    ensures |r| <= |v|
    ensures |r| == |v| ==> r == v && forall i :: 0 <= i < |v| ==> v[i].mods != []
  {
    if v == [] then []
    else
      var r := NonEmpty(v[..|v| - 1]);
      assert v == v[..|v| - 1] + [v[|v| - 1]];
      r + if v[|v| - 1].mods == [] then [] else [v[|v| - 1]]
  }

  lemma AddToLast(v: seq<Entry>, f: nat, ms: seq<nat>, m: nat)
    requires Find(v, f) == |v| && m !in ms
    ensures Add(v + [Entry(f, ms)], f, m) == v + [Entry(f, ms + [m])]
  {
    FindAppend(v, [Entry(f, ms)], f);
  }

  lemma {:induction false} AddAllFresh(v: seq<Entry>, f: nat, ms: seq<nat>)
    requires Find(v, f) == |v| && Distinct(ms)
    ensures AddAll(v, f, ms) == if ms == [] then v else v + [Entry(f, ms)]
  {
    if ms != [] {
      var init, last := ms[..|ms| - 1], ms[|ms| - 1];
      assert ms == init + [last];
      AddAllFresh(v, f, init);
      if init != [] {
        AddToLast(v, f, init, last);
      }
    }
  }

  lemma {:induction false} RebuildDropsEmpty(a: seq<Entry>)
    requires WellFormed(a)
    ensures Extend([], a) == NonEmpty(a) && Within(NonEmpty(a), a)
  {
    if a != [] {
      var init, x := a[..|a| - 1], a[|a| - 1];
      RebuildDropsEmpty(init);
      forall i | 0 <= i < |NonEmpty(init)|
        ensures Find(a, NonEmpty(init)[i].format) < |a|
        ensures NonEmpty(init)[i].format != x.format
      {
        FindInit(a, NonEmpty(init)[i].format);
      }
      FoundAt(a, |a| - 1);
      AddAllFresh(NonEmpty(init), x.format, x.mods);
    }
  }

  // A union with nothing gives the set back exactly when every listed format has a modifier:
  // formats that removal has emptied are dropped.
  lemma UnionWithNothing(a: seq<Entry>)
    requires WellFormed(a)
    ensures Union(a, []) == a <==> forall i :: 0 <= i < |a| ==> a[i].mods != []
  {
    RebuildDropsEmpty(a);
    if forall i :: 0 <= i < |a| ==> a[i].mods != [] {
      NonEmptyIsAll(a);
    }
  }

  // Removing the only modifier of a format leaves it listed; a union with nothing forgets it.
  lemma EmptiedFormatWitness()
    ensures Remove([Entry(7, [5])], 7, 5) == [Entry(7, [])]
    ensures Union([Entry(7, [])], []) == []
  {
    assert RemoveMod([5], 5) == [];
    RebuildDropsEmpty([Entry(7, [])]);
  }

  lemma {:induction false} NonEmptyIsAll(a: seq<Entry>)
    requires forall i :: 0 <= i < |a| ==> a[i].mods != []
    ensures NonEmpty(a) == a
  {
    if a != [] {
      NonEmptyIsAll(a[..|a| - 1]);
      assert a == a[..|a| - 1] + [a[|a| - 1]];
    }
  }

  // Intersecting with a subset gives back the subset's pairs: absorption.
  lemma Absorption(a: seq<Entry>, b: seq<Entry>)
    requires WellFormed(a) && WellFormed(b)
    ensures forall f, m :: Has(Intersect(a, Union(a, b)), f, m) <==> Has(a, f, m)
    ensures forall f, m :: Has(Union(a, Intersect(a, b)), f, m) <==> Has(a, f, m)
  {
    UnionExact(a, b);
    IntersectExact(a, Union(a, b));
    IntersectExact(a, b);
    UnionExact(a, Intersect(a, b));
  }
}

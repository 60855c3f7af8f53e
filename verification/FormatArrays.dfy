// The growable arrays behind format sets: a set holds an array of formats, each of which holds
// an array of modifiers. Lengths and capacities are explicit; an array that C leaves NULL is one
// of length 0 here, and the capacity of a list is the length of its array.
// subprojects/wlroots/render/drm_format_set.c.

module FormatArrays {
  import opened FormatSet

  // struct wlr_drm_format: embedded by value, its modifiers by pointer.
  datatype Format = Format(format: nat, len: nat, modifiers: array<nat>)

  ghost predicate Sound(x: Format)
    reads x.modifiers
  {
    x.len <= x.modifiers.Length && Distinct(x.modifiers[..x.len])
  }

  ghost function Mods(x: Format): seq<nat>
    requires x.len <= x.modifiers.Length
    reads x.modifiers
  {
    x.modifiers[..x.len]
  }

  function Grown(capacity: nat): (r: nat)
    ensures r > capacity
  {
    if capacity > 0 then capacity * 2 else 4
  }

  // wlr_drm_format_has
  method FormatHas(x: Format, m: nat) returns (found: bool)
    requires Sound(x)
    ensures found <==> m in Mods(x)
  {
    var i := 0;
    while i < x.len
      invariant 0 <= i <= x.len
      invariant m !in x.modifiers[..i]
    {
      if x.modifiers[i] == m {
        assert Mods(x)[i] == m;
        return true;
      }
      i := i + 1;
    }
    found := false;
  }

  // wlr_drm_format_add: in place when there is room, in a doubled copy when there is not.
  method FormatAdd(x: Format, m: nat) returns (y: Format)
    requires Sound(x)
    modifies x.modifiers
    ensures Sound(y) && y.format == x.format
    ensures Mods(y) == AddMod(old(Mods(x)), m)
    ensures y.modifiers == x.modifiers || fresh(y.modifiers)
    ensures y.modifiers.Length == (if m !in old(Mods(x)) && x.len == x.modifiers.Length
                                   then Grown(x.len) else x.modifiers.Length)
  {
    var found := FormatHas(x, m);
    if found {
      return x;
    }
    var modifiers := x.modifiers;
    if x.len == x.modifiers.Length {
      modifiers := new nat[Grown(x.modifiers.Length)];
      forall i | 0 <= i < x.len {
        modifiers[i] := x.modifiers[i];
      }
    }
    assert modifiers[..x.len] == Mods(x);
    modifiers[x.len] := m;
    y := Format(x.format, x.len + 1, modifiers);
    assert Mods(y) == old(Mods(x)) + [m];
  }

  // The memmove: what stands behind position i moves down by one.
  method ShiftDown(x: Format, i: nat)
    requires i < x.len <= x.modifiers.Length
    modifies x.modifiers
    ensures x.modifiers[..x.len - 1] == old(Mods(x)[..i] + Mods(x)[i + 1..])
  {
    forall j | i <= j < x.len - 1 {
      x.modifiers[j] := x.modifiers[j + 1];
    }
  }

  // The search and the memmove of wlr_drm_format_set_remove.
  method FormatRemove(x: Format, m: nat) returns (y: Format, removed: bool)
    requires Sound(x)
    modifies x.modifiers
    ensures y.format == x.format && y.modifiers == x.modifiers && Sound(y)
    ensures removed <==> m in old(Mods(x))
    ensures Mods(y) == RemoveMod(old(Mods(x)), m)
  {
    hide Distinct, RemoveMod, IndexOf;
    ghost var mods := Mods(x);
    RemoveModExact(mods, m);
    var i := 0;
    while i < x.len && x.modifiers[i] != m
      modifies {}
      invariant 0 <= i <= x.len
      invariant m !in mods[..i]
    {
      i := i + 1;
    }
    if i == x.len {
      assert mods[..i] == mods;
      NothingToRemove(mods, m);
      return x, false;
    }
    FirstIs(mods, m, i);
    ShiftDown(x, i);
    return Format(x.format, x.len - 1, x.modifiers), true;
  }

  lemma NothingToRemove(ms: seq<nat>, m: nat)
    requires m !in ms
    ensures RemoveMod(ms, m) == ms
  {
  }

  lemma FirstIs(ms: seq<nat>, m: nat, i: nat)
    requires i < |ms| && ms[i] == m && m !in ms[..i]
    ensures RemoveMod(ms, m) == ms[..i] + ms[i + 1..]
  {
    assert forall j :: 0 <= j < i ==> ms[..i][j] == ms[j];
  }

  // wlr_drm_format_copy: the copy has no spare room.
  method FormatCopy(x: Format) returns (y: Format)
    requires Sound(x)
    ensures fresh(y.modifiers) && Sound(y) && y.format == x.format
    ensures Mods(y) == Mods(x) && y.modifiers.Length == y.len == x.len
  {
    var modifiers := new nat[x.len];
    forall i | 0 <= i < x.len {
      modifiers[i] := x.modifiers[i];
    }
    y := Format(x.format, x.len, modifiers);
    assert Mods(y) == Mods(x);
  }

  // wlr_drm_format_intersect: the array written has the smaller of the two lengths.
  method FormatIntersect(a: Format, b: Format) returns (y: Format)
    requires Sound(a) && Sound(b) && a.format == b.format
    ensures fresh(y.modifiers) && Sound(y) && y.format == a.format
    ensures Mods(y) == Common(Mods(a), Mods(b))
    ensures y.modifiers.Length == if a.len < b.len then a.len else b.len
  {
    var capacity := if a.len < b.len then a.len else b.len;
    var modifiers := new nat[capacity];
    var len := 0;
    ghost var am, bm := Mods(a), Mods(b);
    var i := 0;
    while i < a.len
      modifies modifiers
      invariant 0 <= i <= a.len && len <= capacity
      invariant modifiers[..len] == Common(am[..i], bm)
    {
      assert am[..i + 1][..i] == am[..i];
      PrefixFits(am, bm, i + 1);
      var found := FormatHas(b, a.modifiers[i]);
      if found {
        modifiers[len] := a.modifiers[i];
        len := len + 1;
      }
      i := i + 1;
    }
    assert am[..i] == am;
    CommonExact(am, bm);
    y := Format(a.format, len, modifiers);
  }

  lemma PrefixFits(a: seq<nat>, b: seq<nat>, i: nat)
    requires Distinct(a) && i <= |a|
    ensures |Common(a[..i], b)| <= |a| && |Common(a[..i], b)| <= |b|
  {
    CommonFits(a[..i], b);
  }

  // A format as it stands in a set: its record and the value it stands for.
  ghost predicate Holds(x: Format, e: Entry)
    reads x.modifiers
  {
    x.format == e.format && x.len <= x.modifiers.Length && x.modifiers[..x.len] == e.mods
  }

  class DrmFormatSet {
    var formats: array<Format>
    var len: nat
    ghost var contents: seq<Entry>
    ghost var Repr: set<object>

    ghost predicate Valid()
      reads this, Repr
    {
      && this in Repr && formats in Repr && |contents| == len <= formats.Length
      && WellFormed(contents)
      && (forall i :: 0 <= i < len ==> formats[i].modifiers in Repr && Holds(formats[i], contents[i]))
      && (forall i, j :: 0 <= i < j < len ==> formats[i].modifiers != formats[j].modifiers)
    }

    constructor (capacity: nat)
      ensures Valid() && fresh(Repr) && contents == [] && formats.Length == capacity
    {
      var none := new nat[0];
      formats := new Format[capacity](_ => Format(0, 0, none));
      len := 0;
      contents := [];
      new;
      Repr := {this, formats};
    }

    // format_set_get, as a position.
    method Get(f: nat) returns (k: nat)
      requires Valid()
      ensures k == Find(contents, f)
    {
      k := 0;
      while k < len
        invariant 0 <= k <= len
        invariant forall j :: 0 <= j < k ==> contents[j].format != f
      {
        if formats[k].format == f {
          return;
        }
        k := k + 1;
      }
    }

    // wlr_drm_format_set_has
    method HasPair(f: nat, m: nat) returns (found: bool)
      requires Valid()
      ensures found <==> Has(contents, f, m)
    {
      var k := Get(f);
      if k == len {
        return false;
      }
      found := FormatHas(formats[k], m);
    }

    // Put a changed record of format k back.
    method Put(k: nat, y: Format, ghost mods: seq<nat>)
      requires k < len && this in Repr && formats in Repr && |contents| == len <= formats.Length
      requires WellFormed(contents) && Distinct(mods) && Holds(y, Entry(contents[k].format, mods))
      requires forall i :: 0 <= i < len ==> formats[i].modifiers in Repr
      requires forall i :: 0 <= i < len && i != k ==> Holds(formats[i], contents[i]) && formats[i].modifiers != y.modifiers
      requires forall i, j :: 0 <= i < j < len ==> formats[i].modifiers != formats[j].modifiers
      modifies this, formats
      ensures Valid() && Repr == old(Repr) + {y.modifiers} && len == old(len) && formats == old(formats)
      ensures contents == old(contents[k := Entry(contents[k].format, mods)])
    {
      formats[k] := y;
      contents := contents[k := Entry(contents[k].format, mods)];
      Repr := Repr + {y.modifiers};
    }

    // The branch of wlr_drm_format_set_add for a format the set lists.
    method AddModifier(k: nat, m: nat)
      requires Valid() && k < len
      modifies Repr
      ensures Valid() && fresh(Repr - old(Repr)) && len == old(len) && formats == old(formats)
      ensures contents == old(contents[k := Entry(contents[k].format, AddMod(contents[k].mods, m))])
    {
      var y := FormatAdd(formats[k], m);
      Put(k, y, AddMod(contents[k].mods, m));
    }

    // Write a record behind the last one; there must be room. It is not part of the set yet.
    method Write(x: Format)
      requires Valid() && len < formats.Length
      modifies formats
      ensures Valid() && formats[len] == x
    {
      formats[len] := x;
    }

    // Count the record that was written behind the last one.
    method Keep(ghost mods: seq<nat>)
      requires Valid() && len < formats.Length && formats[len].modifiers !in Repr
      requires Distinct(mods) && Holds(formats[len], Entry(formats[len].format, mods))
      requires Find(contents, formats[len].format) == len
      modifies this
      ensures len == old(len) + 1 && formats == old(formats)
      ensures Valid() && Repr == old(Repr) + {formats[old(len)].modifiers}
      ensures contents == old(contents) + [Entry(formats[old(len)].format, mods)]
    {
      AppendWellFormed(contents, Entry(formats[len].format, mods));
      Repr := Repr + {formats[len].modifiers};
      contents := contents + [Entry(formats[len].format, mods)];
      len := len + 1;
    }

    method Store(x: Format, ghost mods: seq<nat>)
      requires Valid() && len < formats.Length && x.modifiers !in Repr
      requires Distinct(mods) && Holds(x, Entry(x.format, mods)) && Find(contents, x.format) == len
      modifies this, formats
      ensures Valid() && Repr == old(Repr) + {x.modifiers} && len == old(len) + 1 && formats == old(formats)
      ensures contents == old(contents) + [Entry(x.format, mods)]
    {
      Write(x);
      Keep(mods);
    }

    // The reallocation of wlr_drm_format_set_add.
    method MakeRoom()
      requires Valid()
      modifies this
      ensures Valid() && fresh(Repr - old(Repr)) && contents == old(contents) && len == old(len) < formats.Length
      ensures if old(len < formats.Length) then formats == old(formats) else fresh(formats)
      ensures formats.Length == if old(len) == old(formats.Length) then Grown(old(len)) else old(formats.Length)
    {
      if len == formats.Length {
        var none := new nat[0];
        var larger := new Format[Grown(formats.Length)](_ => Format(0, 0, none));
        forall i | 0 <= i < len {
          larger[i] := formats[i];
        }
        formats := larger;
        Repr := Repr + {formats};
      }
    }

    // The branch for a new format.
    method AppendFormat(f: nat, m: nat)
      requires Valid() && Find(contents, f) == len
      modifies this, formats
      ensures Valid() && fresh(Repr - old(Repr)) && len == old(len) + 1
      ensures contents == old(contents) + [Entry(f, [m])]
      ensures old(len < formats.Length) ==> formats == old(formats)
      ensures formats.Length == if old(len) == old(formats.Length) then Grown(old(len)) else old(formats.Length)
    {
      var empty := new nat[0];
      var x := FormatAdd(Format(f, 0, empty), m);
      MakeRoom();
      Store(x, [m]);
    }

    // wlr_drm_format_set_add
    method AddPair(f: nat, m: nat)
      requires Valid()
      modifies Repr
      ensures Valid() && fresh(Repr - old(Repr))
      ensures contents == Add(old(contents), f, m)
      ensures old(Find(contents, f) < len || len < formats.Length) ==> formats == old(formats)
      ensures formats.Length == if Find(old(contents), f) == old(len) == old(formats.Length)
                                then Grown(old(len)) else old(formats.Length)
    {
      var k := Get(f);
      if k < len {
        AddModifier(k, m);
      } else {
        AppendFormat(f, m);
      }
    }

    // wlr_drm_format_set_remove
    method RemovePair(f: nat, m: nat) returns (removed: bool)
      requires Valid()
      modifies Repr
      ensures Valid() && Repr == old(Repr) && formats == old(formats) && len == old(len)
      ensures removed <==> old(Has(contents, f, m))
      ensures contents == Remove(old(contents), f, m)
    {
      var k := Get(f);
      if k == len {
        return false;
      }
      var y;
      y, removed := FormatRemove(formats[k], m);
      Put(k, y, RemoveMod(contents[k].mods, m));
    }

    // drm_format_set_extend: with room for every format of src the array is never replaced.
    method ExtendBy(src: DrmFormatSet)
      requires Valid() && src.Valid() && Repr !! src.Repr
      requires len + src.len <= formats.Length
      modifies Repr
      ensures Valid() && fresh(Repr - old(Repr)) && formats == old(formats)
      ensures contents == Extend(old(contents), src.contents)
      ensures len <= old(len) + src.len
    {
      var i := 0;
      while i < src.len
        invariant 0 <= i <= src.len && src.Valid()
        invariant Valid() && fresh(Repr - old(Repr)) && formats == old(formats)
        invariant contents == Extend(old(contents), src.contents[..i]) && len <= old(len) + i
      {
        assert src.contents[..i + 1][..i] == src.contents[..i];
        ExtendByFormat(src, i);
        i := i + 1;
      }
      assert src.contents[..i] == src.contents;
    }

    // The inner loop of drm_format_set_extend.
    method ExtendByFormat(src: DrmFormatSet, i: nat)
      requires Valid() && src.Valid() && Repr !! src.Repr && i < src.len
      requires len < formats.Length
      modifies Repr
      ensures Valid() && fresh(Repr - old(Repr)) && formats == old(formats)
      ensures contents == AddAll(old(contents), src.contents[i].format, src.contents[i].mods)
      ensures len <= old(len) + 1
    {
      ghost var v, s := contents, src.contents[i];
      var x := src.formats[i];
      var j := 0;
      while j < x.len
        invariant 0 <= j <= x.len && Holds(x, s)
        invariant Valid() && fresh(Repr - old(Repr)) && formats == old(formats)
        invariant contents == AddAll(v, s.format, s.mods[..j])
      {
        assert s.mods[..j + 1][..j] == s.mods[..j];
        AddAllExact(v, s.format, s.mods[..j]);
        AddPair(x.format, x.modifiers[j]);
        j := j + 1;
      }
      assert s.mods[..j] == s.mods;
      AddAllExact(v, s.format, s.mods);
    }

    // The assignment of a finished local set to its destination.
    method Assign(out: DrmFormatSet)
      requires out.Valid() && this !in out.Repr
      modifies this
      ensures Valid() && contents == out.contents && formats == out.formats && len == out.len
      ensures Repr == out.Repr + {this}
    {
      formats, len, contents, Repr := out.formats, out.len, out.contents, out.Repr + {this};
    }

    // wlr_drm_format_set_union; this is dst, which may be a or b.
    method UnionOf(a: DrmFormatSet, b: DrmFormatSet)
      requires a.Valid() && b.Valid()
      modifies this
      ensures Valid() && fresh(Repr - {this})
      ensures contents == Union(old(a.contents), old(b.contents))
      ensures formats.Length == old(a.len) + old(b.len)
    {
      hide WellFormed, Holds;
      var out := new DrmFormatSet(a.len + b.len);
      out.ExtendBy(a);
      out.ExtendBy(b);
      Assign(out);
    }

    // wlr_drm_format_set_copy
    method CopyOf(src: DrmFormatSet)
      requires src.Valid()
      modifies this
      ensures Valid() && fresh(Repr - {this})
      ensures contents == old(src.contents) && formats.Length == len
    {
      var out := new DrmFormatSet(src.len);
      CopyEntries(out, src);
      Assign(out);
    }

    // wlr_drm_format_set_intersect; this is dst, which may be a or b. False, with dst as it was,
    // when nothing is common.
    method IntersectOf(a: DrmFormatSet, b: DrmFormatSet) returns (ok: bool)
      requires a.Valid() && b.Valid() && Valid()
      modifies this
      ensures Valid() && ok == (Intersect(old(a.contents), old(b.contents)) != [])
      ensures ok ==> contents == Intersect(old(a.contents), old(b.contents)) && fresh(Repr - {this})
      ensures !ok ==> contents == old(contents) && Repr == old(Repr)
    {
      hide WellFormed, Holds;
      var out := new DrmFormatSet(if a.len < b.len then a.len else b.len);
      IntersectEntries(out, a, b);
      ok := out.len > 0;
      if ok {
        Assign(out);
      }
    }
  }

  // The loop of wlr_drm_format_set_copy.
  method CopyEntries(out: DrmFormatSet, src: DrmFormatSet)
    requires out.Valid() && src.Valid() && out.Repr !! src.Repr && out.contents == []
    requires out.formats.Length == src.len
    modifies out.Repr
    ensures out.Valid() && fresh(out.Repr - old(out.Repr)) && out.formats == old(out.formats)
    ensures out.contents == src.contents
  {
    hide WellFormed, Sound, Find;
    var i := 0;
    while i < src.len
      invariant 0 <= i <= src.len && src.Valid()
      invariant out.Valid() && fresh(out.Repr - old(out.Repr)) && out.len == i && out.formats == old(out.formats)
      invariant out.contents == src.contents[..i]
    {
      SoundFormat(src, i);
      var x := FormatCopy(src.formats[i]);
      PrefixLacks(src.contents, i);
      StoreRecord(out, x, src.contents[i].mods);
      i := i + 1;
    }
  }

  // The loop over a in wlr_drm_format_set_intersect.
  method IntersectEntries(out: DrmFormatSet, a: DrmFormatSet, b: DrmFormatSet)
    requires a.Valid() && b.Valid() && out.Valid() && out.Repr !! a.Repr && out.Repr !! b.Repr
    requires out.formats.Length == (if a.len < b.len then a.len else b.len) && out.contents == []
    modifies out.Repr
    ensures out.Valid() && fresh(out.Repr - old(out.Repr))
    ensures out.contents == Intersect(a.contents, b.contents)
  {
    hide WellFormed, Holds, Intersect, Shared;
    var i := 0;
    IntersectNothing(a.contents, b.contents);
    while i < a.len
      invariant 0 <= i <= a.len && a.Valid() && b.Valid()
      invariant out.Valid() && fresh(out.Repr - old(out.Repr)) && out.formats == old(out.formats)
      invariant out.contents == Intersect(a.contents[..i], b.contents)
    {
      IntersectEntry(out, a, b, i);
      i := i + 1;
    }
    assert a.contents[..i] == a.contents;
  }

  // The body of the loop over a in wlr_drm_format_set_intersect. The record is written behind
  // the last one before it is known whether the two formats share a modifier; without one it is
  // not counted, and the next match overwrites it.
  method IntersectEntry(out: DrmFormatSet, a: DrmFormatSet, b: DrmFormatSet, i: nat)
    requires a.Valid() && b.Valid() && out.Valid() && out.Repr !! a.Repr && out.Repr !! b.Repr && i < a.len
    requires out.formats.Length == if a.len < b.len then a.len else b.len
    requires out.contents == Intersect(a.contents[..i], b.contents)
    modifies out.Repr
    ensures out.Valid() && fresh(out.Repr - old(out.Repr)) && out.formats == old(out.formats)
    ensures out.contents == Intersect(a.contents[..i + 1], b.contents)
  {
    hide Intersect, Shared, WellFormed, Sound;
    SoundFormat(a, i);
    IntersectStep(a.contents, b.contents, i);
    var j := b.Get(a.formats[i].format);
    if j < b.len {
      SoundFormat(b, j);
      var x := FormatIntersect(a.formats[i], b.formats[j]);
      RoomForMatch(a.contents, b.contents, i);
      out.Write(x);
      if x.len > 0 {
        KeepRecord(out, Common(a.contents[i].mods, b.contents[j].mods));
      }
    }
  }

  method KeepRecord(out: DrmFormatSet, ghost mods: seq<nat>)
    requires out.Valid() && out.len < out.formats.Length && out.formats[out.len].modifiers !in out.Repr
    requires Sound(out.formats[out.len]) && Mods(out.formats[out.len]) == mods
    requires Find(out.contents, out.formats[out.len].format) == out.len
    modifies out
    ensures out.Valid() && out.Repr == old(out.Repr + {out.formats[out.len].modifiers}) && out.formats == old(out.formats)
    ensures out.contents == old(out.contents + [Entry(out.formats[out.len].format, mods)])
  {
    hide WellFormed;
    out.Keep(mods);
  }

  method StoreRecord(out: DrmFormatSet, x: Format, ghost mods: seq<nat>)
    requires out.Valid() && out.len < out.formats.Length && x.modifiers !in out.Repr
    requires Sound(x) && Mods(x) == mods && Find(out.contents, x.format) == out.len
    modifies out, out.formats
    ensures out.Valid() && out.Repr == old(out.Repr) + {x.modifiers} && out.formats == old(out.formats)
    ensures out.contents == old(out.contents) + [Entry(x.format, mods)]
  {
    hide WellFormed;
    out.Store(x, mods);
  }

  lemma SoundFormat(v: DrmFormatSet, i: nat)
    requires v.Valid() && i < v.len
    ensures Sound(v.formats[i]) && Mods(v.formats[i]) == v.contents[i].mods
    ensures v.formats[i].format == v.contents[i].format
  {
  }

  // One more entry of a, and what it contributes.
  lemma IntersectStep(a: seq<Entry>, b: seq<Entry>, i: nat)
    requires i < |a|
    ensures Intersect(a[..i + 1], b) == Intersect(a[..i], b) + Shared(a[i], b)
    ensures var k := Find(b, a[i].format);
            Shared(a[i], b) == if k < |b| && Common(a[i].mods, b[k].mods) != []
                               then [Entry(a[i].format, Common(a[i].mods, b[k].mods))] else []
  {
    assert a[..i + 1][..i] == a[..i];
  }

  lemma IntersectNothing(a: seq<Entry>, b: seq<Entry>)
    ensures Intersect(a[..0], b) == []
  {
  }

  lemma PrefixLacks(v: seq<Entry>, i: nat)
    requires WellFormed(v) && i < |v|
    ensures Find(v[..i], v[i].format) == i
  {
  }

  // When format i of a is found in b there is room for one more record, shared modifiers or not,
  // and the format is new: the formats so far and this one are distinct, and all are in both.
  lemma RoomForMatch(a: seq<Entry>, b: seq<Entry>, i: nat)
    requires WellFormed(a) && i < |a| && Find(b, a[i].format) < |b|
    ensures |Intersect(a[..i], b)| < |a| && |Intersect(a[..i], b)| < |b|
    ensures Find(Intersect(a[..i], b), a[i].format) == |Intersect(a[..i], b)|
  {
    var p, v, f := a[..i], Intersect(a[..i], b), a[i].format;
    assert a[..i + 1][..i] == p;
    LastIsNew(a[..i + 1], b);
    IntersectFits(p, b);
    IntersectShape(p, b);
    MatchesAreInBoth(p, b);
    var s := Formats(v) + [f];
    forall g | g in s
      ensures g in Formats(b)
    {
      assert g == f ==> Formats(b)[Find(b, f)] == f;
    }
    assert Distinct(s) by {
      assert forall n :: 0 <= n < |v| ==> s[n] == v[n].format && v[n].format != f;
    }
    Pigeonhole(s, Formats(b));
  }
}

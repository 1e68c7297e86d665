/**
 * What the breadth-first field scan guarantees: every key reaches a named
 * field through embedded structs, keys are published once each and by depth,
 * a shallower field shadows a deeper one, and two fields of one name at one
 * depth leave a conflict.
 */
module FieldLemmas {
  import opened Reflect
  import opened Errors
  import opened Fields

  /** The field that `path` reaches from the type `t`: every index but the
      last selects an embedded field, and pointers are looked through. */
  function FieldAt(u: Universe, t: Ty, path: seq<nat>): Option<Field>
    decreases |path|
  {
    var id := StructOf(u, t);
    if path == [] || id.None? || path[0] >= |u.structs[id.value].fields| then None
    else
      var f := u.structs[id.value].fields[path[0]];
      if |path| == 1 then Some(f)
      else if f.anonymous then FieldAt(u, f.ty, path[1..])
      else None
  }

  /** `path` leads from struct `root` to a field with a name of its own,
      and that name is `name`. */
  predicate Resolves(u: Universe, root: StructId, path: seq<nat>, name: string) {
    var f := FieldAt(u, Named(root), path);
    f.Some? && HasOwnName(f.value) && JsonName(f.value) == name
  }

  /** A queue entry: the root itself, or an embedded field reached from it. */
  predicate Embedded(u: Universe, root: StructId, scan: Scan) {
    if scan.index == [] then scan.ty == Named(root)
    else
      var f := FieldAt(u, Named(root), scan.index);
      f.Some? && f.value.anonymous && f.value.ty == scan.ty
  }

  predicate Distinct(s: seq<string>) {
    forall i, j :: 0 <= i < j < |s| ==> s[i] != s[j]
  }

  /** Every entry is keyed by its own JSON name and leads to a field that
      carries that name. */
  predicate EntriesOk(u: Universe, root: StructId, fields: map<string, FieldInfo>) {
    forall k | k in fields :: fields[k].jsonName == k && Resolves(u, root, fields[k].fieldIndex, k)
  }

  /** Names listed earlier lie no deeper than names listed later. */
  predicate ByDepth(fields: map<string, FieldInfo>, names: seq<string>) {
    forall i, j :: 0 <= i < j < |names| && names[i] in fields && names[j] in fields
      ==> |fields[names[i]].fieldIndex| <= |fields[names[j]].fieldIndex|
  }

  /** The shape of a finished field map. */
  predicate WellFormed(u: Universe, root: StructId, sf: StructFields) {
    && EntriesOk(u, root, sf.fields)
    && Distinct(sf.allNames)
    && (forall k | k in sf.allNames :: k in sf.fields)
    && (forall k | k in sf.fields :: k in sf.allNames)
    && ByDepth(sf.fields, sf.allNames)
  }

  /** Extending an embedded path by one index selects a field of the embedded
      struct. */
  lemma {:induction false} FieldAtSnoc(u: Universe, t: Ty, p: seq<nat>, i: nat)
    requires p != [] && FieldAt(u, t, p).Some? && FieldAt(u, t, p).value.anonymous
    ensures FieldAt(u, t, p + [i]) == FieldAt(u, FieldAt(u, t, p).value.ty, [i])
    decreases |p|
  {
    assert (p + [i])[0] == p[0];
    if |p| > 1 {
      assert (p + [i])[1..] == p[1..] + [i];
      FieldAtSnoc(u, u.structs[StructOf(u, t).value].fields[p[0]].ty, p[1..], i);
    }
  }

  /** Field `i` of a scanned struct is reached by the scan's path plus `i`. */
  lemma FieldAtExtend(u: Universe, root: StructId, scan: Scan, id: StructId, i: nat)
    requires Embedded(u, root, scan) && StructOf(u, scan.ty) == Some(id)
    requires i < |u.structs[id].fields|
    ensures FieldAt(u, Named(root), scan.index + [i]) == Some(u.structs[id].fields[i])
  {
    if scan.index == [] {
      assert scan.index + [i] == [i];
    } else {
      FieldAtSnoc(u, Named(root), scan.index, i);
    }
  }

  /** What holds inside a level that began in state `s0` at depth `d`. */
  predicate LevelInv(u: Universe, root: StructId, s0: BuildState, s: BuildState, d: nat) {
    && LevelFrame(s0, s)
    && EntriesOk(u, root, s.fields)
    && (forall k | k in s.fields && k !in s0.fields :: |s.fields[k].fieldIndex| == d + 1)
    && (forall sc | sc in s.next :: |sc.index| == d + 1 && Embedded(u, root, sc))
  }

  /** Inside a level: the published names and the entries that existed
      before it stay as they were, a conflict once set stays set, and new
      entries are exactly the names found in this level. */
  predicate LevelFrame(s0: BuildState, s: BuildState) {
    && s.allNames == s0.allNames
    && (s.conflict == s0.conflict || s.conflict != "")
    && (forall k | k in s0.fields :: k in s.fields && s.fields[k] == s0.fields[k])
    && (forall n | n in s.found :: n !in s0.fields)
    && Distinct(s.found)
    && (forall k | k in s.fields :: k in s0.fields || k in s.found)
  }

  /** A scan of depth `d` whose type is the struct `id`. */
  predicate ScanAt(u: Universe, root: StructId, scan: Scan, d: nat) {
    |scan.index| == d && Embedded(u, root, scan)
  }

  lemma VisitFieldInv(u: Universe, root: StructId, s0: BuildState, s: BuildState, d: nat,
                      scan: Scan, id: StructId, i: nat, r: BuildState)
    requires WellNamed(u) && ScanAt(u, root, scan, d) && StructOf(u, scan.ty) == Some(id)
    requires i < |u.structs[id].fields| && r == VisitField(s, scan, i, u.structs[id].fields[i])
    requires LevelInv(u, root, s0, s, d)
    ensures LevelInv(u, root, s0, r, d)
  {
    var f := u.structs[id].fields[i];
    FieldAtExtend(u, root, scan, id, i);
    if f.anonymous {
      QueueInv(u, root, s0, s, d, scan, i, f);
    } else if f.exported && f.tag != "-" {
      var name := JsonName(f);
      if name in s.found {
        assert name != "";
        DropInv(u, root, s0, s, d, name);
      } else if name !in s.fields {
        AddInv(u, root, s0, s, d, scan, i, f);
      }
    }
  }

  /** Queueing an embedded field keeps the level invariant. */
  lemma QueueInv(u: Universe, root: StructId, s0: BuildState, s: BuildState, d: nat,
                 scan: Scan, i: nat, f: Field)
    requires ScanAt(u, root, scan, d) && f.anonymous
    requires FieldAt(u, Named(root), scan.index + [i]) == Some(f)
    requires LevelInv(u, root, s0, s, d)
    ensures LevelInv(u, root, s0, s.(next := s.next + [Scan(f.ty, scan.index + [i])]), d)
  {
    var next := s.next + [Scan(f.ty, scan.index + [i])];
    forall sc | sc in next ensures |sc.index| == d + 1 && Embedded(u, root, sc) {
      if sc !in s.next {
        assert sc == Scan(f.ty, scan.index + [i]);
      }
    }
  }

  /** Dropping a name found twice in this level keeps the level invariant. */
  lemma DropInv(u: Universe, root: StructId, s0: BuildState, s: BuildState, d: nat, name: string)
    requires name in s.found && name != ""
    requires LevelInv(u, root, s0, s, d)
    ensures LevelInv(u, root, s0, s.(fields := s.fields - {name}, conflict := name), d)
  {
  }

  /** Adding a new name keeps the level invariant. */
  lemma AddInv(u: Universe, root: StructId, s0: BuildState, s: BuildState, d: nat,
               scan: Scan, i: nat, f: Field)
    requires ScanAt(u, root, scan, d) && HasOwnName(f)
    requires FieldAt(u, Named(root), scan.index + [i]) == Some(f)
    requires JsonName(f) !in s.found && JsonName(f) !in s.fields
    requires LevelInv(u, root, s0, s, d)
    ensures LevelInv(u, root, s0, s.(fields := s.fields[JsonName(f) := FieldInfo(JsonName(f), scan.index + [i])],
                                     found := s.found + [JsonName(f)]), d)
  {
    var name := JsonName(f);
    var info := FieldInfo(name, scan.index + [i]);
    assert Resolves(u, root, info.fieldIndex, name);
    AddKeeps(u, root, s0, s, d, name, info);
  }

  lemma AddKeeps(u: Universe, root: StructId, s0: BuildState, s: BuildState, d: nat, name: string, info: FieldInfo)
    requires name !in s.found && name !in s.fields && |info.fieldIndex| == d + 1
    requires info.jsonName == name && Resolves(u, root, info.fieldIndex, name)
    requires LevelInv(u, root, s0, s, d)
    ensures LevelInv(u, root, s0, s.(fields := s.fields[name := info], found := s.found + [name]), d)
  {
    AddFrame(s0, s, name, info);
    EntriesAdd(u, root, s.fields, name, info);
  }

  lemma AddFrame(s0: BuildState, s: BuildState, name: string, info: FieldInfo)
    requires name !in s.found && name !in s.fields
    requires LevelFrame(s0, s)
    ensures LevelFrame(s0, s.(fields := s.fields[name := info], found := s.found + [name]))
  {
    var found := s.found + [name];
    forall a, b | 0 <= a < b < |found| ensures found[a] != found[b] {
      if b == |s.found| {
        assert s.found[a] in s.found;
      }
    }
  }

  lemma EntriesAdd(u: Universe, root: StructId, m: map<string, FieldInfo>, name: string, info: FieldInfo)
    requires EntriesOk(u, root, m) && info.jsonName == name && Resolves(u, root, info.fieldIndex, name)
    ensures EntriesOk(u, root, m[name := info])
  {
  }

  lemma {:induction false} ScanFieldsInv(u: Universe, root: StructId, s0: BuildState, s: BuildState, d: nat,
                                         scan: Scan, id: StructId, n: nat)
    requires WellNamed(u) && ScanAt(u, root, scan, d) && StructOf(u, scan.ty) == Some(id)
    requires n <= |u.structs[id].fields|
    requires LevelInv(u, root, s0, s, d)
    ensures LevelInv(u, root, s0, ScanFields(s, scan, u.structs[id].fields, n), d)
  {
    if n > 0 {
      ScanFieldsInv(u, root, s0, s, d, scan, id, n - 1);
      ScanFieldStep(u, root, s0, s, d, scan, id, n);
    }
  }

  /** Field `n - 1` of the struct keeps the level invariant. */
  lemma ScanFieldStep(u: Universe, root: StructId, s0: BuildState, s: BuildState, d: nat,
                      scan: Scan, id: StructId, n: nat)
    requires WellNamed(u) && ScanAt(u, root, scan, d) && StructOf(u, scan.ty) == Some(id)
    requires 0 < n <= |u.structs[id].fields|
    requires LevelInv(u, root, s0, ScanFields(s, scan, u.structs[id].fields, n - 1), d)
    ensures LevelInv(u, root, s0, ScanFields(s, scan, u.structs[id].fields, n), d)
  {
    var fs := u.structs[id].fields;
    VisitFieldInv(u, root, s0, ScanFields(s, scan, fs, n - 1), d, scan, id, n - 1, ScanFields(s, scan, fs, n));
  }

  lemma {:induction false} ScanLevelInv(u: Universe, root: StructId, s0: BuildState, s: BuildState, d: nat,
                                        current: seq<Scan>, n: nat)
    requires WellNamed(u) && n <= |current|
    requires forall sc | sc in current :: ScanAt(u, root, sc, d)
    requires LevelInv(u, root, s0, s, d)
    ensures LevelInv(u, root, s0, ScanLevel(u, s, current, n), d)
  {
    if n > 0 {
      ScanLevelInv(u, root, s0, s, d, current, n - 1);
      var sp := ScanLevel(u, s, current, n - 1);
      var scan := current[n - 1];
      var t := StructOf(u, scan.ty);
      if t.Some? && t.value !in sp.visited {
        ScanFieldsInv(u, root, s0, sp.(visited := sp.visited + {t.value}), d, scan, t.value,
                      |u.structs[t.value].fields|);
      }
    }
  }

  /** Publishing distinct names lists each at most once. */
  lemma {:induction false} PublishDistinct(fields: map<string, FieldInfo>, found: seq<string>)
    requires Distinct(found)
    ensures Distinct(Publish(fields, found))
  {
    if found != [] {
      var init := found[..|found| - 1];
      assert Distinct(init);
      PublishDistinct(fields, init);
      var last := found[|found| - 1];
      assert last !in init;
      assert last !in Publish(fields, init);
    }
  }

  /** What holds between levels at depth `d`. */
  predicate BoundaryInv(u: Universe, root: StructId, s: BuildState, d: nat) {
    && WellFormed(u, root, StructFields(s.fields, s.allNames, s.conflict))
    && (forall k | k in s.fields :: |s.fields[k].fieldIndex| <= d)
  }

  /** One level turns the boundary invariant at depth `d` into that at
      `d + 1`. */
  lemma EndLevelInv(u: Universe, root: StructId, s0: BuildState, s1: BuildState, d: nat)
    requires BoundaryInv(u, root, s0, d) && LevelInv(u, root, s0, s1, d)
    ensures BoundaryInv(u, root, EndLevel(s1), d + 1)
  {
    var p := Publish(s1.fields, s1.found);
    PublishDistinct(s1.fields, s1.found);
    forall x | x in s1.allNames ensures x !in p {
      assert x in s0.fields;
    }
    DistinctAppend(s1.allNames, p);
    forall i, j | 0 <= i < j < |s1.allNames| && s1.allNames[i] in s1.fields && s1.allNames[j] in s1.fields
      ensures |s1.fields[s1.allNames[i]].fieldIndex| <= |s1.fields[s1.allNames[j]].fieldIndex|
    {
      assert s1.allNames[i] in s0.fields && s1.allNames[j] in s0.fields;
    }
    ByDepthAppend(s1.fields, s1.allNames, p, d);
  }

  /** Two lists without repeats and without common names join into one
      without repeats. */
  lemma DistinctAppend(a: seq<string>, p: seq<string>)
    requires Distinct(a) && Distinct(p) && forall x | x in a :: x !in p
    ensures Distinct(a + p)
  {
    forall i, j | 0 <= i < j < |a + p| ensures (a + p)[i] != (a + p)[j] {
      if i < |a| && j >= |a| {
        assert (a + p)[i] in a;
        assert (a + p)[j] in p;
      }
    }
  }

  /** Names of depth at most `d`, ordered by depth, followed by names of
      depth `d + 1`, stay ordered by depth. */
  lemma ByDepthAppend(fields: map<string, FieldInfo>, a: seq<string>, p: seq<string>, d: nat)
    requires ByDepth(fields, a)
    requires forall x | x in a && x in fields :: |fields[x].fieldIndex| <= d
    requires forall x | x in p && x in fields :: |fields[x].fieldIndex| == d + 1
    ensures ByDepth(fields, a + p)
  {
    forall i, j | 0 <= i < j < |a + p| && (a + p)[i] in fields && (a + p)[j] in fields
      ensures |fields[(a + p)[i]].fieldIndex| <= |fields[(a + p)[j]].fieldIndex|
    {
      if j < |a| {
        assert (a + p)[i] == a[i] && (a + p)[j] == a[j];
      } else {
        assert (a + p)[j] in p;
        if i < |a| {
          assert (a + p)[i] in a;
        } else {
          assert (a + p)[i] in p;
        }
      }
    }
  }

  /** The remaining levels keep or establish the well-formed shape, never
      change an entry that already exists, and never clear a conflict. */
  lemma {:induction false} LevelsInv(u: Universe, root: StructId, s: BuildState, current: seq<Scan>, d: nat)
    requires WellNamed(u) && BoundaryInv(u, root, s, d)
    requires forall sc | sc in current :: ScanAt(u, root, sc, d)
    ensures var r := Levels(u, s, current);
            && WellFormed(u, root, StructFields(r.fields, r.allNames, r.conflict))
            && (forall k | k in s.fields :: k in r.fields && r.fields[k] == s.fields[k])
            && (s.conflict != "" ==> r.conflict != "")
    decreases |u.structs.Keys - s.visited|, |current|
  {
    var s0 := s.(found := [], next := []);
    if current != [] {
      var s1 := ScanLevel(u, s0, current, |current|);
      ScanLevelVisits(u, s0, current, |current|);
      if s1 != s0 {
        FewerUnvisited(u.structs.Keys, s0.visited, s1.visited);
      }
      ScanLevelInv(u, root, s0, s0, d, current, |current|);
      EndLevelInv(u, root, s0, s1, d);
      LevelsInv(u, root, EndLevel(s1), s1.next, d + 1);
    }
  }

  /** Every key of a finished field map leads to a field that is exported,
      not embedded and not tagged "-", whose JSON name is that key; the
      names are listed once each, exactly the keys, shallower ones first. */
  lemma StructFieldsWellFormed(u: Universe, root: StructId)
    requires WellNamed(u)
    ensures WellFormed(u, root, StructFieldsOf(u, root))
  {
    LevelsInv(u, root, Start, [Scan(Named(root), [])], 0);
  }

  /** The key of every entry is the name its field's tag gives, and the Go
      field name only when the tag gives none: a field tagged with another
      name is never reached by its Go name. */
  lemma TagDecidesKey(u: Universe, root: StructId, key: string)
    requires WellNamed(u) && key in StructFieldsOf(u, root).fields
    ensures var f := FieldAt(u, Named(root), StructFieldsOf(u, root).fields[key].fieldIndex);
            && f.Some? && HasOwnName(f.value)
            && (ParseTag(f.value.tag).0 != "" ==> key == ParseTag(f.value.tag).0)
            && (ParseTag(f.value.tag).0 == "" ==> key == f.value.name)
            && (ParseTag(f.value.tag).0 != "" && ParseTag(f.value.tag).0 != f.value.name ==> key != f.value.name)
  {
    StructFieldsWellFormed(u, root);
  }
}

module FieldConflicts {
  import opened Reflect
  import opened Errors
  import opened Fields
  import opened FieldLemmas

  /** How one field step treats a given name. */
  lemma VisitName(s: BuildState, scan: Scan, i: nat, f: Field, name: string, r: BuildState)
    requires r == VisitField(s, scan, i, f)
    ensures && (name in s.found ==> name in r.found)
            && ((name in s.found || name !in s.fields) ==> (name in r.found || name !in r.fields))
            && ((name in s.found && name !in s.fields) ==> name !in r.fields)
            && ((s.conflict != "" && f.name != "") ==> r.conflict != "")
            && ((HasOwnName(f) && JsonName(f) == name && (name in s.found || name !in s.fields))
                ==> name in r.found)
            && ((HasOwnName(f) && JsonName(f) == name && name in s.found)
                ==> name !in r.fields && r.conflict == name)
            && ((!HasOwnName(f) || JsonName(f) != name)
                ==> (name in r.found <==> name in s.found) && (name in r.fields <==> name in s.fields)
                    && (name in s.fields ==> r.fields[name] == s.fields[name]))
  {
  }

  /** From state `a` to the later state `b` of one struct's scan: a found
      name stays found, an unresolved name stays unresolved, a dropped name
      stays dropped, and a conflict is never cleared. */
  predicate Kept(a: BuildState, b: BuildState, name: string) {
    && (name in a.found ==> name in b.found)
    && ((name in a.found || name !in a.fields) ==> (name in b.found || name !in b.fields))
    && ((name in a.found && name !in a.fields) ==> name !in b.fields)
    && (a.conflict != "" ==> b.conflict != "")
  }

  /** A name that was found in this level stays found, and once it has been
      dropped it is never added back, nor is a conflict ever cleared. */
  lemma {:induction false} ScanKeeps(s: BuildState, scan: Scan, fs: seq<Field>, m: nat, n: nat, name: string)
    requires m <= n <= |fs|
    requires forall k | 0 <= k < |fs| :: fs[k].name != ""
    ensures Kept(ScanFields(s, scan, fs, m), ScanFields(s, scan, fs, n), name)
    decreases n - m
  {
    if m < n {
      ScanKeeps(s, scan, fs, m, n - 1, name);
      VisitName(ScanFields(s, scan, fs, n - 1), scan, n - 1, fs[n - 1], name, ScanFields(s, scan, fs, n));
    }
  }

  /** Fields that do not carry `name` leave its entry alone. */
  lemma {:induction false} ScanOthers(s: BuildState, scan: Scan, fs: seq<Field>, m: nat, n: nat, name: string)
    requires m <= n <= |fs|
    requires forall k | m <= k < n :: !HasOwnName(fs[k]) || JsonName(fs[k]) != name
    ensures var a, b := ScanFields(s, scan, fs, m), ScanFields(s, scan, fs, n);
            && (name in b.found <==> name in a.found) && (name in b.fields <==> name in a.fields)
            && (name in a.fields ==> b.fields[name] == a.fields[name])
    decreases n - m
  {
    if m < n {
      ScanOthers(s, scan, fs, m, n - 1, name);
      VisitName(ScanFields(s, scan, fs, n - 1), scan, n - 1, fs[n - 1], name, ScanFields(s, scan, fs, n));
    }
  }

  /** `name` has been dropped from the field map of state `x` with a
      conflict recorded, and is still counted as found in this level. */
  predicate Dropped(x: BuildState, name: string) {
    name in x.found && name !in x.fields && x.conflict != ""
  }

  /** Two fields of one struct that answer to the same name, scanned when
      that name is not yet resolved at a shallower depth: the name is dropped
      and a conflict is recorded. */
  lemma ScanDuplicate(s: BuildState, scan: Scan, fs: seq<Field>, a: nat, b: nat, name: string)
    requires a < b < |fs|
    requires forall k | 0 <= k < |fs| :: fs[k].name != ""
    requires HasOwnName(fs[a]) && HasOwnName(fs[b]) && JsonName(fs[a]) == name && JsonName(fs[b]) == name
    requires name in s.found || name !in s.fields
    ensures Dropped(ScanFields(s, scan, fs, |fs|), name)
  {
    FoundBy(s, scan, fs, a, b, name);
    DroppedBy(s, scan, fs, b, |fs|, name);
  }

  /** Once the field at `a` has been scanned, its name counts as found,
      still at `b`. */
  lemma FoundBy(s: BuildState, scan: Scan, fs: seq<Field>, a: nat, b: nat, name: string)
    requires a < b <= |fs|
    requires forall k | 0 <= k < |fs| :: fs[k].name != ""
    requires HasOwnName(fs[a]) && JsonName(fs[a]) == name
    requires name in s.found || name !in s.fields
    ensures name in ScanFields(s, scan, fs, b).found
  {
    FoundAfter(s, scan, fs, a, name);
    ScanKeeps(s, scan, fs, a + 1, b, name);
  }

  /** The field at `b` repeats a found name: from then on, up to `n`, the
      name is dropped. */
  lemma DroppedBy(s: BuildState, scan: Scan, fs: seq<Field>, b: nat, n: nat, name: string)
    requires b < n <= |fs|
    requires forall k | 0 <= k < |fs| :: fs[k].name != ""
    requires HasOwnName(fs[b]) && JsonName(fs[b]) == name
    requires name in ScanFields(s, scan, fs, b).found
    ensures Dropped(ScanFields(s, scan, fs, n), name)
  {
    DroppedAfter(s, scan, fs, b, name);
    ScanKeeps(s, scan, fs, b + 1, n, name);
    StaysDropped(ScanFields(s, scan, fs, b + 1), ScanFields(s, scan, fs, n), name);
  }

  /** A dropped name stays dropped in every later state that keeps it. */
  lemma StaysDropped(a: BuildState, b: BuildState, name: string)
    requires Dropped(a, name) && Kept(a, b, name)
    ensures Dropped(b, name)
  {
  }

  /** The first field carrying a name not yet resolved marks it found. */
  lemma FoundAfter(s: BuildState, scan: Scan, fs: seq<Field>, a: nat, name: string)
    requires a < |fs|
    requires forall k | 0 <= k < |fs| :: fs[k].name != ""
    requires HasOwnName(fs[a]) && JsonName(fs[a]) == name
    requires name in s.found || name !in s.fields
    ensures name in ScanFields(s, scan, fs, a + 1).found
  {
    ScanKeeps(s, scan, fs, 0, a, name);
    VisitName(ScanFields(s, scan, fs, a), scan, a, fs[a], name, ScanFields(s, scan, fs, a + 1));
  }

  /** A field carrying a name already found in this level drops it and
      records the conflict. */
  lemma DroppedAfter(s: BuildState, scan: Scan, fs: seq<Field>, b: nat, name: string)
    requires b < |fs| && fs[b].name != ""
    requires HasOwnName(fs[b]) && JsonName(fs[b]) == name
    requires name in ScanFields(s, scan, fs, b).found
    ensures Dropped(ScanFields(s, scan, fs, b + 1), name)
  {
    VisitName(ScanFields(s, scan, fs, b), scan, b, fs[b], name, ScanFields(s, scan, fs, b + 1));
  }

  /** The outer struct's own fields: the first level of the scan. */
  lemma FirstLevel(u: Universe, root: StructId)
    requires WellNamed(u) && root in u.structs
    ensures var fs := u.structs[root].fields;
            var s1 := ScanFields(Start.(visited := {root}), Scan(Named(root), []), fs, |fs|);
            var r := StructFieldsOf(u, root);
            && (forall k | k in s1.fields :: k in r.fields && r.fields[k] == s1.fields[k])
            && (s1.conflict != "" ==> r.conflict != "")
  {
    FirstScan(u, root);
    FirstUnfold(u, root);
    FirstLevelInv(u, root);
    LevelsInv(u, root, EndLevel(ScanLevel(u, Start, [Scan(Named(root), [])], 1)),
              ScanLevel(u, Start, [Scan(Named(root), [])], 1).next, 1);
  }

  /** The first level's queue holds only the outer struct itself. */
  lemma FirstScan(u: Universe, root: StructId)
    requires root in u.structs
    ensures ScanLevel(u, Start, [Scan(Named(root), [])], 1)
            == ScanFields(Start.(visited := {root}), Scan(Named(root), []), u.structs[root].fields,
                          |u.structs[root].fields|)
  {
    assert ScanLevel(u, Start, [Scan(Named(root), [])], 0) == Start;
    assert Start.visited + {root} == {root};
  }

  /** The outer struct's field map is what the later levels make of the
      first one. */
  lemma FirstUnfold(u: Universe, root: StructId)
    ensures var s1 := ScanLevel(u, Start, [Scan(Named(root), [])], 1);
            var r := Levels(u, EndLevel(s1), s1.next);
            StructFieldsOf(u, root) == StructFields(r.fields, r.allNames, r.conflict)
  {
    assert Start.(found := [], next := []) == Start;
  }

  /** After the first level, the boundary invariant holds at depth 1. */
  lemma FirstLevelInv(u: Universe, root: StructId)
    requires WellNamed(u) && root in u.structs
    ensures BoundaryInv(u, root, EndLevel(ScanLevel(u, Start, [Scan(Named(root), [])], 1)), 1)
    ensures forall sc | sc in ScanLevel(u, Start, [Scan(Named(root), [])], 1).next :: ScanAt(u, root, sc, 1)
  {
    var scan0 := Scan(Named(root), []);
    assert StructOf(u, scan0.ty) == Some(root);
    assert BoundaryInv(u, root, Start, 0);
    ScanLevelInv(u, root, Start, Start, 0, [scan0], 1);
    EndLevelInv(u, root, Start, ScanLevel(u, Start, [scan0], 1), 0);
  }

  /** A field declared directly in the struct, whose name no other direct
      field shares, is what its key resolves to: no embedded field can
      shadow it. */
  lemma DirectFieldWins(u: Universe, root: StructId, i: nat)
    requires WellNamed(u) && root in u.structs && i < |u.structs[root].fields|
    requires HasOwnName(u.structs[root].fields[i])
    requires forall j | 0 <= j < |u.structs[root].fields| && j != i ::
               !HasOwnName(u.structs[root].fields[j])
               || JsonName(u.structs[root].fields[j]) != JsonName(u.structs[root].fields[i])
    ensures var name := JsonName(u.structs[root].fields[i]);
            var sf := StructFieldsOf(u, root);
            name in sf.fields && sf.fields[name] == FieldInfo(name, [i])
  {
    DirectEntry(u.structs[root].fields, root, i);
    FirstLevel(u, root);
  }

  /** In the first level, the only field answering to a name records its
      own position under that name. */
  lemma DirectEntry(fs: seq<Field>, root: StructId, i: nat)
    requires i < |fs| && HasOwnName(fs[i])
    requires forall j | 0 <= j < |fs| && j != i :: !HasOwnName(fs[j]) || JsonName(fs[j]) != JsonName(fs[i])
    ensures var s1 := ScanFields(Start.(visited := {root}), Scan(Named(root), []), fs, |fs|);
            JsonName(fs[i]) in s1.fields && s1.fields[JsonName(fs[i])] == FieldInfo(JsonName(fs[i]), [i])
  {
    OnlyNamer(Start.(visited := {root}), Scan(Named(root), []), fs, i);
    assert [] + [i] == [i];
  }

  /** A scan starting with a name neither found nor present, in which a
      single field answers to that name, records that field's position. */
  lemma OnlyNamer(s: BuildState, scan: Scan, fs: seq<Field>, i: nat)
    requires i < |fs| && HasOwnName(fs[i])
    requires JsonName(fs[i]) !in s.fields && JsonName(fs[i]) !in s.found
    requires forall j | 0 <= j < |fs| && j != i :: !HasOwnName(fs[j]) || JsonName(fs[j]) != JsonName(fs[i])
    ensures var r := ScanFields(s, scan, fs, |fs|);
            JsonName(fs[i]) in r.fields && r.fields[JsonName(fs[i])] == FieldInfo(JsonName(fs[i]), scan.index + [i])
  {
    BeforeNamer(s, scan, fs, i, JsonName(fs[i]));
    NamerVisit(ScanFields(s, scan, fs, i), scan, i, fs[i]);
    AfterNamer(s, scan, fs, i, JsonName(fs[i]));
  }

  /** Fields that do not answer to `name` leave it neither found nor present. */
  lemma BeforeNamer(s: BuildState, scan: Scan, fs: seq<Field>, i: nat, name: string)
    requires i < |fs| && name !in s.fields && name !in s.found
    requires forall j | 0 <= j < i :: !HasOwnName(fs[j]) || JsonName(fs[j]) != name
    ensures name !in ScanFields(s, scan, fs, i).fields && name !in ScanFields(s, scan, fs, i).found
  {
    ScanOthers(s, scan, fs, 0, i, name);
  }

  /** Fields after `i` that do not answer to `name` keep its entry. */
  lemma AfterNamer(s: BuildState, scan: Scan, fs: seq<Field>, i: nat, name: string)
    requires i < |fs| && name in VisitField(ScanFields(s, scan, fs, i), scan, i, fs[i]).fields
    requires forall j | i < j < |fs| :: !HasOwnName(fs[j]) || JsonName(fs[j]) != name
    ensures name in ScanFields(s, scan, fs, |fs|).fields
    ensures ScanFields(s, scan, fs, |fs|).fields[name]
            == VisitField(ScanFields(s, scan, fs, i), scan, i, fs[i]).fields[name]
  {
    ScanOthers(s, scan, fs, i + 1, |fs|, name);
  }

  /** A field whose name is neither found nor present records itself. */
  lemma NamerVisit(s: BuildState, scan: Scan, i: nat, f: Field)
    requires HasOwnName(f) && JsonName(f) !in s.fields && JsonName(f) !in s.found
    ensures var r := VisitField(s, scan, i, f);
            JsonName(f) in r.fields && r.fields[JsonName(f)] == FieldInfo(JsonName(f), scan.index + [i])
  {
  }

  /** Two direct fields that answer to the same name make the struct's
      field map fail with a conflict, whatever the input. */
  lemma DirectConflict(u: Universe, root: StructId, a: nat, b: nat)
    requires WellNamed(u) && root in u.structs && a < b < |u.structs[root].fields|
    requires HasOwnName(u.structs[root].fields[a]) && HasOwnName(u.structs[root].fields[b])
    requires JsonName(u.structs[root].fields[a]) == JsonName(u.structs[root].fields[b])
    ensures StructFieldsOf(u, root).conflict != ""
    ensures GetStructFields(u, root).Err? && GetStructFields(u, root).err.FieldConflictError?
  {
    var fs := u.structs[root].fields;
    ScanDuplicate(Start.(visited := {root}), Scan(Named(root), []), fs, a, b, JsonName(fs[a]));
    FirstLevel(u, root);
  }

  /** Two embedded structs that both declare a field "name", and an outer
      struct that embeds both. */
  const EmbeddedPair := Universe(map[
    0 := StructDef([Field("A", "", true, true, Named(1)), Field("B", "", true, true, Named(2))], false),
    1 := StructDef([Field("Name", "name", true, false, Prim)], false),
    2 := StructDef([Field("Name", "name", true, false, Prim)], false)])

  /** The outer struct's field map fails with a conflict on "name". */
  lemma EmbeddedConflictExample()
    ensures GetStructFields(EmbeddedPair, 0) == Err(FieldConflictError("name"))
  {
    var u := EmbeddedPair;
    var scan0 := Scan(Named(0), []);
    var a, b := Scan(Named(1), [0]), Scan(Named(2), [1]);
    var s1 := ScanLevel(u, Start, [scan0], 1);
    ExampleOuterLevel();
    var s2 := EndLevel(s1);
    assert s2 == BuildState(map[], [], "", {0}, [], []);
    var t2 := ScanLevel(u, s2, [a, b], 2);
    ExampleEmbeddedLevel();
    assert Publish(map[], ["name"]) == [];
    assert Levels(u, Start, [scan0]) == Levels(u, s2, [a, b]);
    assert Levels(u, s2, [a, b]) == Levels(u, EndLevel(t2), []);
  }

  /** The first level only queues the two embedded structs. */
  lemma ExampleOuterLevel()
    ensures ScanLevel(EmbeddedPair, Start, [Scan(Named(0), [])], 1)
            == BuildState(map[], [], "", {0}, [], [Scan(Named(1), [0]), Scan(Named(2), [1])])
  {
    var u := EmbeddedPair;
    var scan0 := Scan(Named(0), []);
    var a, b := Scan(Named(1), [0]), Scan(Named(2), [1]);
    var sv := Start.(visited := {0});
    var fs0 := u.structs[0].fields;
    assert ScanLevel(u, Start, [scan0], 1) == ScanFields(sv, scan0, fs0, 2) by {
      assert ScanLevel(u, Start, [scan0], 0) == Start;
      assert Start.visited + {0} == {0};
    }
    assert [] + [0] == [0] && [] + [1] == [1];
    assert ScanFields(sv, scan0, fs0, 1) == VisitField(sv, scan0, 0, fs0[0]);
    assert ScanFields(sv, scan0, fs0, 1) == sv.(next := [a]);
    assert ScanFields(sv, scan0, fs0, 2) == VisitField(sv.(next := [a]), scan0, 1, fs0[1]);
    assert [a] + [b] == [a, b];
  }

  /** A field tagged `json:"name"` is published as "name". */
  lemma NameTagged()
    ensures JsonName(Field("Name", "name", true, false, Prim)) == "name"
  {
    assert CommaIndex("name") == -1 by {
      assert "name"[1..] == "ame" && "ame"[1..] == "me" && "me"[1..] == "e" && "e"[1..] == "";
    }
  }

  /** The first embedded struct resolves "name" to its own field. */
  lemma ExampleFirstEmbedded()
    ensures ScanLevel(EmbeddedPair, BuildState(map[], [], "", {0}, [], []),
                      [Scan(Named(1), [0]), Scan(Named(2), [1])], 1)
            == BuildState(map["name" := FieldInfo("name", [0, 0])], [], "", {0, 1}, ["name"], [])
  {
    var u := EmbeddedPair;
    var s2 := BuildState(map[], [], "", {0}, [], []);
    var a, b := Scan(Named(1), [0]), Scan(Named(2), [1]);
    var nameField := Field("Name", "name", true, false, Prim);
    NameTagged();
    assert ScanLevel(u, s2, [a, b], 0) == s2;
    assert StructOf(u, a.ty) == Some(1);
    var sa := s2.(visited := {0, 1});
    assert s2.visited + {1} == {0, 1};
    assert ScanLevel(u, s2, [a, b], 1) == ScanFields(sa, a, [nameField], 1);
    assert [0] + [0] == [0, 0] && [] + ["name"] == ["name"];
    assert ScanFields(sa, a, [nameField], 1) == VisitField(sa, a, 0, nameField);
  }

  /** The second level resolves "name" in the first embedded struct and
      drops it again in the second. */
  lemma ExampleEmbeddedLevel()
    ensures ScanLevel(EmbeddedPair, BuildState(map[], [], "", {0}, [], []),
                      [Scan(Named(1), [0]), Scan(Named(2), [1])], 2)
            == BuildState(map[], [], "name", {0, 1, 2}, ["name"], [])
  {
    var u := EmbeddedPair;
    var s2 := BuildState(map[], [], "", {0}, [], []);
    var a, b := Scan(Named(1), [0]), Scan(Named(2), [1]);
    var nameField := Field("Name", "name", true, false, Prim);
    NameTagged();
    ExampleFirstEmbedded();
    var t1 := BuildState(map["name" := FieldInfo("name", [0, 0])], [], "", {0, 1}, ["name"], []);
    assert StructOf(u, b.ty) == Some(2);
    var sb := t1.(visited := {0, 1, 2});
    assert t1.visited + {2} == {0, 1, 2};
    assert ScanLevel(u, s2, [a, b], 2) == ScanFields(sb, b, [nameField], 1);
    assert ScanFields(sb, b, [nameField], 1) == VisitField(sb, b, 0, nameField);
    assert map["name" := FieldInfo("name", [0, 0])] - {"name"} == map[];
  }
}

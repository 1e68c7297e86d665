/**
 * Conflicts between fields of different structs scanned in one breadth-first
 * level (fields.go:57-132): two embedded structs at one depth that both
 * declare a name drop it and record a conflict, which no later level clears.
 */
module EmbeddedConflicts {
  import opened Reflect
  import opened Errors
  import opened Fields
  import opened FieldLemmas
  import opened FieldConflicts

  lemma KeptTrans(a: BuildState, b: BuildState, c: BuildState, name: string)
    requires Kept(a, b, name) && Kept(b, c, name)
    ensures Kept(a, c, name)
  {
  }

  /** Scanning one queue entry keeps what is known about a name. */
  lemma ScanOneKept(u: Universe, s: BuildState, scan: Scan, name: string)
    requires WellNamed(u)
    ensures Kept(s, ScanOne(u, s, scan), name)
  {
    var t := StructOf(u, scan.ty);
    if t.Some? && t.value !in s.visited {
      var fs := u.structs[t.value].fields;
      ScanKeeps(s.(visited := s.visited + {t.value}), scan, fs, 0, |fs|, name);
    }
  }

  /** Scanning queue entries `m` to `n` of a level keeps what is known about
      a name. */
  lemma {:induction false} ScanLevelKept(u: Universe, s: BuildState, current: seq<Scan>, m: nat, n: nat, name: string)
    requires WellNamed(u) && m <= n <= |current|
    ensures Kept(ScanLevel(u, s, current, m), ScanLevel(u, s, current, n), name)
    decreases n
  {
    if m < n {
      ScanLevelKept(u, s, current, m, n - 1, name);
      ScanOneKept(u, ScanLevel(u, s, current, n - 1), current[n - 1], name);
      KeptTrans(ScanLevel(u, s, current, m), ScanLevel(u, s, current, n - 1), ScanLevel(u, s, current, n), name);
    }
  }

  /** A struct type that became visited within the first `n` queue entries
      was scanned by one of them. */
  lemma {:induction false} VisitedBy(u: Universe, s: BuildState, current: seq<Scan>, n: nat, id: StructId)
    returns (c: nat)
    requires n <= |current| && id !in s.visited && id in ScanLevel(u, s, current, n).visited
    ensures c < n && id !in ScanLevel(u, s, current, c).visited && StructOf(u, current[c].ty) == Some(id)
    decreases n
  {
    var p := ScanLevel(u, s, current, n - 1);
    if id in p.visited {
      c := VisitedBy(u, s, current, n - 1, id);
    } else {
      c := n - 1;
      var t := StructOf(u, current[n - 1].ty);
      if t.Some? && t.value !in p.visited {
        var fs := u.structs[t.value].fields;
        ScanFieldsKeepsVisited(p.(visited := p.visited + {t.value}), current[n - 1], fs, |fs|);
      }
    }
  }

  /** A queue entry of a struct type not visited when the level starts: that
      type is scanned at this entry or at an earlier entry of the same type. */
  lemma FirstScanOf(u: Universe, s: BuildState, current: seq<Scan>, a: nat, id: StructId) returns (c: nat)
    requires a < |current| && StructOf(u, current[a].ty) == Some(id) && id !in s.visited
    ensures c <= a && id !in ScanLevel(u, s, current, c).visited && StructOf(u, current[c].ty) == Some(id)
  {
    if id in ScanLevel(u, s, current, a).visited {
      c := VisitedBy(u, s, current, a, id);
    } else {
      c := a;
    }
  }

  /** Scanning a struct that declares `name`, while the name is found in this
      level or absent, leaves it found. */
  lemma ScanFinds(u: Universe, s: BuildState, scan: Scan, id: StructId, i: nat, name: string)
    requires WellNamed(u) && StructOf(u, scan.ty) == Some(id) && id !in s.visited
    requires i < |u.structs[id].fields| && HasOwnName(u.structs[id].fields[i])
    requires JsonName(u.structs[id].fields[i]) == name
    requires name in s.found || name !in s.fields
    ensures name in ScanOne(u, s, scan).found
  {
    FoundBy(s.(visited := s.visited + {id}), scan, u.structs[id].fields, i, |u.structs[id].fields|, name);
  }

  /** Scanning a struct that declares a name already found in this level
      drops the name. */
  lemma ScanRepeats(u: Universe, s: BuildState, scan: Scan, id: StructId, j: nat, name: string)
    requires WellNamed(u) && StructOf(u, scan.ty) == Some(id) && id !in s.visited
    requires j < |u.structs[id].fields| && HasOwnName(u.structs[id].fields[j])
    requires JsonName(u.structs[id].fields[j]) == name
    requires name in s.found
    ensures Dropped(ScanOne(u, s, scan), name)
  {
    var fs := u.structs[id].fields;
    ScanKeeps(s.(visited := s.visited + {id}), scan, fs, 0, j, name);
    DroppedBy(s.(visited := s.visited + {id}), scan, fs, j, |fs|, name);
  }

  /** The two structs scanned in queue order: the first finds the name, the
      second drops it, and the rest of the level keeps it dropped. */
  lemma OrderedConflict(u: Universe, s: BuildState, current: seq<Scan>, ca: nat, cb: nat,
                        ia: StructId, ib: StructId, i: nat, j: nat, name: string)
    requires WellNamed(u) && ca < cb < |current|
    requires StructOf(u, current[ca].ty) == Some(ia) && ia !in ScanLevel(u, s, current, ca).visited
    requires StructOf(u, current[cb].ty) == Some(ib) && ib !in ScanLevel(u, s, current, cb).visited
    requires i < |u.structs[ia].fields| && HasOwnName(u.structs[ia].fields[i])
    requires JsonName(u.structs[ia].fields[i]) == name
    requires j < |u.structs[ib].fields| && HasOwnName(u.structs[ib].fields[j])
    requires JsonName(u.structs[ib].fields[j]) == name
    requires name in s.found || name !in s.fields
    ensures Dropped(ScanLevel(u, s, current, |current|), name)
  {
    FoundAt(u, s, current, ca, ia, i, name);
    DroppedAt(u, s, current, ca, cb, ib, j, name);
  }

  /** The first of the two structs leaves the name found. */
  lemma FoundAt(u: Universe, s: BuildState, current: seq<Scan>, c: nat, id: StructId, i: nat, name: string)
    requires WellNamed(u) && c < |current|
    requires StructOf(u, current[c].ty) == Some(id) && id !in ScanLevel(u, s, current, c).visited
    requires i < |u.structs[id].fields| && HasOwnName(u.structs[id].fields[i])
    requires JsonName(u.structs[id].fields[i]) == name
    requires name in s.found || name !in s.fields
    ensures name in ScanLevel(u, s, current, c + 1).found
  {
    ScanLevelKept(u, s, current, 0, c, name);
    ScanFinds(u, ScanLevel(u, s, current, c), current[c], id, i, name);
  }

  /** The second of the two structs drops the name, and the rest of the
      level keeps it dropped. */
  lemma DroppedAt(u: Universe, s: BuildState, current: seq<Scan>, ca: nat, cb: nat, id: StructId, j: nat,
                  name: string)
    requires WellNamed(u) && ca < cb < |current|
    requires StructOf(u, current[cb].ty) == Some(id) && id !in ScanLevel(u, s, current, cb).visited
    requires j < |u.structs[id].fields| && HasOwnName(u.structs[id].fields[j])
    requires JsonName(u.structs[id].fields[j]) == name
    requires name in ScanLevel(u, s, current, ca + 1).found
    ensures Dropped(ScanLevel(u, s, current, |current|), name)
  {
    ScanLevelKept(u, s, current, ca + 1, cb, name);
    ScanRepeats(u, ScanLevel(u, s, current, cb), current[cb], id, j, name);
    ScanLevelKept(u, s, current, cb + 1, |current|, name);
    StaysDropped(ScanLevel(u, s, current, cb + 1), ScanLevel(u, s, current, |current|), name);
  }

  /** Two struct types of one level's queue, distinct and not visited before
      the level, that both declare `name` while no shallower field holds it:
      at the end of the level the name is dropped and a conflict recorded. */
  lemma LevelConflict(u: Universe, s: BuildState, current: seq<Scan>, a: nat, b: nat,
                      ia: StructId, ib: StructId, i: nat, j: nat, name: string)
    requires WellNamed(u) && a < |current| && b < |current| && ia != ib
    requires StructOf(u, current[a].ty) == Some(ia) && ia !in s.visited
    requires StructOf(u, current[b].ty) == Some(ib) && ib !in s.visited
    requires i < |u.structs[ia].fields| && HasOwnName(u.structs[ia].fields[i])
    requires JsonName(u.structs[ia].fields[i]) == name
    requires j < |u.structs[ib].fields| && HasOwnName(u.structs[ib].fields[j])
    requires JsonName(u.structs[ib].fields[j]) == name
    requires name !in s.fields
    ensures Dropped(ScanLevel(u, s.(found := [], next := []), current, |current|), name)
  {
    var s0 := s.(found := [], next := []);
    var ca := FirstScanOf(u, s0, current, a, ia);
    var cb := FirstScanOf(u, s0, current, b, ib);
    if ca < cb {
      OrderedConflict(u, s0, current, ca, cb, ia, ib, i, j, name);
    } else {
      OrderedConflict(u, s0, current, cb, ca, ib, ia, j, i, name);
    }
  }

  /** Later levels never clear a conflict. */
  lemma {:induction false} LevelsKeepConflict(u: Universe, s: BuildState, current: seq<Scan>)
    requires WellNamed(u) && s.conflict != ""
    ensures Levels(u, s, current).conflict != ""
    decreases |u.structs.Keys - s.visited|, |current|
  {
    var s0 := s.(found := [], next := []);
    if current != [] {
      var s1 := ScanLevel(u, s0, current, |current|);
      ScanLevelVisits(u, s0, current, |current|);
      if s1 != s0 {
        FewerUnvisited(u.structs.Keys, s0.visited, s1.visited);
      }
      ScanLevelKept(u, s0, current, 0, |current|, "");
      LevelsKeepConflict(u, EndLevel(s1), s1.next);
    }
  }

  /** The builder's state and queue when level `k` starts (or when the scan
      has ended, if it ends sooner). */
  function LevelStart(u: Universe, s: BuildState, current: seq<Scan>, k: nat): (BuildState, seq<Scan>)
    decreases k
  {
    if k == 0 || current == [] then (s, current)
    else
      var s1 := ScanLevel(u, s.(found := [], next := []), current, |current|);
      LevelStart(u, EndLevel(s1), s1.next, k - 1)
  }

  /** The result of the scan is what the levels from level `k` on make of
      the state at its start. */
  lemma {:induction false} LevelsFrom(u: Universe, s: BuildState, current: seq<Scan>, k: nat)
    ensures Levels(u, s, current) == Levels(u, LevelStart(u, s, current, k).0, LevelStart(u, s, current, k).1)
    decreases k
  {
    if k > 0 && current != [] {
      var s1 := ScanLevel(u, s.(found := [], next := []), current, |current|);
      LevelsFrom(u, EndLevel(s1), s1.next, k - 1);
    }
  }

  /** The embedded conflict: in some level of the scan of struct `root`, two
      distinct struct types not scanned before both declare `name`, and no
      shallower field holds it.  Then the field map records a conflict and
      getStructFields fails with a `fieldConflictError`, for every universe. */
  lemma EmbeddedConflict(u: Universe, root: StructId, k: nat, a: nat, b: nat,
                         ia: StructId, ib: StructId, i: nat, j: nat, name: string)
    requires WellNamed(u) && ia != ib
    requires var q := LevelStart(u, Start, [Scan(Named(root), [])], k).1;
             && a < |q| && StructOf(u, q[a].ty) == Some(ia)
             && b < |q| && StructOf(u, q[b].ty) == Some(ib)
    requires var t := LevelStart(u, Start, [Scan(Named(root), [])], k).0;
             ia !in t.visited && ib !in t.visited && name !in t.fields
    requires ia in u.structs && i < |u.structs[ia].fields| && HasOwnName(u.structs[ia].fields[i])
    requires JsonName(u.structs[ia].fields[i]) == name
    requires ib in u.structs && j < |u.structs[ib].fields| && HasOwnName(u.structs[ib].fields[j])
    requires JsonName(u.structs[ib].fields[j]) == name
    ensures StructFieldsOf(u, root).conflict != ""
    ensures GetStructFields(u, root).Err? && GetStructFields(u, root).err.FieldConflictError?
  {
    var t := LevelStart(u, Start, [Scan(Named(root), [])], k).0;
    var q := LevelStart(u, Start, [Scan(Named(root), [])], k).1;
    LevelsFrom(u, Start, [Scan(Named(root), [])], k);
    LevelConflict(u, t, q, a, b, ia, ib, i, j, name);
    var s1 := ScanLevel(u, t.(found := [], next := []), q, |q|);
    LevelsKeepConflict(u, EndLevel(s1), s1.next);
  }

  /** Outer embeds A and B, which both declare "name"; A also embeds C,
      which declares "name" as well. */
  const DeepRename := Universe(map[
    0 := StructDef([Field("A", "", true, true, Named(1)), Field("B", "", true, true, Named(2))], false),
    1 := StructDef([Field("Name", "name", true, false, Prim), Field("C", "", true, true, Named(3))], false),
    2 := StructDef([Field("Name", "name", true, false, Prim)], false),
    3 := StructDef([Field("Name", "name", true, false, Prim)], false)])

  /** The conflict at the second level does not keep "name" out of the map:
      the level below finds it afresh, so the field map holds C's field and
      the conflict is still reported. */
  lemma DeeperLevelReAdds()
    ensures StructFieldsOf(DeepRename, 0)
            == StructFields(map["name" := FieldInfo("name", [0, 1, 0])], ["name"], "name")
    ensures GetStructFields(DeepRename, 0) == Err(FieldConflictError("name"))
  {
    var u := DeepRename;
    var scan0 := Scan(Named(0), []);
    var a, b, c := Scan(Named(1), [0]), Scan(Named(2), [1]), Scan(Named(3), [0, 1]);
    DeepOuterLevel();
    var s2 := BuildState(map[], [], "", {0}, [], []);
    assert EndLevel(ScanLevel(u, Start, [scan0], 1)) == s2;
    DeepMiddleLevel();
    var s3 := BuildState(map[], [], "name", {0, 1, 2}, [], []);
    assert Publish(map[], ["name"]) == [];
    assert EndLevel(ScanLevel(u, s2, [a, b], 2)) == s3;
    DeepInnerLevel();
    var t3 := BuildState(map["name" := FieldInfo("name", [0, 1, 0])], [], "name", {0, 1, 2, 3}, ["name"], []);
    assert Publish(t3.fields, ["name"]) == ["name"] by {
      assert ["name"][..0] == [];
    }
    assert Levels(u, Start, [scan0]) == Levels(u, s2, [a, b]);
    assert Levels(u, s2, [a, b]) == Levels(u, s3, [c]);
    assert Levels(u, s3, [c]) == Levels(u, EndLevel(t3), []);
  }

  /** The first level queues A and B. */
  lemma DeepOuterLevel()
    ensures ScanLevel(DeepRename, Start, [Scan(Named(0), [])], 1)
            == BuildState(map[], [], "", {0}, [], [Scan(Named(1), [0]), Scan(Named(2), [1])])
  {
    var u := DeepRename;
    var scan0 := Scan(Named(0), []);
    var a, b := Scan(Named(1), [0]), Scan(Named(2), [1]);
    var sv := Start.(visited := {0});
    var fs0 := u.structs[0].fields;
    assert ScanLevel(u, Start, [scan0], 1) == ScanFields(sv, scan0, fs0, 2) by {
      assert ScanLevel(u, Start, [scan0], 0) == Start;
      assert Start.visited + {0} == {0};
    }
    assert [] + [0] == [0] && [] + [1] == [1];
    assert ScanFields(sv, scan0, fs0, 1) == sv.(next := [a]);
    assert [a] + [b] == [a, b];
  }

  /** The second level finds "name" in A, queues C, and drops "name" in B. */
  lemma DeepMiddleLevel()
    ensures ScanLevel(DeepRename, BuildState(map[], [], "", {0}, [], []),
                      [Scan(Named(1), [0]), Scan(Named(2), [1])], 2)
            == BuildState(map[], [], "name", {0, 1, 2}, ["name"], [Scan(Named(3), [0, 1])])
  {
    var u := DeepRename;
    var s2 := BuildState(map[], [], "", {0}, [], []);
    var a, b := Scan(Named(1), [0]), Scan(Named(2), [1]);
    var nameField := Field("Name", "name", true, false, Prim);
    var fs1 := u.structs[1].fields;
    NameTagged();
    assert ScanLevel(u, s2, [a, b], 0) == s2;
    assert StructOf(u, a.ty) == Some(1);
    var sa := s2.(visited := {0, 1});
    assert s2.visited + {1} == {0, 1};
    assert ScanLevel(u, s2, [a, b], 1) == ScanFields(sa, a, fs1, 2);
    assert [0] + [0] == [0, 0] && [0] + [1] == [0, 1] && [] + ["name"] == ["name"];
    var t0 := sa.(fields := map["name" := FieldInfo("name", [0, 0])], found := ["name"]);
    assert ScanFields(sa, a, fs1, 1) == t0;
    var t1 := t0.(next := [Scan(Named(3), [0, 1])]);
    assert ScanLevel(u, s2, [a, b], 1) == t1;
    assert StructOf(u, b.ty) == Some(2);
    var sb := t1.(visited := {0, 1, 2});
    assert t1.visited + {2} == {0, 1, 2};
    assert ScanLevel(u, s2, [a, b], 2) == ScanFields(sb, b, [nameField], 1);
    assert ScanFields(sb, b, [nameField], 1) == VisitField(sb, b, 0, nameField);
    assert map["name" := FieldInfo("name", [0, 0])] - {"name"} == map[];
  }

  /** The third level finds "name" in C afresh. */
  lemma DeepInnerLevel()
    ensures ScanLevel(DeepRename, BuildState(map[], [], "name", {0, 1, 2}, [], []),
                      [Scan(Named(3), [0, 1])], 1)
            == BuildState(map["name" := FieldInfo("name", [0, 1, 0])], [], "name", {0, 1, 2, 3}, ["name"], [])
  {
    var u := DeepRename;
    var s3 := BuildState(map[], [], "name", {0, 1, 2}, [], []);
    var c := Scan(Named(3), [0, 1]);
    var nameField := Field("Name", "name", true, false, Prim);
    NameTagged();
    assert ScanLevel(u, s3, [c], 0) == s3;
    assert StructOf(u, c.ty) == Some(3);
    var sc := s3.(visited := {0, 1, 2, 3});
    assert s3.visited + {3} == {0, 1, 2, 3};
    assert ScanLevel(u, s3, [c], 1) == ScanFields(sc, c, [nameField], 1);
    assert [0, 1] + [0] == [0, 1, 0] && [] + ["name"] == ["name"];
    assert ScanFields(sc, c, [nameField], 1) == VisitField(sc, c, 0, nameField);
  }
}

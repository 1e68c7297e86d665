/**
 * The field map of a struct type (fields.go): which JSON key reaches which
 * field, found breadth-first by embedding depth, with shallower fields
 * shadowing deeper ones and two fields of one name at one depth marking a
 * conflict.
 */
module Fields {
  import opened Reflect
  import opened Errors

  /** Where a JSON key lands: the key itself and the path of field indexes
      from the outer struct through embedded structs to the field. */
  datatype FieldInfo = FieldInfo(jsonName: string, fieldIndex: seq<nat>)

  /** The field map of one struct type, the keys in the order they were
      published, and the last name that was found twice at one depth ("" for
      none). */
  datatype StructFields = StructFields(fields: map<string, FieldInfo>, allNames: seq<string>, conflict: string)

  /** The index of the first comma of `s`, or -1 (strings.Index). */
  function CommaIndex(s: string): (r: int)
    ensures r == -1 <==> ',' !in s
    ensures r != -1 ==> 0 <= r < |s| && s[r] == ',' && ',' !in s[..r]
  {
    if s == [] then -1
    else if s[0] == ',' then 0
    else
      var k := CommaIndex(s[1..]);
      assert s == [s[0]] + s[1..];
      if k == -1 then -1
      else
        assert s[..k + 1] == [s[0]] + s[1..][..k];
        k + 1
  }

  /** parseTag: a `json` tag splits at its first comma into the name and the
      options; without a comma the whole tag is the name. */
  function ParseTag(tag: string): (r: (string, string))
    ensures ',' in tag ==> r.0 + "," + r.1 == tag && ',' !in r.0
    ensures ',' !in tag ==> r == (tag, "")
  {
    var idx := CommaIndex(tag);
    if idx != -1 then
      assert tag == tag[..idx] + "," + tag[idx + 1..];
      (tag[..idx], tag[idx + 1..])
    else (tag, "")
  }

  /** The key a field answers to: the tag's name part, or the Go field name
      when that part is empty. */
  function JsonName(f: Field): (name: string)
    ensures ParseTag(f.tag).0 == "" ==> name == f.name
    ensures ParseTag(f.tag).0 != "" ==> name == ParseTag(f.tag).0 && ',' !in name && name <= f.tag
  {
    var (name, _) := ParseTag(f.tag);
    if name == "" then f.name else name
  }

  /** A field that is neither embedded, unexported nor tagged "-": one that
      gets a JSON name of its own. */
  predicate HasOwnName(f: Field) {
    !f.anonymous && f.exported && f.tag != "-"
  }

  /** Go field names are never empty. */
  predicate WellNamed(u: Universe) {
    forall id, i | id in u.structs && 0 <= i < |u.structs[id].fields| :: u.structs[id].fields[i].name != ""
  }

  /** `t` with its pointer layers removed. */
  function StripPtr(t: Ty): (r: Ty)
    ensures !r.Ptr?
  {
    if t.Ptr? then StripPtr(t.elem) else t
  }

  /** The struct declaration a scanned type stands for, if it is a struct. */
  function StructOf(u: Universe, t: Ty): Option<StructId> {
    var st := StripPtr(t);
    if st.Named? && st.id in u.structs then Some(st.id) else None
  }

  /** One entry of a breadth-first level: a type to scan and the index path
      that leads to it. */
  datatype Scan = Scan(ty: Ty, index: seq<nat>)

  /** The builder's variables: the result under construction, the struct
      types already scanned, the names added during the current level in the
      order they were added, and the queue for the next level. */
  datatype BuildState = BuildState(
    fields: map<string, FieldInfo>,
    allNames: seq<string>,
    conflict: string,
    visited: set<StructId>,
    found: seq<string>,
    next: seq<Scan>)

  /** What the builder does with field `i`, declared as `f`, of the struct
      reached by `scan`. */
  function VisitField(s: BuildState, scan: Scan, i: nat, f: Field): BuildState {
    if f.anonymous then s.(next := s.next + [Scan(f.ty, scan.index + [i])])
    else if !f.exported || f.tag == "-" then s
    else
      var name := JsonName(f);
      if name in s.found then s.(fields := s.fields - {name}, conflict := name)
      else if name in s.fields then s
      else s.(fields := s.fields[name := FieldInfo(name, scan.index + [i])], found := s.found + [name])
  }

  /** The first `n` fields of `fs`, taken in declaration order. */
  function ScanFields(s: BuildState, scan: Scan, fs: seq<Field>, n: nat): BuildState
    requires n <= |fs|
  {
    if n == 0 then s else VisitField(ScanFields(s, scan, fs, n - 1), scan, n - 1, fs[n - 1])
  }

  /** One queue entry: skipped unless it is a struct not scanned before. */
  function ScanOne(u: Universe, s: BuildState, scan: Scan): BuildState {
    var t := StructOf(u, scan.ty);
    if t.None? || t.value in s.visited then s
    else
      var fs := u.structs[t.value].fields;
      ScanFields(s.(visited := s.visited + {t.value}), scan, fs, |fs|)
  }

  /** The first `n` entries of one level's queue. */
  function ScanLevel(u: Universe, s: BuildState, current: seq<Scan>, n: nat): BuildState
    requires n <= |current|
  {
    if n == 0 then s else ScanOne(u, ScanLevel(u, s, current, n - 1), current[n - 1])
  }

  /** The names of `found` still present in `fields`, in order. */
  function Publish(fields: map<string, FieldInfo>, found: seq<string>): (r: seq<string>)
    ensures forall x :: x in r <==> x in found && x in fields
  {
    if found == [] then []
    else
      var last := found[|found| - 1];
      assert found == found[..|found| - 1] + [last];
      Publish(fields, found[..|found| - 1]) + (if last in fields then [last] else [])
  }

  /** A complete level: scan the queue, then publish the survivors. */
  function EndLevel(s1: BuildState): BuildState {
    BuildState(s1.fields, s1.allNames + Publish(s1.fields, s1.found), s1.conflict, s1.visited, [], [])
  }

  /** Scanning a level only adds struct types to `visited`; it changes
      something only by adding at least one. */
  lemma {:induction false} ScanLevelVisits(u: Universe, s: BuildState, current: seq<Scan>, n: nat)
    requires n <= |current|
    ensures var s1 := ScanLevel(u, s, current, n);
            s1 == s || (s.visited < s1.visited && s1.visited <= s.visited + u.structs.Keys)
  {
    if n > 0 {
      ScanLevelVisits(u, s, current, n - 1);
      var s0 := ScanLevel(u, s, current, n - 1);
      var t := StructOf(u, current[n - 1].ty);
      if t.Some? && t.value !in s0.visited {
        var fs := u.structs[t.value].fields;
        ScanFieldsKeepsVisited(s0.(visited := s0.visited + {t.value}), current[n - 1], fs, |fs|);
      }
    }
  }

  lemma {:induction false} ScanFieldsKeepsVisited(s: BuildState, scan: Scan, fs: seq<Field>, n: nat)
    requires n <= |fs|
    ensures ScanFields(s, scan, fs, n).visited == s.visited
  {
    if n > 0 {
      ScanFieldsKeepsVisited(s, scan, fs, n - 1);
    }
  }

  /** Removing more elements from a set leaves fewer. */
  lemma FewerUnvisited(keys: set<StructId>, a: set<StructId>, b: set<StructId>)
    requires a < b && b <= a + keys
    ensures |keys - b| < |keys - a|
  {
    var x :| x in b && x !in a;
    assert keys - b <= (keys - a) - {x};
    SubsetCard(keys - b, (keys - a) - {x});
  }

  lemma {:induction false} SubsetCard(a: set<StructId>, b: set<StructId>)
    requires a <= b
    ensures |a| <= |b|
    decreases a
  {
    if a != {} {
      var x :| x in a;
      SubsetCard(a - {x}, b - {x});
    }
  }

  /** The remaining levels, starting from the state `s`. */
  function Levels(u: Universe, s: BuildState, current: seq<Scan>): BuildState
    decreases |u.structs.Keys - s.visited|, |current|
  {
    var s0 := s.(found := [], next := []);
    if current == [] then s0
    else
      var s1 := ScanLevel(u, s0, current, |current|);
      ScanLevelVisits(u, s0, current, |current|);
      assert s1 != s0 ==> |u.structs.Keys - s1.visited| < |u.structs.Keys - s0.visited| by {
        if s1 != s0 { FewerUnvisited(u.structs.Keys, s0.visited, s1.visited); }
      }
      Levels(u, EndLevel(s1), s1.next)
  }

  /** The builder's starting state: nothing found, nothing visited. */
  const Start := BuildState(map[], [], "", {}, [], [])

  /** The field map that the breadth-first scan of struct `root` produces. */
  function StructFieldsOf(u: Universe, root: StructId): StructFields {
    var s := Levels(u, Start, [Scan(Named(root), [])]);
    StructFields(s.fields, s.allNames, s.conflict)
  }

  /** getStructFields without its cache: the field map, or the conflict it
      records as an error. */
  function GetStructFields(u: Universe, root: StructId): (r: Result)
    ensures r.Err? <==> StructFieldsOf(u, root).conflict != ""
    ensures r.Err? ==> r.err == FieldConflictError(StructFieldsOf(u, root).conflict)
    ensures r.Ok? ==> r.sf == StructFieldsOf(u, root)
  {
    var sf := StructFieldsOf(u, root);
    if sf.conflict != "" then Err(NewFieldConflictError(sf.conflict)) else Ok(sf)
  }

  datatype Result = Ok(sf: StructFields) | Err(err: Error)

  /** buildStructFields: the breadth-first scan with its two queues. */
  method BuildStructFields(u: Universe, root: StructId) returns (sf: StructFields)
    ensures sf == StructFieldsOf(u, root)
  {
    var fields: map<string, FieldInfo> := map[];
    var allNames: seq<string> := [];
    var conflict := "";
    var currentLevel := [Scan(Named(root), [])];
    var nextLevel: seq<Scan> := [];
    var visited: set<StructId> := {};
    while |currentLevel| > 0
      invariant nextLevel == []
      invariant Levels(u, BuildState(fields, allNames, conflict, visited, [], []), currentLevel)
                == Levels(u, Start, [Scan(Named(root), [])])
      decreases |u.structs.Keys - visited|, |currentLevel|
    {
      ghost var s0 := BuildState(fields, allNames, conflict, visited, [], []);
      var found: seq<string> := [];
      for k := 0 to |currentLevel|
        invariant BuildState(fields, allNames, conflict, visited, found, nextLevel)
                  == ScanLevel(u, s0, currentLevel, k)
      {
        var scan := currentLevel[k];
        var typ := scan.ty;
        while typ.Ptr?
          invariant StripPtr(typ) == StripPtr(scan.ty)
          decreases typ
        {
          typ := typ.elem;
        }
        if !typ.Named? || typ.id !in u.structs {
          continue;
        }
        if typ.id in visited {
          continue;
        }
        visited := visited + {typ.id};
        var s := ScanStruct(BuildState(fields, allNames, conflict, visited, found, nextLevel),
                            scan, u.structs[typ.id].fields);
        fields, found, conflict, nextLevel := s.fields, s.found, s.conflict, s.next;
      }
      ghost var s1 := BuildState(fields, allNames, conflict, visited, found, nextLevel);
      allNames := PublishFound(allNames, fields, found);
      ScanLevelVisits(u, s0, currentLevel, |currentLevel|);
      if s1 != s0 {
        FewerUnvisited(u.structs.Keys, s0.visited, s1.visited);
      }
      currentLevel := nextLevel;
      nextLevel := [];
    }
    sf := StructFields(fields, allNames, conflict);
  }

  /** The field loop of buildStructFields over one struct's fields. */
  method ScanStruct(s: BuildState, scan: Scan, fs: seq<Field>) returns (r: BuildState)
    ensures r == ScanFields(s, scan, fs, |fs|)
    ensures r.allNames == s.allNames && r.visited == s.visited
  {
    var fields, found, conflict, nextLevel := s.fields, s.found, s.conflict, s.next;
    for i := 0 to |fs|
      invariant s.(fields := fields, found := found, conflict := conflict, next := nextLevel)
                == ScanFields(s, scan, fs, i)
    {
      var f := fs[i];
      if f.anonymous {
        nextLevel := nextLevel + [Scan(f.ty, scan.index + [i])];
        continue;
      }
      if !f.exported {
        continue;
      }
      var tag := f.tag;
      if tag == "-" {
        continue;
      }
      var (name, _) := ParseTag(tag);
      if name == "" {
        name := f.name;
      }
      if name in found {
        fields := fields - {name};
        conflict := name;
        continue;
      }
      if name in fields {
        continue;
      }
      fields := fields[name := FieldInfo(name, scan.index + [i])];
      found := found + [name];
    }
    r := s.(fields := fields, found := found, conflict := conflict, next := nextLevel);
  }

  /** The loop that appends to allNames the names found in one level whose
      entries survived it, in the order they were found. */
  method PublishFound(allNames: seq<string>, fields: map<string, FieldInfo>, found: seq<string>)
    returns (names: seq<string>)
    ensures names == allNames + Publish(fields, found)
  {
    names := allNames;
    for n := 0 to |found|
      invariant names == allNames + Publish(fields, found[..n])
    {
      assert found[..n + 1][..n] == found[..n];
      if found[n] in fields {
        names := names + [found[n]];
      }
    }
    assert found[..|found|] == found;
  }
}

/**
 * What unmarshalStruct guarantees: a conflicting field map fails every
 * object, an unknown key is refused before anything is written, without the
 * check unknown keys are skipped and known keys decoded, and a key reaches
 * the field the field map resolves it to.
 */
module StructLemmas {
  import opened Reflect
  import opened Errors
  import opened Options
  import opened Fields
  import opened FieldLemmas
  import opened Suggest
  import opened Walker
  import opened PointerLemmas

  /** A struct whose field map has a conflict refuses every object, before
      any field is written. */
  lemma ConflictRejectsObject(env: Env, raw: Raw, id: StructId, sv: Val)
    requires ValidJson(raw) && raw.Obj?
    requires StructFieldsOf(env.u, id).conflict != ""
    ensures WalkStruct(env, raw, id, sv)
            == Outcome(sv, Some(FieldConflictError(StructFieldsOf(env.u, id).conflict)))
  {
  }

  /** A struct with no conflict, decoding with unknown fields disallowed,
      refuses the first unknown key of the object. */
  lemma FirstUnknownRefused(env: Env, raw: Raw, id: StructId, sv: Val, i: nat)
    requires ValidJson(raw) && raw.Obj? && env.cfg.disallowUnknownFields
    requires StructFieldsOf(env.u, id).conflict == ""
    requires FirstUnknown(Entries(raw.members), StructFieldsOf(env.u, id).fields, 0) == Some(i)
    ensures var k := Entries(raw.members)[i].0;
            WalkStruct(env, raw, id, sv)
            == Outcome(sv, Some(UnknownFieldError(k, if env.cfg.suggestClosest
                                                     then Suggestion(k, StructFieldsOf(env.u, id).allNames)
                                                     else "")))
  {
  }

  /** Where a key of an object sits among its entries. */
  lemma KeyAmongEntries(entries: seq<(string, Raw)>, key: string) returns (j: nat)
    requires key in KeysOf(entries)
    ensures j < |entries| && entries[j].0 == key
  {
    var e :| e in entries && e.0 == key;
    var i :| 0 <= i < |entries| && entries[i] == e;
    j := i;
  }

  /** With unknown fields disallowed, an object with a key that is not in
      the field map is refused before any field is written: the error names
      an unknown key of the object, and carries a suggestion only when
      suggestions are switched on. */
  lemma UnknownKeyRejected(env: Env, raw: Raw, id: StructId, sv: Val, key: string)
    requires ValidJson(raw) && raw.Obj? && env.cfg.disallowUnknownFields
    requires StructFieldsOf(env.u, id).conflict == ""
    requires key in KeysOf(raw.members) && key !in StructFieldsOf(env.u, id).fields
    ensures var o := WalkStruct(env, raw, id, sv);
            var sf := StructFieldsOf(env.u, id);
            && o.val == sv && o.err.Some? && o.err.value.UnknownFieldError?
            && o.err.value.fieldName in KeysOf(raw.members)
            && o.err.value.fieldName !in sf.fields
            && o.err.value.suggestion
               == (if env.cfg.suggestClosest then Suggestion(o.err.value.fieldName, sf.allNames) else "")
  {
    var entries := Entries(raw.members);
    var sf := StructFieldsOf(env.u, id);
    var j := KeyAmongEntries(entries, key);
    var u := FirstUnknown(entries, sf.fields, 0);
    assert u.Some?;
    assert entries[u.value] in raw.members;
  }

  /** The entries whose keys are in the field map, in order. */
  function Known(entries: seq<(string, Raw)>, fields: map<string, FieldInfo>): (r: seq<(string, Raw)>)
    ensures forall e :: e in r <==> e in entries && e.0 in fields
  {
    if entries == [] then []
    else
      var rest := Known(entries[..|entries| - 1], fields);
      var last := entries[|entries| - 1];
      assert entries == entries[..|entries| - 1] + [last];
      if last.0 in fields then rest + [last] else rest
  }

  /** The struct loop over a prefix does not look past it. */
  lemma {:induction false} StructFoldPrefix(env: Env, raw: Raw, id: StructId, sf: StructFields,
                                            a: seq<(string, Raw)>, b: seq<(string, Raw)>, n: nat, sv: Val)
    requires raw.Obj? && n <= |a|
    requires forall e | e in a + b :: e in raw.members
    ensures forall e | e in a :: e in raw.members
    ensures StructFold(env, raw, id, sf, a + b, n, sv) == StructFold(env, raw, id, sf, a, n, sv)
  {
    assert forall e | e in a :: e in a + b;
    if n > 0 {
      StructFoldPrefix(env, raw, id, sf, a, b, n - 1, sv);
      assert (a + b)[n - 1] == a[n - 1];
    }
  }

  /** Skipping the unknown keys: the struct loop gives what it gives on the
      known entries alone. */
  lemma {:induction false} StructFoldKnown(env: Env, raw: Raw, id: StructId, sf: StructFields,
                                           entries: seq<(string, Raw)>, n: nat, sv: Val)
    requires raw.Obj? && n <= |entries| && forall j | 0 <= j < |entries| :: entries[j] in raw.members
    ensures forall e | e in Known(entries[..n], sf.fields) :: e in raw.members
    ensures var k := Known(entries[..n], sf.fields);
            StructFold(env, raw, id, sf, entries, n, sv) == StructFold(env, raw, id, sf, k, |k|, sv)
  {
    KnownMembers(raw, entries, n, sf.fields);
    if n > 0 {
      StructFoldKnown(env, raw, id, sf, entries, n - 1, sv);
      StructFoldKnownStep(env, raw, id, sf, entries, n, sv);
    }
  }

  /** Entry `n - 1` keeps the two loops equal. */
  lemma StructFoldKnownStep(env: Env, raw: Raw, id: StructId, sf: StructFields,
                            entries: seq<(string, Raw)>, n: nat, sv: Val)
    requires raw.Obj? && 0 < n <= |entries| && forall j | 0 <= j < |entries| :: entries[j] in raw.members
    requires forall e | e in Known(entries[..n - 1], sf.fields) :: e in raw.members
    requires var k := Known(entries[..n - 1], sf.fields);
             StructFold(env, raw, id, sf, entries, n - 1, sv) == StructFold(env, raw, id, sf, k, |k|, sv)
    ensures forall e | e in Known(entries[..n], sf.fields) :: e in raw.members
    ensures var k := Known(entries[..n], sf.fields);
            StructFold(env, raw, id, sf, entries, n, sv) == StructFold(env, raw, id, sf, k, |k|, sv)
  {
    KnownMembers(raw, entries, n, sf.fields);
    if entries[n - 1].0 in sf.fields {
      KnownEntryStep(env, raw, id, sf, entries, n, sv);
    } else {
      UnknownEntryStep(env, raw, id, sf, entries, n, sv);
    }
  }

  /** The known entries among the first `n` are members of the object. */
  lemma KnownMembers(raw: Raw, entries: seq<(string, Raw)>, n: nat, fields: map<string, FieldInfo>)
    requires raw.Obj? && n <= |entries| && forall j | 0 <= j < |entries| :: entries[j] in raw.members
    ensures forall e | e in Known(entries[..n], fields) :: e in raw.members
  {
    forall e | e in Known(entries[..n], fields) ensures e in raw.members {
      var j :| 0 <= j < n && entries[..n][j] == e;
    }
  }

  /** The known entries among the first `n`: those among the first `n - 1`,
      then entry `n - 1` when its key is in the field map. */
  lemma KnownLast(entries: seq<(string, Raw)>, n: nat, fields: map<string, FieldInfo>)
    requires 0 < n <= |entries|
    ensures Known(entries[..n], fields)
            == if entries[n - 1].0 in fields then Known(entries[..n - 1], fields) + [entries[n - 1]]
               else Known(entries[..n - 1], fields)
  {
    assert entries[..n][..n - 1] == entries[..n - 1];
  }

  /** A known entry extends both loops by the same step. */
  lemma KnownEntryStep(env: Env, raw: Raw, id: StructId, sf: StructFields,
                       entries: seq<(string, Raw)>, n: nat, sv: Val)
    requires raw.Obj? && 0 < n <= |entries| && forall j | 0 <= j < |entries| :: entries[j] in raw.members
    requires entries[n - 1].0 in sf.fields
    requires forall e | e in Known(entries[..n - 1], sf.fields) :: e in raw.members
    requires var k := Known(entries[..n - 1], sf.fields);
             StructFold(env, raw, id, sf, entries, n - 1, sv) == StructFold(env, raw, id, sf, k, |k|, sv)
    ensures forall e | e in Known(entries[..n], sf.fields) :: e in raw.members
    ensures var k := Known(entries[..n], sf.fields);
            StructFold(env, raw, id, sf, entries, n, sv) == StructFold(env, raw, id, sf, k, |k|, sv)
  {
    KnownMembers(raw, entries, n, sf.fields);
    KnownLast(entries, n, sf.fields);
    StructFoldAppend(env, raw, id, sf, Known(entries[..n - 1], sf.fields), entries[n - 1], sv);
  }

  /** One more entry at the end of the loop is one more step of it. */
  lemma StructFoldAppend(env: Env, raw: Raw, id: StructId, sf: StructFields,
                         a: seq<(string, Raw)>, e: (string, Raw), sv: Val)
    requires raw.Obj? && forall x | x in a + [e] :: x in raw.members
    ensures forall x | x in a :: x in raw.members
    ensures var o := StructFold(env, raw, id, sf, a, |a|, sv);
            StructFold(env, raw, id, sf, a + [e], |a + [e]|, sv)
            == if o.err.Some? then o else StructEntry(env, raw, id, sf, e, o.val)
  {
    StructFoldPrefix(env, raw, id, sf, a, [e], |a|, sv);
    assert (a + [e])[|a|] == e;
  }

  /** An unknown entry leaves both loops where they were. */
  lemma UnknownEntryStep(env: Env, raw: Raw, id: StructId, sf: StructFields,
                         entries: seq<(string, Raw)>, n: nat, sv: Val)
    requires raw.Obj? && 0 < n <= |entries| && forall j | 0 <= j < |entries| :: entries[j] in raw.members
    requires entries[n - 1].0 !in sf.fields
    requires forall e | e in Known(entries[..n - 1], sf.fields) :: e in raw.members
    requires var k := Known(entries[..n - 1], sf.fields);
             StructFold(env, raw, id, sf, entries, n - 1, sv) == StructFold(env, raw, id, sf, k, |k|, sv)
    ensures forall e | e in Known(entries[..n], sf.fields) :: e in raw.members
    ensures var k := Known(entries[..n], sf.fields);
            StructFold(env, raw, id, sf, entries, n, sv) == StructFold(env, raw, id, sf, k, |k|, sv)
  {
    KnownMembers(raw, entries, n, sf.fields);
    KnownLast(entries, n, sf.fields);
  }

  /** With unknown fields allowed, or with every key known, the struct is
      the known keys decoded one after the other: unknown keys change
      nothing. */
  lemma StructDecodesKnownKeys(env: Env, raw: Raw, id: StructId, sv: Val)
    requires ValidJson(raw) && raw.Obj?
    requires StructFieldsOf(env.u, id).conflict == ""
    requires !env.cfg.disallowUnknownFields
             || forall k | k in KeysOf(raw.members) :: k in StructFieldsOf(env.u, id).fields
    ensures var sf := StructFieldsOf(env.u, id);
            var k := Known(Entries(raw.members), sf.fields);
            && (forall e | e in k :: e in raw.members)
            && WalkStruct(env, raw, id, sv) == StructFold(env, raw, id, sf, k, |k|, sv)
  {
    var entries := Entries(raw.members);
    var sf := StructFieldsOf(env.u, id);
    if env.cfg.disallowUnknownFields {
      forall j | 0 <= j < |entries| ensures entries[j].0 in sf.fields {
        assert entries[j] in raw.members;
      }
    }
    StructFoldKnown(env, raw, id, sf, entries, |entries|, sv);
    assert entries[..|entries|] == entries;
  }

  /** Key `e` decodes without error into the struct holding `sv`. */
  predicate EntryDecodes(env: Env, raw: Raw, id: StructId, sf: StructFields, e: (string, Raw), sv: Val)
    requires raw.Obj? && e in raw.members
  {
    StructEntry(env, raw, id, sf, e, sv).err.None?
  }

  /** The struct loop succeeds exactly when every key it reaches decodes. */
  lemma {:induction false} StructFoldSucceeds(env: Env, raw: Raw, id: StructId, sf: StructFields,
                                              entries: seq<(string, Raw)>, n: nat, sv: Val)
    requires raw.Obj? && n <= |entries| && forall j | 0 <= j < |entries| :: entries[j] in raw.members
    ensures StructFold(env, raw, id, sf, entries, n, sv).err.None?
            <==> forall j | 0 <= j < n ::
                   EntryDecodes(env, raw, id, sf, entries[j], StructFold(env, raw, id, sf, entries, j, sv).val)
  {
    if n > 0 {
      StructFoldSucceeds(env, raw, id, sf, entries, n - 1, sv);
      if StructFold(env, raw, id, sf, entries, n - 1, sv).err.Some? {
        SucceedsAfterStop(env, raw, id, sf, entries, n, sv);
      } else {
        SucceedsAfterKey(env, raw, id, sf, entries, n, sv);
      }
    }
  }

  /** After a failing key, the loop has failed and not every key decoded. */
  lemma SucceedsAfterStop(env: Env, raw: Raw, id: StructId, sf: StructFields,
                          entries: seq<(string, Raw)>, n: nat, sv: Val)
    requires raw.Obj? && 0 < n <= |entries| && forall j | 0 <= j < |entries| :: entries[j] in raw.members
    requires StructFold(env, raw, id, sf, entries, n - 1, sv).err.Some?
    requires StructFold(env, raw, id, sf, entries, n - 1, sv).err.None?
             <==> forall j | 0 <= j < n - 1 ::
                    EntryDecodes(env, raw, id, sf, entries[j], StructFold(env, raw, id, sf, entries, j, sv).val)
    ensures StructFold(env, raw, id, sf, entries, n, sv).err.None?
            <==> forall j | 0 <= j < n ::
                   EntryDecodes(env, raw, id, sf, entries[j], StructFold(env, raw, id, sf, entries, j, sv).val)
  {
    assert StructFold(env, raw, id, sf, entries, n, sv) == StructFold(env, raw, id, sf, entries, n - 1, sv);
  }

  /** After the keys before it succeeded, the loop succeeds exactly when key
      `n - 1` decodes. */
  lemma SucceedsAfterKey(env: Env, raw: Raw, id: StructId, sf: StructFields,
                         entries: seq<(string, Raw)>, n: nat, sv: Val)
    requires raw.Obj? && 0 < n <= |entries| && forall j | 0 <= j < |entries| :: entries[j] in raw.members
    requires StructFold(env, raw, id, sf, entries, n - 1, sv).err.None?
    requires StructFold(env, raw, id, sf, entries, n - 1, sv).err.None?
             <==> forall j | 0 <= j < n - 1 ::
                    EntryDecodes(env, raw, id, sf, entries[j], StructFold(env, raw, id, sf, entries, j, sv).val)
    ensures StructFold(env, raw, id, sf, entries, n, sv).err.None?
            <==> forall j | 0 <= j < n ::
                   EntryDecodes(env, raw, id, sf, entries[j], StructFold(env, raw, id, sf, entries, j, sv).val)
  {
    var p := StructFold(env, raw, id, sf, entries, n - 1, sv);
    assert StructFold(env, raw, id, sf, entries, n, sv).err.None?
           <==> EntryDecodes(env, raw, id, sf, entries[n - 1], p.val);
  }

  /** When the struct loop fails, it returns what the first failing key left:
      the fields written so far and that key's error. */
  lemma {:induction false} StructFoldFails(env: Env, raw: Raw, id: StructId, sf: StructFields,
                                           entries: seq<(string, Raw)>, n: nat, sv: Val) returns (j: nat)
    requires raw.Obj? && n <= |entries| && forall j | 0 <= j < |entries| :: entries[j] in raw.members
    requires StructFold(env, raw, id, sf, entries, n, sv).err.Some?
    ensures j < n && StructFold(env, raw, id, sf, entries, j, sv).err.None?
    ensures StructFold(env, raw, id, sf, entries, n, sv)
            == StructEntry(env, raw, id, sf, entries[j], StructFold(env, raw, id, sf, entries, j, sv).val)
  {
    var p := StructFold(env, raw, id, sf, entries, n - 1, sv);
    if p.err.Some? {
      j := StructFoldFails(env, raw, id, sf, entries, n - 1, sv);
    } else {
      j := n - 1;
    }
  }

  /** getFieldByIndex along a path of the field map: when it yields a field,
      that field has the type of the field the path names, and it can be set
      exactly when nothing above made it read-only and the field is
      exported. */
  lemma {:induction false} IndexFindsField(u: Universe, v: Val, loc: Loc, t: Ty, sticky: bool, embed: bool, path: seq<nat>)
    requires FieldAt(u, t, path).Some?
    ensures var r := IndexFrom(u, v, loc, t, sticky, embed, path);
            r.slot.Some? ==>
              && r.slot.value.ty == FieldAt(u, t, path).value.ty
              && r.slot.value.settable == (!sticky && FieldAt(u, t, path).value.exported)
    decreases |path|
  {
    var t1 := if t.Ptr? then t.elem else t;
    var v1 := if t.Ptr? && !At(v, loc).Pointer? then Put(v, loc, Pointer(Zero)) else v;
    var loc1 := if t.Ptr? then loc + [Deref] else loc;
    if t1.Named? && !(t.Ptr? && !At(v, loc).Pointer? && (sticky || embed)) {
      assert StripPtr(t) == t1;
      var f := u.structs[t1.id].fields[path[0]];
      if |path| > 1 {
        assert f.anonymous;
        IndexFindsField(u, v1, loc1 + [FieldStep(path[0])], f.ty, sticky, !f.exported && f.anonymous, path[1..]);
      }
    }
  }

  /** Whether getFieldByIndex gets through along `path` from a slot of type
      `t` holding `x`: every index names a field of a struct, and no nil
      pointer is met while a read-only mark is set (such a pointer cannot be
      allocated). */
  predicate Opens(u: Universe, x: Val, t: Ty, sticky: bool, embed: bool, path: seq<nat>)
    decreases |path|
  {
    if path == [] then true
    else if t.Ptr? && !x.Pointer? && (sticky || embed) then false
    else
      var t1 := if t.Ptr? then t.elem else t;
      var x1 := if t.Ptr? then Pointee(x) else x;
      if !t1.Named? || path[0] >= |u.FieldsOf(t1.id)| then false
      else
        var f := u.FieldsOf(t1.id)[path[0]];
        Opens(u, FieldOf(x1, path[0]), f.ty, sticky || (!f.exported && !f.anonymous),
              !f.exported && f.anonymous, path[1..])
  }

  /** getFieldByIndex reaches a slot exactly when the path opens from the
      value it starts on: allocating a nil pointer on the way changes nothing
      that a later step looks at. */
  lemma {:induction false} IndexOpens(u: Universe, v: Val, loc: Loc, t: Ty, sticky: bool, embed: bool, path: seq<nat>)
    ensures IndexFrom(u, v, loc, t, sticky, embed, path).slot.Some? <==> Opens(u, At(v, loc), t, sticky, embed, path)
    decreases |path|
  {
    var x := At(v, loc);
    if path != [] && !(t.Ptr? && !x.Pointer? && (sticky || embed)) {
      var v1 := if t.Ptr? && !x.Pointer? then Put(v, loc, Pointer(Zero)) else v;
      var loc1 := if t.Ptr? then loc + [Deref] else loc;
      var t1 := if t.Ptr? then t.elem else t;
      var x1 := if t.Ptr? then Pointee(x) else x;
      if t1.Named? && path[0] < |u.FieldsOf(t1.id)| {
        var f := u.FieldsOf(t1.id)[path[0]];
        assert At(v1, loc1) == x1 by {
          if t.Ptr? {
            AtSnoc(v1, loc, Deref);
            assert At(At(v1, loc), [Deref]) == Pointee(At(v1, loc));
            if !x.Pointer? { AtPut(v, loc, Pointer(Zero)); }
          }
        }
        AtSnoc(v1, loc1, FieldStep(path[0]));
        assert At(x1, [FieldStep(path[0])]) == FieldOf(x1, path[0]);
        IndexOpens(u, v1, loc1 + [FieldStep(path[0])], f.ty, sticky || (!f.exported && !f.anonymous),
                   !f.exported && f.anonymous, path[1..]);
      }
    }
  }

  /** getFieldByIndex writes only below where it starts: a non-nil pointer
      above that stays non-nil. */
  lemma {:induction false} IndexKeepsPointer(u: Universe, v: Val, loc: Loc, t: Ty, sticky: bool, embed: bool,
                                             path: seq<nat>, p: Loc)
    requires |p| < |loc| && loc[..|p|] == p && loc[|p|] == Deref && At(v, p).Pointer?
    ensures At(IndexFrom(u, v, loc, t, sticky, embed, path).val, p).Pointer?
    decreases |path|
  {
    if path != [] && !(t.Ptr? && !At(v, loc).Pointer? && (sticky || embed)) {
      var v1 := if t.Ptr? && !At(v, loc).Pointer? then Put(v, loc, Pointer(Zero)) else v;
      var loc1 := if t.Ptr? then loc + [Deref] else loc;
      var t1 := if t.Ptr? then t.elem else t;
      if t.Ptr? && !At(v, loc).Pointer? {
        var q := loc[|p|..];
        assert loc == p + q;
        AtPutPrefix(v, p, q, Pointer(Zero));
      }
      if t1.Named? && path[0] < |u.FieldsOf(t1.id)| {
        var f := u.FieldsOf(t1.id)[path[0]];
        var l := loc1 + [FieldStep(path[0])];
        assert l[..|p|] == p && l[|p|] == Deref;
        IndexKeepsPointer(u, v1, l, f.ty, sticky || (!f.exported && !f.anonymous),
                          !f.exported && f.anonymous, path[1..], p);
      }
    }
  }

  /** When getFieldByIndex reaches a slot, the slot lies below where it
      started, and every pointer on the way to it is non-nil in the value it
      returns: a nil one was allocated. */
  lemma {:induction false} IndexAllocates(u: Universe, v: Val, loc: Loc, t: Ty, sticky: bool, embed: bool, path: seq<nat>)
    ensures var r := IndexFrom(u, v, loc, t, sticky, embed, path);
            r.slot.Some? ==>
              && loc <= r.slot.value.loc
              && forall k | |loc| <= k < |r.slot.value.loc| && r.slot.value.loc[k] == Deref ::
                   At(r.val, r.slot.value.loc[..k]).Pointer?
    decreases |path|
  {
    if path != [] && !(t.Ptr? && !At(v, loc).Pointer? && (sticky || embed)) {
      var v1 := if t.Ptr? && !At(v, loc).Pointer? then Put(v, loc, Pointer(Zero)) else v;
      var loc1 := if t.Ptr? then loc + [Deref] else loc;
      var t1 := if t.Ptr? then t.elem else t;
      if t1.Named? && path[0] < |u.FieldsOf(t1.id)| {
        var f := u.FieldsOf(t1.id)[path[0]];
        var l := loc1 + [FieldStep(path[0])];
        var s2, e2 := sticky || (!f.exported && !f.anonymous), !f.exported && f.anonymous;
        var r := IndexFrom(u, v1, l, f.ty, s2, e2, path[1..]);
        IndexAllocates(u, v1, l, f.ty, s2, e2, path[1..]);
        if r.slot.Some? {
          var sl := r.slot.value.loc;
          assert loc <= sl;
          if t.Ptr? {
            assert At(v1, loc).Pointer? by {
              if !At(v, loc).Pointer? { AtPut(v, loc, Pointer(Zero)); }
            }
            assert l[..|loc|] == loc && l[|loc|] == Deref;
            IndexKeepsPointer(u, v1, l, f.ty, s2, e2, path[1..], loc);
            assert sl[..|loc|] == loc;
          }
          forall k | |loc| <= k < |sl| && sl[k] == Deref
            ensures At(r.val, sl[..k]).Pointer?
          {
            if k < |l| {
              assert k == |loc| && t.Ptr?;
            }
          }
        }
      }
    }
  }

  /** A key of the field map leads to a field that, when reached, can be set
      and has the type of the field that carries the key's name. */
  lemma FieldMapSlot(u: Universe, id: StructId, v: Val, key: string)
    requires WellNamed(u) && key in StructFieldsOf(u, id).fields
    ensures var path := StructFieldsOf(u, id).fields[key].fieldIndex;
            var f := FieldAt(u, Named(id), path);
            var r := IndexFrom(u, v, [], Named(id), false, false, path);
            && f.Some? && HasOwnName(f.value) && JsonName(f.value) == key
            && (r.slot.Some? ==> r.slot.value.settable && r.slot.value.ty == f.value.ty)
  {
    StructFieldsWellFormed(u, id);
    var path := StructFieldsOf(u, id).fields[key].fieldIndex;
    IndexFindsField(u, v, [], Named(id), false, false, path);
  }

  /** A key that names a field declared directly in the struct decodes into
      that field, and nothing else of the struct is written. */
  lemma DirectKeyDecodes(env: Env, raw: Raw, id: StructId, e: (string, Raw), sv: Val)
    requires WellNamed(env.u) && raw.Obj? && e in raw.members
    requires e.0 in StructFieldsOf(env.u, id).fields
    requires |StructFieldsOf(env.u, id).fields[e.0].fieldIndex| == 1
    ensures var sf := StructFieldsOf(env.u, id);
            var i := sf.fields[e.0].fieldIndex[0];
            && id in env.u.structs && i < |env.u.structs[id].fields|
            && var f := env.u.structs[id].fields[i];
            && HasOwnName(f) && JsonName(f) == e.0
            && var o := WalkValue(env, e.1, f.ty, FieldOf(sv, i));
            StructEntry(env, raw, id, sf, e, sv) == Outcome(Put(sv, [FieldStep(i)], o.val), o.err)
  {
    var sf := StructFieldsOf(env.u, id);
    var path := sf.fields[e.0].fieldIndex;
    FieldMapSlot(env.u, id, sv, e.0);
    var i := path[0];
    var f := env.u.structs[id].fields[i];
    assert path == [i] && path[1..] == [];
    assert [] + [FieldStep(i)] == [FieldStep(i)];
    var r := IndexFrom(env.u, sv, [], Named(id), false, false, path);
    assert r == IndexFrom(env.u, sv, [FieldStep(i)], f.ty, !f.exported && !f.anonymous, !f.exported && f.anonymous, []);
    assert r == Reached(sv, Some(FieldSlot([FieldStep(i)], f.ty, true)));
    assert At(sv, [FieldStep(i)]) == FieldOf(sv, i);
  }

  /** A `null` for a field declared directly in the struct leaves the struct
      exactly as it was. */
  lemma DirectNullKeepsStruct(env: Env, raw: Raw, id: StructId, e: (string, Raw), sv: Val)
    requires WellNamed(env.u) && raw.Obj? && e in raw.members && e.1 == Null
    requires e.0 in StructFieldsOf(env.u, id).fields
    requires |StructFieldsOf(env.u, id).fields[e.0].fieldIndex| == 1
    ensures StructEntry(env, raw, id, StructFieldsOf(env.u, id), e, sv) == Outcome(sv, None)
  {
    DirectKeyDecodes(env, raw, id, e, sv);
    var i := StructFieldsOf(env.u, id).fields[e.0].fieldIndex[0];
    PutAt(sv, [FieldStep(i)]);
  }
}

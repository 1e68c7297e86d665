/**
 * Whole decodes worked through on small programs: a conflict between two
 * embedded structs fails every object, and a mis-cased key inside a slice
 * element fails the whole call with an unknown-field error naming that key.
 */
module WalkerExamples {
  import opened Reflect
  import opened Errors
  import opened Options
  import opened Fields
  import opened FieldConflicts
  import opened Suggest
  import opened Walker
  import opened StructLemmas

  /** A struct with a single field of its own: that field's name is the
      whole field map, and there is no conflict. */
  lemma SingleFieldStruct(u: Universe, id: StructId, f: Field, custom: bool)
    requires id in u.structs && u.structs[id] == StructDef([f], custom) && HasOwnName(f)
    ensures var name := JsonName(f);
            StructFieldsOf(u, id) == StructFields(map[name := FieldInfo(name, [0])], [name], "")
  {
    var name := JsonName(f);
    var scan0 := Scan(Named(id), []);
    var sv := Start.(visited := {id});
    var info := FieldInfo(name, [0]);
    var s1 := ScanLevel(u, Start, [scan0], 1);
    assert s1 == ScanFields(sv, scan0, [f], 1) by {
      assert ScanLevel(u, Start, [scan0], 0) == Start;
      assert StructOf(u, scan0.ty) == Some(id);
      assert Start.visited + {id} == {id};
    }
    assert [] + [0] == [0] && [] + [name] == [name];
    assert ScanFields(sv, scan0, [f], 1) == VisitField(sv, scan0, 0, f);
    assert s1 == BuildState(map[name := info], [], "", {id}, [name], []);
    assert Publish(map[name := info], [name]) == [name] by {
      assert [name][..0] == [];
    }
    assert Levels(u, Start, [scan0]) == Levels(u, EndLevel(s1), []);
  }

  /** Two embedded structs that both declare "name": whatever the object and
      the switches, decoding into the outer struct fails with the conflict
      and leaves the target alone. */
  lemma EmbeddedConflictDecode(std: StdDecoder, cfg: Config, raw: Raw)
    requires ValidJson(raw) && raw.Obj?
    ensures var target := Typed(Ptr(Named(0)), Pointer(Zero));
            DecodeTarget(Env(EmbeddedPair, cfg, std), raw, target)
            == Decoded(target, Some(FieldConflictError("name")))
  {
    EmbeddedConflictExample();
    var env := Env(EmbeddedPair, cfg, std);
    assert WalkStruct(env, raw, 0, Zero) == Outcome(Zero, Some(FieldConflictError("name")));
    assert WalkValue(env, raw, Named(0), Zero) == Outcome(Zero, Some(FieldConflictError("name")));
  }

  /** `type Outer struct { Items []Inner `json:"items"` }` and
      `type Inner struct { Name string `json:"name"` }`. */
  const Nested := Universe(map[
    0 := StructDef([Field("Items", "items", true, false, Slice(Named(1)))], false),
    1 := StructDef([Field("Name", "name", true, false, Prim)], false)])

  /** `{"Name": "x"}`, with the key in the wrong case. */
  const MisCasedInner := Obj([("Name", Scalar("\"x\""))])

  /** `{"items": [{"Name": "x"}]}`. */
  const MisCasedOuter := Obj([("items", Arr([MisCasedInner]))])

  /** An object with a single key. */
  lemma OneEntry(e: (string, Raw))
    ensures Entries([e]) == [e]
  {
    assert [e][1..] == [];
  }

  /** The names of Nested's two field maps. */
  lemma NestedFields()
    ensures StructFieldsOf(Nested, 0) == StructFields(map["items" := FieldInfo("items", [0])], ["items"], "")
    ensures StructFieldsOf(Nested, 1) == StructFields(map["name" := FieldInfo("name", [0])], ["name"], "")
  {
    var items := Field("Items", "items", true, false, Slice(Named(1)));
    var nameField := Field("Name", "name", true, false, Prim);
    assert ',' !in "items" && ',' !in "name";
    assert JsonName(items) == "items" && JsonName(nameField) == "name";
    SingleFieldStruct(Nested, 0, items, false);
    SingleFieldStruct(Nested, 1, nameField, false);
  }

  /** The error the mis-cased key produces. */
  function MisCasedError(suggest: bool): Error {
    UnknownFieldError("Name", if suggest then "name" else "")
  }

  /** The closest name to "Name" among ["name"] is "name". */
  lemma InnerSuggestion()
    ensures Suggestion("Name", ["name"]) == "name"
  {
    assert ToLower("Name") == "name" && ToLower("name") == "name";
    assert FirstFoldMatch("Name", ["name"], 0) == Some(0);
  }

  /** The inner object's only key is not in the inner field map. */
  lemma InnerUnknown()
    ensures Entries(MisCasedInner.members) == MisCasedInner.members
    ensures FirstUnknown(MisCasedInner.members, StructFieldsOf(Nested, 1).fields, 0) == Some(0)
  {
    NestedFields();
    OneEntry(MisCasedInner.members[0]);
    assert "Name" != "name";
  }

  /** The inner struct refuses the mis-cased key before writing anything. */
  lemma InnerRefusesKey(std: StdDecoder, suggest: bool)
    ensures WalkStruct(Env(Nested, Config(true, suggest), std), MisCasedInner, 1, Zero)
            == Outcome(Zero, Some(MisCasedError(suggest)))
  {
    NestedFields();
    InnerSuggestion();
    InnerUnknown();
    assert ValidJson(MisCasedInner);
    FirstUnknownRefused(Env(Nested, Config(true, suggest), std), MisCasedInner, 1, Zero, 0);
  }

  /** So does the inner struct as a slot of its own. */
  lemma InnerSlotFails(std: StdDecoder, suggest: bool)
    ensures WalkValue(Env(Nested, Config(true, suggest), std), MisCasedInner, Named(1), Zero)
            == Outcome(Zero, Some(MisCasedError(suggest)))
  {
    InnerRefusesKey(std, suggest);
  }

  /** The slice of inner structs fails on its only element and stays nil. */
  lemma SliceSlotFails(std: StdDecoder, suggest: bool)
    ensures WalkValue(Env(Nested, Config(true, suggest), std), Arr([MisCasedInner]), Slice(Named(1)), Zero)
            == Outcome(Zero, Some(MisCasedError(suggest)))
  {
    SliceLoopFails(std, suggest);
    SliceWalkFails(std, suggest);
  }

  /** The element loop stops at the only element, with its error. */
  lemma SliceLoopFails(std: StdDecoder, suggest: bool)
    ensures SliceFold(Env(Nested, Config(true, suggest), std), Arr([MisCasedInner]), Named(1), 1)
            == Elems([Zero], Some(MisCasedError(suggest)))
  {
    var env := Env(Nested, Config(true, suggest), std);
    var arr := Arr([MisCasedInner]);
    InnerSlotFails(std, suggest);
    assert SliceFold(env, arr, Named(1), 0) == Elems([], None);
    assert [] + [Zero] == [Zero];
  }

  /** unmarshalSlice on the array keeps the nil slice and returns that error. */
  lemma SliceWalkFails(std: StdDecoder, suggest: bool)
    ensures WalkSlice(Env(Nested, Config(true, suggest), std), Arr([MisCasedInner]), Named(1), Zero)
            == Outcome(Zero, Some(MisCasedError(suggest)))
  {
    SliceLoopFails(std, suggest);
    assert ValidJson(MisCasedInner);
    assert ParseRaw(Arr([MisCasedInner]), false).None?;
    assert ContainsStruct(Nested, Named(1));
    SliceStops(Env(Nested, Config(true, suggest), std), Arr([MisCasedInner]), Named(1), Zero);
  }

  /** A slice of structs on valid input keeps its value and reports the
      element loop's error once that loop stops. */
  lemma SliceStops(env: Env, raw: Raw, elem: Ty, v: Val)
    requires raw.Arr? && ParseRaw(raw, false).None? && ContainsStruct(env.u, elem)
    requires SliceFold(env, raw, elem, |raw.elems|).err.Some?
    ensures WalkSlice(env, raw, elem, v) == Outcome(v, SliceFold(env, raw, elem, |raw.elems|).err)
  {
  }

  /** The outer key "items" reaches the slice field and fails with it. */
  lemma OuterEntryFails(std: StdDecoder, suggest: bool)
    ensures StructEntry(Env(Nested, Config(true, suggest), std), MisCasedOuter, 0, StructFieldsOf(Nested, 0),
                        MisCasedOuter.members[0], Zero)
            == Outcome(Zero, Some(MisCasedError(suggest)))
  {
    NestedFields();
    SliceSlotFails(std, suggest);
    assert IndexFrom(Nested, Zero, [], Named(0), false, false, [0])
           == Reached(Zero, Some(FieldSlot([FieldStep(0)], Slice(Named(1)), true))) by {
      assert [0][1..] == [];
      assert [] + [FieldStep(0)] == [FieldStep(0)];
    }
  }

  /** The outer object's only key is in the outer field map. */
  lemma OuterKnown()
    ensures Entries(MisCasedOuter.members) == MisCasedOuter.members
    ensures FirstUnknown(MisCasedOuter.members, StructFieldsOf(Nested, 0).fields, 0).None?
  {
    NestedFields();
    OneEntry(MisCasedOuter.members[0]);
  }

  /** The outer key loop fails on its only key. */
  lemma OuterLoopFails(std: StdDecoder, suggest: bool)
    ensures StructFold(Env(Nested, Config(true, suggest), std), MisCasedOuter, 0, StructFieldsOf(Nested, 0),
                       MisCasedOuter.members, 1, Zero)
            == Outcome(Zero, Some(MisCasedError(suggest)))
  {
    OuterEntryFails(std, suggest);
  }

  /** The outer struct fails with the inner error, and nothing is stored. */
  lemma OuterStructFails(std: StdDecoder, suggest: bool, raw: Raw)
    requires raw == MisCasedOuter
    ensures WalkStruct(Env(Nested, Config(true, suggest), std), raw, 0, Zero)
            == Outcome(Zero, Some(MisCasedError(suggest)))
  {
    NestedFields();
    OuterKnown();
    OuterLoopFails(std, suggest);
    assert ValidJson(MisCasedInner) && ValidJson(raw.members[0].1);
    assert ParseRaw(raw, true).None?;
  }

  /** The mis-cased key inside the slice element fails the whole decode with
      an unknown-field error naming it, suggesting "name" only when
      suggestions are on; nothing is stored into the target. */
  lemma MisCasedKeyInSlice(std: StdDecoder, suggest: bool, raw: Raw)
    requires raw == MisCasedOuter
    ensures var target := Typed(Ptr(Named(0)), Pointer(Zero));
            DecodeTarget(Env(Nested, Config(true, suggest), std), raw, target)
            == Decoded(target, Some(UnknownFieldError("Name", if suggest then "name" else "")))
  {
    OuterStructFails(std, suggest, raw);
    var env := Env(Nested, Config(true, suggest), std);
    assert WalkValue(env, raw, Named(0), Zero) == Outcome(Zero, Some(MisCasedError(suggest)));
  }
}

/**
 * The strict walker (unmarshal.go): it follows the target's static type
 * through the parsed JSON, checks every object key of every struct it meets
 * against that struct's field map, and hands everything it does not need to
 * inspect to the standard decoder.
 *
 * Each operation is a specification function over values, and a method with
 * the source's loops that is proved to compute it.  The target is a value
 * tree: an update in place is a new tree returned to the caller.
 */
module Walker {
  import opened Reflect
  import opened Errors
  import opened Options
  import opened Fields
  import opened Suggest

  /** What a decoding step leaves behind: the new value of the slot and the
      error it reports, if any.  A failing step can still have written. */
  datatype Outcome = Outcome(val: Val, err: Option<Error>)

  /** encoding/json's Unmarshal into a slot of the given type, and the
      UnmarshalJSON methods it calls: the model does not look inside. */
  type StdDecoder = (Ty, Raw, Val) -> Outcome

  /** The fixed context of one call: the program's types, the decoder's
      switches and the standard decoder. */
  datatype Env = Env(u: Universe, cfg: Config, std: StdDecoder)

  /** Bytes that encoding/json accepts as JSON: no malformed part anywhere. */
  predicate ValidJson(r: Raw)
    decreases r
  {
    match r
    case Malformed => false
    case Obj(ms) => forall i | 0 <= i < |ms| :: ValidJson(ms[i].1)
    case Arr(es) => forall i | 0 <= i < |es| :: ValidJson(es[i])
    case _ => true
  }

  /** json.Unmarshal into a map[string]json.RawMessage (`wantObject`) or a
      []json.RawMessage: a syntax error for invalid JSON, a type error for a
      value of the other kind. */
  function ParseRaw(r: Raw, wantObject: bool): (e: Option<Error>)
    ensures e.None? <==> ValidJson(r) && (if wantObject then r.Obj? else r.Arr?)
  {
    if !ValidJson(r) then Some(JsonError(SyntaxError))
    else if wantObject && !r.Obj? then Some(JsonError(TypeMismatch))
    else if !wantObject && !r.Arr? then Some(JsonError(TypeMismatch))
    else None
  }

  /** containsStruct: whether values of type `t` must be walked strictly,
      i.e. whether looking through pointers and element types reaches a
      struct without a custom decoder. */
  function ContainsStruct(u: Universe, t: Ty): bool {
    match t
    case Ptr(e) => ContainsStruct(u, e)
    case Named(id) => !u.HasCustom(id)
    case Slice(e) => ContainsStruct(u, e)
    case Array(e, _) => ContainsStruct(u, e)
    case Map(e) => ContainsStruct(u, e)
    case _ => false
  }

  /** The slot to decode into once the pointers above it are allocated: the
      updated value, the path through the pointers and the type found there. */
  datatype Allocated = Allocated(val: Val, loc: Loc, base: Ty)

  /** allocatePointers, continuing at `loc` of `v` whose type is `t`. */
  function AllocFrom(v: Val, loc: Loc, t: Ty): (r: Allocated)
    ensures !r.base.Ptr?
    decreases t
  {
    if !t.Ptr? then Allocated(v, loc, t)
    else if At(v, loc).Pointer? then AllocFrom(v, loc + [Deref], t.elem)
    else AllocFrom(Put(v, loc, Pointer(Zero)), loc + [Deref], t.elem)
  }

  /** The field slot getFieldByIndex ends at: where it is, its type, and
      whether reflect lets it be set. */
  datatype FieldSlot = FieldSlot(loc: Loc, ty: Ty, settable: bool)

  /** getFieldByIndex's result: the value after the pointers it allocated,
      and the slot, or None for the invalid reflect.Value. */
  datatype Reached = Reached(val: Val, slot: Option<FieldSlot>)

  /** getFieldByIndex from `loc` (of type `t`) along `path`.  `sticky` and
      `embed` are reflect's two read-only marks: an unexported field makes
      everything below it read-only, an unexported embedded field makes only
      itself read-only. */
  function IndexFrom(u: Universe, v: Val, loc: Loc, t: Ty, sticky: bool, embed: bool, path: seq<nat>): Reached
    decreases |path|
  {
    if path == [] then Reached(v, Some(FieldSlot(loc, t, !sticky && !embed)))
    else if t.Ptr? && !At(v, loc).Pointer? && (sticky || embed) then Reached(v, None)
    else
      var v1 := if t.Ptr? && !At(v, loc).Pointer? then Put(v, loc, Pointer(Zero)) else v;
      var loc1 := if t.Ptr? then loc + [Deref] else loc;
      var t1 := if t.Ptr? then t.elem else t;
      if !t1.Named? || path[0] >= |u.FieldsOf(t1.id)| then Reached(v1, None)
      else
        var f := u.FieldsOf(t1.id)[path[0]];
        IndexFrom(u, v1, loc1 + [FieldStep(path[0])], f.ty,
                  sticky || (!f.exported && !f.anonymous), !f.exported && f.anonymous, path[1..])
  }

  /** The first entry whose key has no field. */
  function FirstUnknown(entries: seq<(string, Raw)>, fields: map<string, FieldInfo>, from: nat): (r: Option<nat>)
    requires from <= |entries|
    ensures r.Some? ==> from <= r.value < |entries| && entries[r.value].0 !in fields
                        && forall j | from <= j < r.value :: entries[j].0 in fields
    ensures r.None? ==> forall j | from <= j < |entries| :: entries[j].0 in fields
    decreases |entries| - from
  {
    if from == |entries| then None
    else if entries[from].0 !in fields then Some(from)
    else FirstUnknown(entries, fields, from + 1)
  }

  /** unmarshalValue: the slot of type `t` holding `v`, decoded from `raw`. */
  function WalkValue(env: Env, raw: Raw, t: Ty, v: Val): Outcome
    decreases raw, 3, 0
  {
    if raw == Null then Outcome(v, None)
    else if t.Named? && env.u.HasCustom(t.id) then env.std(t, raw, v)
    else
      var a := AllocFrom(v, [], t);
      var o := Dispatch(env, raw, a.base, At(a.val, a.loc));
      Outcome(Put(a.val, a.loc, o.val), o.err)
  }

  /** The switch on the kind of the allocated slot. */
  function Dispatch(env: Env, raw: Raw, t: Ty, x: Val): Outcome
    decreases raw, 2, 0
  {
    match t
    case Named(id) => WalkStruct(env, raw, id, x)
    case Slice(e) => WalkSlice(env, raw, e, x)
    case Map(e) => WalkMap(env, raw, e, x)
    case _ => env.std(t, raw, x)
  }

  /** unmarshalStruct: the struct `id` holding `sv`. */
  function WalkStruct(env: Env, raw: Raw, id: StructId, sv: Val): Outcome
    decreases raw, 1, 0
  {
    var pe := ParseRaw(raw, true);
    if pe.Some? then Outcome(sv, pe)
    else match GetStructFields(env.u, id)
      case Err(e) => Outcome(sv, Some(e))
      case Ok(sf) =>
        var entries := Entries(raw.members);
        var unknown := FirstUnknown(entries, sf.fields, 0);
        if env.cfg.disallowUnknownFields && unknown.Some? then
          var k := entries[unknown.value].0;
          Outcome(sv, Some(NewUnknownFieldError(k, if env.cfg.suggestClosest then Suggestion(k, sf.allNames) else "")))
        else StructFold(env, raw, id, sf, entries, |entries|, sv)
  }

  /** The per-key loop of unmarshalStruct over the first `n` entries; it stops
      at the first error. */
  function StructFold(env: Env, raw: Raw, id: StructId, sf: StructFields, entries: seq<(string, Raw)>,
                      n: nat, sv: Val): Outcome
    requires raw.Obj? && n <= |entries| && forall j | 0 <= j < |entries| :: entries[j] in raw.members
    decreases raw, 0, n
  {
    if n == 0 then Outcome(sv, None)
    else
      var o := StructFold(env, raw, id, sf, entries, n - 1, sv);
      if o.err.Some? then o else StructEntry(env, raw, id, sf, entries[n - 1], o.val)
  }

  /** One key of unmarshalStruct: skipped unless it names a field that
      reflect lets be set; otherwise decoded into that field. */
  function StructEntry(env: Env, raw: Raw, id: StructId, sf: StructFields, e: (string, Raw), sv: Val): Outcome
    requires raw.Obj? && e in raw.members
    decreases raw, 0, 0
  {
    if e.0 !in sf.fields then Outcome(sv, None)
    else
      var r := IndexFrom(env.u, sv, [], Named(id), false, false, sf.fields[e.0].fieldIndex);
      if r.slot.None? || !r.slot.value.settable then Outcome(r.val, None)
      else
        var slot := r.slot.value;
        var o := WalkValue(env, e.1, slot.ty, At(r.val, slot.loc));
        Outcome(Put(r.val, slot.loc, o.val), o.err)
  }

  /** The decoded elements of a slice and the first error, if any. */
  datatype Elems = Elems(vals: seq<Val>, err: Option<Error>)

  /** unmarshalSlice: a slice with element type `elem` holding `v`. */
  function WalkSlice(env: Env, raw: Raw, elem: Ty, v: Val): Outcome
    decreases raw, 1, 0
  {
    var pe := ParseRaw(raw, false);
    if pe.Some? then Outcome(v, pe)
    else if !ContainsStruct(env.u, elem) then env.std(Slice(elem), raw, v)
    else
      var r := SliceFold(env, raw, elem, |raw.elems|);
      if r.err.Some? then Outcome(v, r.err) else Outcome(SliceVal(r.vals), None)
  }

  /** The element loop of unmarshalSlice over the first `n` elements, each
      decoded into a fresh zero element; it stops at the first error. */
  function SliceFold(env: Env, raw: Raw, elem: Ty, n: nat): (r: Elems)
    requires raw.Arr? && n <= |raw.elems|
    ensures r.err.None? ==> |r.vals| == n
    decreases raw, 0, n
  {
    if n == 0 then Elems([], None)
    else
      var p := SliceFold(env, raw, elem, n - 1);
      if p.err.Some? then p
      else
        var o := WalkValue(env, raw.elems[n - 1], elem, Zero);
        Elems(p.vals + [o.val], o.err)
  }

  /** The entries of a map and the first error, if any. */
  datatype Filled = Filled(entries: map<string, Val>, err: Option<Error>)

  /** unmarshalMap: a map with element type `elem` holding `v`. */
  function WalkMap(env: Env, raw: Raw, elem: Ty, v: Val): Outcome
    decreases raw, 1, 0
  {
    var pe := ParseRaw(raw, true);
    if pe.Some? then Outcome(v, pe)
    else if !ContainsStruct(env.u, elem) then env.std(Map(elem), raw, v)
    else
      var entries := Entries(raw.members);
      var r := MapFold(env, raw, elem, entries, |entries|, if v.MapVal? then v.entries else map[]);
      Outcome(MapVal(r.entries), r.err)
  }

  /** The entry loop of unmarshalMap over the first `n` entries, starting
      from the map `m`: each value is decoded into a fresh zero element and
      stored only when that succeeds; the loop stops at the first error. */
  function MapFold(env: Env, raw: Raw, elem: Ty, entries: seq<(string, Raw)>, n: nat,
                   m: map<string, Val>): Filled
    requires raw.Obj? && n <= |entries| && forall j | 0 <= j < |entries| :: entries[j] in raw.members
    decreases raw, 0, n
  {
    if n == 0 then Filled(m, None)
    else
      var p := MapFold(env, raw, elem, entries, n - 1, m);
      if p.err.Some? then p
      else
        var e := entries[n - 1];
        assert e in raw.members;
        var o := WalkValue(env, e.1, elem, Zero);
        if o.err.Some? then Filled(p.entries, o.err) else Filled(p.entries[e.0 := o.val], None)
  }

  /** The dynamic type and value inside the `v any` argument; `NilInterface`
      is a nil `any`. */
  datatype Target = NilInterface | Typed(ty: Ty, val: Val)

  datatype Decoded = Decoded(target: Target, err: Option<Error>)

  /** Decoder.Unmarshal: only a non-nil pointer can be decoded into. */
  function DecodeTarget(env: Env, raw: Raw, target: Target): Decoded {
    if target.Typed? && target.ty.Ptr? && target.val.Pointer? then
      var o := WalkValue(env, raw, target.ty.elem, target.val.target);
      Decoded(Typed(target.ty, Pointer(o.val)), o.err)
    else Decoded(target, Some(NewNonPointerError()))
  }

  /** Past an error the struct loop changes nothing more. */
  lemma {:induction false} StructFoldStops(env: Env, raw: Raw, id: StructId, sf: StructFields,
                                           entries: seq<(string, Raw)>, m: nat, n: nat, sv: Val)
    requires raw.Obj? && m <= n <= |entries| && forall j | 0 <= j < |entries| :: entries[j] in raw.members
    requires StructFold(env, raw, id, sf, entries, m, sv).err.Some?
    ensures StructFold(env, raw, id, sf, entries, n, sv) == StructFold(env, raw, id, sf, entries, m, sv)
    decreases n - m
  {
    if m < n {
      StructFoldStops(env, raw, id, sf, entries, m, n - 1, sv);
    }
  }

  /** Past an error the slice loop changes nothing more. */
  lemma {:induction false} SliceFoldStops(env: Env, raw: Raw, elem: Ty, m: nat, n: nat)
    requires raw.Arr? && m <= n <= |raw.elems|
    requires SliceFold(env, raw, elem, m).err.Some?
    ensures SliceFold(env, raw, elem, n) == SliceFold(env, raw, elem, m)
    decreases n - m
  {
    if m < n {
      SliceFoldStops(env, raw, elem, m, n - 1);
    }
  }

  /** Past an error the map loop changes nothing more. */
  lemma {:induction false} MapFoldStops(env: Env, raw: Raw, elem: Ty, entries: seq<(string, Raw)>,
                                        m0: map<string, Val>, m: nat, n: nat)
    requires raw.Obj? && m <= n <= |entries| && forall j | 0 <= j < |entries| :: entries[j] in raw.members
    requires MapFold(env, raw, elem, entries, m, m0).err.Some?
    ensures MapFold(env, raw, elem, entries, n, m0) == MapFold(env, raw, elem, entries, m, m0)
    decreases n - m
  {
    if m < n {
      MapFoldStops(env, raw, elem, entries, m0, m, n - 1);
    }
  }

  /** allocatePointers: walk down the pointers, allocating each nil one. */
  method AllocatePointers(v: Val, t: Ty) returns (a: Allocated)
    ensures a == AllocFrom(v, [], t)
  {
    var cur, loc, ty := v, [], t;
    while ty.Ptr?
      invariant AllocFrom(cur, loc, ty) == AllocFrom(v, [], t)
      decreases ty
    {
      if !At(cur, loc).Pointer? {
        cur := Put(cur, loc, Pointer(Zero));
      }
      loc := loc + [Deref];
      ty := ty.elem;
    }
    return Allocated(cur, loc, ty);
  }

  /** getFieldByIndex: follow an index path from the struct `v` of type `t`,
      through at most one pointer per embedded field. */
  method GetFieldByIndex(u: Universe, v: Val, t: Ty, index: seq<nat>) returns (r: Reached)
    ensures r == IndexFrom(u, v, [], t, false, false, index)
  {
    var cur, loc, ty, sticky, embed := v, [], t, false, false;
    for k := 0 to |index|
      invariant IndexFrom(u, cur, loc, ty, sticky, embed, index[k..]) == IndexFrom(u, v, [], t, false, false, index)
    {
      var i := index[k];
      assert index[k..][0] == i && index[k..][1..] == index[k + 1..];
      if ty.Ptr? {
        if !At(cur, loc).Pointer? {
          if sticky || embed {
            return Reached(cur, None);
          }
          cur := Put(cur, loc, Pointer(Zero));
        }
        loc := loc + [Deref];
        ty := ty.elem;
      }
      if !ty.Named? || i >= |u.FieldsOf(ty.id)| {
        return Reached(cur, None);
      }
      var f := u.FieldsOf(ty.id)[i];
      loc := loc + [FieldStep(i)];
      ty := f.ty;
      sticky := sticky || (!f.exported && !f.anonymous);
      embed := !f.exported && f.anonymous;
    }
    assert index[|index|..] == [];
    return Reached(cur, Some(FieldSlot(loc, ty, !sticky && !embed)));
  }

  /** unmarshalValue. */
  method UnmarshalValue(env: Env, raw: Raw, t: Ty, v: Val) returns (o: Outcome)
    ensures o == WalkValue(env, raw, t, v)
    decreases raw, 3, 0
  {
    if raw == Null {
      return Outcome(v, None);
    }
    if t.Named? && env.u.HasCustom(t.id) {
      return env.std(t, raw, v);
    }
    var a := AllocatePointers(v, t);
    var x := At(a.val, a.loc);
    var r: Outcome;
    match a.base {
      case Named(id) => r := UnmarshalStruct(env, raw, id, x);
      case Slice(e) => r := UnmarshalSlice(env, raw, e, x);
      case Map(e) => r := UnmarshalMap(env, raw, e, x);
      case _ => r := env.std(a.base, raw, x);
    }
    return Outcome(Put(a.val, a.loc, r.val), r.err);
  }

  /** unmarshalStruct: the unknown-key check, then one decode per key. */
  method UnmarshalStruct(env: Env, raw: Raw, id: StructId, sv: Val) returns (o: Outcome)
    ensures o == WalkStruct(env, raw, id, sv)
    decreases raw, 1, 0
  {
    var pe := ParseRaw(raw, true);
    if pe.Some? {
      return Outcome(sv, pe);
    }
    var sf := BuildStructFields(env.u, id);
    if sf.conflict != "" {
      return Outcome(sv, Some(NewFieldConflictError(sf.conflict)));
    }
    assert GetStructFields(env.u, id) == Ok(sf);
    var entries := Entries(raw.members);
    if env.cfg.disallowUnknownFields {
      for j := 0 to |entries|
        invariant forall i | 0 <= i < j :: entries[i].0 in sf.fields
      {
        var jsonKey := entries[j].0;
        if jsonKey !in sf.fields {
          var suggestion := "";
          if env.cfg.suggestClosest {
            suggestion := FindSuggestion(jsonKey, sf.allNames);
          }
          FirstUnknownAt(entries, sf.fields, 0, j);
          return Outcome(sv, Some(NewUnknownFieldError(jsonKey, suggestion)));
        }
      }
    }
    o := DecodeEntries(env, raw, id, sf, entries, sv);
  }

  /** The per-key loop of unmarshalStruct: each claimed key whose slot is
      valid and settable is decoded into that slot, stopping at the first
      error. */
  method DecodeEntries(env: Env, raw: Raw, id: StructId, sf: StructFields, entries: seq<(string, Raw)>, sv: Val)
    returns (o: Outcome)
    requires raw.Obj? && forall j | 0 <= j < |entries| :: entries[j] in raw.members
    ensures o == StructFold(env, raw, id, sf, entries, |entries|, sv)
    decreases raw, 0, 0
  {
    var cur := sv;
    for j := 0 to |entries|
      invariant StructFold(env, raw, id, sf, entries, j, sv) == Outcome(cur, None)
    {
      var (jsonKey, rawValue) := entries[j];
      if jsonKey !in sf.fields {
        continue;
      }
      var r := GetFieldByIndex(env.u, cur, Named(id), sf.fields[jsonKey].fieldIndex);
      if r.slot.None? || !r.slot.value.settable {
        cur := r.val;
        continue;
      }
      assert entries[j] in raw.members;
      var fieldValue := At(r.val, r.slot.value.loc);
      var e := UnmarshalValue(env, rawValue, r.slot.value.ty, fieldValue);
      cur := Put(r.val, r.slot.value.loc, e.val);
      if e.err.Some? {
        StructFoldStops(env, raw, id, sf, entries, j + 1, |entries|, sv);
        return Outcome(cur, e.err);
      }
    }
    return Outcome(cur, None);
  }

  lemma {:induction false} FirstUnknownAt(entries: seq<(string, Raw)>, fields: map<string, FieldInfo>, from: nat, i: nat)
    requires from <= i < |entries| && entries[i].0 !in fields
    requires forall j | from <= j < i :: entries[j].0 in fields
    ensures FirstUnknown(entries, fields, from) == Some(i)
    decreases i - from
  {
    if from < i {
      FirstUnknownAt(entries, fields, from + 1, i);
    }
  }

  /** unmarshalSlice: the fast path, or each element into a new slice that
      replaces the old one only once every element has decoded. */
  method UnmarshalSlice(env: Env, raw: Raw, elem: Ty, v: Val) returns (o: Outcome)
    ensures o == WalkSlice(env, raw, elem, v)
    decreases raw, 1, 0
  {
    var pe := ParseRaw(raw, false);
    if pe.Some? {
      return Outcome(v, pe);
    }
    if !ContainsStruct(env.u, elem) {
      return env.std(Slice(elem), raw, v);
    }
    var n := |raw.elems|;
    var newSlice := new Val[n](_ => Zero);
    for i := 0 to n
      invariant SliceFold(env, raw, elem, i) == Elems(newSlice[..i], None)
      invariant forall k | i <= k < n :: newSlice[k] == Zero
    {
      var e := UnmarshalValue(env, raw.elems[i], elem, newSlice[i]);
      newSlice[i] := e.val;
      assert newSlice[..i + 1] == newSlice[..i] + [e.val];
      if e.err.Some? {
        SliceFoldStops(env, raw, elem, i + 1, n);
        return Outcome(v, e.err);
      }
    }
    assert newSlice[..] == newSlice[..n];
    return Outcome(SliceVal(newSlice[..]), None);
  }

  /** unmarshalMap: the fast path, or each entry decoded into a fresh element
      and stored once it has decoded. */
  method UnmarshalMap(env: Env, raw: Raw, elem: Ty, v: Val) returns (o: Outcome)
    ensures o == WalkMap(env, raw, elem, v)
    decreases raw, 1, 0
  {
    var pe := ParseRaw(raw, true);
    if pe.Some? {
      return Outcome(v, pe);
    }
    if !ContainsStruct(env.u, elem) {
      return env.std(Map(elem), raw, v);
    }
    var m: map<string, Val> := map[];
    if v.MapVal? {
      m := v.entries;
    }
    var entries := Entries(raw.members);
    var r := DecodeMapEntries(env, raw, elem, entries, m);
    return Outcome(MapVal(r.entries), r.err);
  }

  /** The entry loop of unmarshalMap: each value is decoded into a fresh
      element and stored under its key; the loop stops at the first error. */
  method DecodeMapEntries(env: Env, raw: Raw, elem: Ty, entries: seq<(string, Raw)>, m0: map<string, Val>)
    returns (r: Filled)
    requires raw.Obj? && forall j | 0 <= j < |entries| :: entries[j] in raw.members
    ensures r == MapFold(env, raw, elem, entries, |entries|, m0)
    decreases raw, 0, 0
  {
    var m := m0;
    for j := 0 to |entries|
      invariant MapFold(env, raw, elem, entries, j, m0) == Filled(m, None)
    {
      var (key, rawValue) := entries[j];
      assert entries[j] in raw.members;
      var elemVal := UnmarshalValue(env, rawValue, elem, Zero);
      if elemVal.err.Some? {
        MapFoldStops(env, raw, elem, entries, m0, j + 1, |entries|);
        return Filled(m, elemVal.err);
      }
      m := m[key := elemVal.val];
    }
    return Filled(m, None);
  }

  /** Decoder.Unmarshal. */
  method DecoderUnmarshal(d: Decoder, u: Universe, std: StdDecoder, data: Raw, target: Target) returns (r: Decoded)
    ensures r == DecodeTarget(Env(u, d.Settings(), std), data, target)
  {
    if !target.Typed? || !target.ty.Ptr? || !target.val.Pointer? {
      return Decoded(target, Some(NewNonPointerError()));
    }
    var env := Env(u, Config(d.disallowUnknownFields, d.suggestClosest), std);
    var o := UnmarshalValue(env, data, target.ty.elem, target.val.target);
    return Decoded(Typed(target.ty, Pointer(o.val)), o.err);
  }

  /** The package-level Unmarshal: a decoder with no options. */
  method Unmarshal(u: Universe, std: StdDecoder, data: Raw, target: Target) returns (r: Decoded)
    ensures r == DecodeTarget(Env(u, DefaultConfig, std), data, target)
  {
    var d := NewDecoder([]);
    r := DecoderUnmarshal(d, u, std, data, target);
  }
}

/**
 * The parts of Go's reflection and of encoding/json that the strict decoder
 * relies on, stated abstractly: static types over a struct environment, the
 * raw JSON tree handed out by the parser, target values as trees, and
 * locations inside a target value.
 */
module Reflect {

  datatype Option<+T> = None | Some(value: T)

  type StructId = nat

  /** A static Go type, as far as the decoder distinguishes types. */
  datatype Ty =
    | Named(id: StructId)          // a struct type, looked up in the environment
    | Slice(elem: Ty)
    | Array(elem: Ty, len: nat)
    | Map(elem: Ty)                // map[string]elem: only string keys are modelled
    | Ptr(elem: Ty)
    | Prim                         // string, number, bool and other scalar kinds
    | Any                          // interface{}

  /** One declared struct field: its Go name, its `json:"..."` tag text, whether
      the name is exported, whether the field is embedded, and its type. */
  datatype Field = Field(name: string, tag: string, exported: bool, anonymous: bool, ty: Ty)

  /** A struct declaration; `custom` says that the pointer type *T implements
      json.Unmarshaler. */
  datatype StructDef = StructDef(fields: seq<Field>, custom: bool)

  /** The program's struct declarations. */
  datatype Universe = Universe(structs: map<StructId, StructDef>) {

    predicate IsStruct(id: StructId) {
      id in structs
    }

    /** The declared fields of a struct; an unknown id has none. */
    function FieldsOf(id: StructId): seq<Field> {
      if id in structs then structs[id].fields else []
    }

    /** Whether *T implements json.Unmarshaler for the struct T named `id`. */
    predicate HasCustom(id: StructId) {
      id in structs && structs[id].custom
    }
  }

  /** The parsed, untyped JSON value; `Malformed` stands for bytes the parser rejects. */
  datatype Raw =
    | Null
    | Obj(members: seq<(string, Raw)>)
    | Arr(elems: seq<Raw>)
    | Scalar(token: string)
    | Malformed

  /** A target value.  `Zero` is the zero value of whatever type the slot has
      (a nil pointer, nil slice, nil map, zero struct or zero scalar); a struct
      lists its non-zero fields by index; `Leaf` holds what the standard
      decoder stored in a scalar, array or interface slot. */
  datatype Val =
    | Zero
    | StructVal(fields: map<nat, Val>)
    | Pointer(target: Val)
    | SliceVal(elems: seq<Val>)
    | MapVal(entries: map<string, Val>)
    | Leaf(raw: Raw)

  /** One step of a location: a struct field, or the target of a pointer. */
  datatype Step = FieldStep(index: nat) | Deref

  type Loc = seq<Step>

  /** The value of field `i` of a struct value. */
  function FieldOf(v: Val, i: nat): Val {
    if v.StructVal? && i in v.fields then v.fields[i] else Zero
  }

  /** What a pointer value points to; a nil pointer points to nothing (Zero). */
  function Pointee(v: Val): Val {
    if v.Pointer? then v.target else Zero
  }

  /** The struct value `v` with field `i` set to `x`. */
  function WithField(v: Val, i: nat, x: Val): (r: Val)
    ensures FieldOf(r, i) == x
    ensures forall j :: j != i ==> FieldOf(r, j) == FieldOf(v, j)
  {
    if v.StructVal? then StructVal(v.fields[i := x]) else StructVal(map[i := x])
  }

  /** The value at location `loc` inside `v`. */
  function At(v: Val, loc: Loc): Val
    decreases |loc|
  {
    if loc == [] then v
    else match loc[0]
      case FieldStep(i) => At(FieldOf(v, i), loc[1..])
      case Deref => At(Pointee(v), loc[1..])
  }

  /** `v` with the value at `loc` replaced by `x`.  Storing the value that is
      already there changes nothing. */
  function Put(v: Val, loc: Loc, x: Val): Val
    decreases |loc|
  {
    if loc == [] then x
    else match loc[0]
      case FieldStep(i) =>
        var old_ := FieldOf(v, i);
        var y := Put(old_, loc[1..], x);
        if y == old_ then v else WithField(v, i, y)
      case Deref =>
        var y := Put(Pointee(v), loc[1..], x);
        if y == Pointee(v) then v else Pointer(y)
  }

  /** Reading back a stored value yields it. */
  lemma {:induction false} AtPut(v: Val, loc: Loc, x: Val)
    ensures At(Put(v, loc, x), loc) == x
    decreases |loc|
  {
    if loc != [] {
      match loc[0]
      case FieldStep(i) => AtPut(FieldOf(v, i), loc[1..], x);
      case Deref => AtPut(Pointee(v), loc[1..], x);
    }
  }

  /** Storing what is already at a location leaves the value as it was. */
  lemma {:induction false} PutAt(v: Val, loc: Loc)
    ensures Put(v, loc, At(v, loc)) == v
    decreases |loc|
  {
    if loc != [] {
      match loc[0]
      case FieldStep(i) => PutAt(FieldOf(v, i), loc[1..]);
      case Deref => PutAt(Pointee(v), loc[1..]);
    }
  }

  /** `At` along a location extended by one step. */
  lemma {:induction false} AtSnoc(v: Val, loc: Loc, s: Step)
    ensures At(v, loc + [s]) == At(At(v, loc), [s])
    decreases |loc|
  {
    if loc != [] {
      assert (loc + [s])[1..] == loc[1..] + [s];
      match loc[0]
      case FieldStep(i) => AtSnoc(FieldOf(v, i), loc[1..], s);
      case Deref => AtSnoc(Pointee(v), loc[1..], s);
    }
  }

  /** The last occurrence of each key of a JSON object, in document order: what
      encoding/json leaves in a map[string]json.RawMessage. */
  function Entries(members: seq<(string, Raw)>): (r: seq<(string, Raw)>)
    ensures forall e :: e in r ==> e in members
    ensures forall k :: k in KeysOf(r) <==> k in KeysOf(members)
    ensures forall i, j :: 0 <= i < j < |r| ==> r[i].0 != r[j].0
  {
    if members == [] then []
    else
      var rest := Entries(members[1..]);
      KeysOfCons(members[0], members[1..]);
      assert members == [members[0]] + members[1..];
      if members[0].0 in KeysOf(members[1..]) then rest
      else
        KeysOfCons(members[0], rest);
        [members[0]] + rest
  }

  /** What a repeated key leaves behind is its last occurrence. */
  lemma {:induction false} EntriesKeepLast(members: seq<(string, Raw)>, i: nat)
    requires i < |members| && IsLast(members, i)
    ensures members[i] in Entries(members)
  {
    var rest := Entries(members[1..]);
    KeysOfCons(members[0], members[1..]);
    if i == 0 {
      forall e | e in members[1..] ensures e.0 != members[0].0 {
        var j :| 0 <= j < |members[1..]| && members[1..][j] == e;
        assert members[j + 1] == e;
      }
      assert members[0].0 !in KeysOf(members[1..]);
    } else {
      assert IsLast(members[1..], i - 1);
      EntriesKeepLast(members[1..], i - 1);
      assert members[1..][i - 1] == members[i];
    }
  }

  /** No later member repeats the key of member `i`. */
  predicate IsLast(members: seq<(string, Raw)>, i: nat)
    requires i < |members|
  {
    forall j | i < j < |members| :: members[j].0 != members[i].0
  }

  /** The keys of a JSON object's members. */
  function KeysOf(members: seq<(string, Raw)>): set<string> {
    set e | e in members :: e.0
  }

  lemma KeysOfCons(e: (string, Raw), members: seq<(string, Raw)>)
    ensures KeysOf([e] + members) == {e.0} + KeysOf(members)
  {
    var l := [e] + members;
    forall k | k in KeysOf(l) ensures k in {e.0} + KeysOf(members) {
      var x :| x in l && x.0 == k;
    }
    forall k | k in {e.0} + KeysOf(members) ensures k in KeysOf(l) {
      if k == e.0 { assert e in l; } else { var x :| x in members && x.0 == k; assert x in l; }
    }
  }
}

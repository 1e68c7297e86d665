/**
 * What the walker does with pointers and with the kinds it does not inspect:
 * allocatePointers leaves every pointer on the way non-nil, a pointer slot
 * decodes like its target, `containsStruct` decides between the strict walk
 * and the standard decoder, and `null`, custom decoders and arrays bypass the
 * strict walk.
 */
module PointerLemmas {
  import opened Reflect
  import opened Errors
  import opened Options
  import opened Fields
  import opened Walker

  /** `k` pointer indirections in a row. */
  function Derefs(k: nat): (r: Loc)
    ensures |r| == k && forall i | 0 <= i < k :: r[i] == Deref
  {
    seq(k, _ => Deref)
  }

  /** The number of pointer layers on top of a type. */
  function PtrDepth(t: Ty): nat {
    if t.Ptr? then 1 + PtrDepth(t.elem) else 0
  }

  /** Reading a prefix of the location just written sees the write below it. */
  lemma {:induction false} AtPutPrefix(v: Val, p: Loc, q: Loc, x: Val)
    ensures At(Put(v, p + q, x), p) == Put(At(v, p), q, x)
    decreases |p|
  {
    if p != [] {
      assert (p + q)[0] == p[0] && (p + q)[1..] == p[1..] + q;
      match p[0]
      case FieldStep(i) =>
        var y := Put(FieldOf(v, i), p[1..] + q, x);
        AtPutPrefix(FieldOf(v, i), p[1..], q, x);
        assert Put(v, p + q, x) == if y == FieldOf(v, i) then v else WithField(v, i, y);
        assert FieldOf(Put(v, p + q, x), i) == y;
        assert At(Put(v, p + q, x), p) == At(y, p[1..]);
        assert At(v, p) == At(FieldOf(v, i), p[1..]);
      case Deref =>
        var y := Put(Pointee(v), p[1..] + q, x);
        AtPutPrefix(Pointee(v), p[1..], q, x);
        assert Put(v, p + q, x) == if y == Pointee(v) then v else Pointer(y);
        assert Pointee(Put(v, p + q, x)) == y;
        assert At(Put(v, p + q, x), p) == At(y, p[1..]);
        assert At(v, p) == At(Pointee(v), p[1..]);
    } else {
      assert p + q == q;
    }
  }

  /** Allocating below a non-nil pointer keeps that pointer non-nil. */
  lemma {:induction false} AllocKeepsPointer(v: Val, loc: Loc, t: Ty, p: Loc)
    requires |p| < |loc| && loc[..|p|] == p && loc[|p|] == Deref && At(v, p).Pointer?
    ensures At(AllocFrom(v, loc, t).val, p).Pointer?
    decreases t
  {
    if t.Ptr? {
      if !At(v, loc).Pointer? {
        var q := loc[|p|..];
        assert loc == p + q;
        AtPutPrefix(v, p, q, Pointer(Zero));
        var v1 := Put(v, loc, Pointer(Zero));
        assert (loc + [Deref])[..|p|] == p && (loc + [Deref])[|p|] == Deref;
        AllocKeepsPointer(v1, loc + [Deref], t.elem, p);
      } else {
        assert (loc + [Deref])[..|p|] == p && (loc + [Deref])[|p|] == Deref;
        AllocKeepsPointer(v, loc + [Deref], t.elem, p);
      }
    }
  }

  /** allocatePointers ends below every pointer layer of the type, at the type
      with its pointers stripped, and every pointer it passed is non-nil. */
  lemma {:induction false} AllocateShape(v: Val, loc: Loc, t: Ty)
    ensures var a := AllocFrom(v, loc, t);
            && a.loc == loc + Derefs(PtrDepth(t))
            && a.base == StripPtr(t)
            && forall k | 0 <= k < PtrDepth(t) :: At(a.val, loc + Derefs(k)).Pointer?
    decreases t
  {
    if t.Ptr? {
      var v1 := if At(v, loc).Pointer? then v else Put(v, loc, Pointer(Zero));
      if !At(v, loc).Pointer? {
        AtPut(v, loc, Pointer(Zero));
      }
      assert At(v1, loc).Pointer?;
      AllocateShape(v1, loc + [Deref], t.elem);
      var a := AllocFrom(v1, loc + [Deref], t.elem);
      var n := PtrDepth(t.elem);
      assert loc + [Deref] + Derefs(n) == loc + Derefs(n + 1);
      forall k | 0 <= k < PtrDepth(t) ensures At(a.val, loc + Derefs(k)).Pointer? {
        if k == 0 {
          assert loc + Derefs(0) == loc;
          assert (loc + [Deref])[..|loc|] == loc;
          AllocKeepsPointer(v1, loc + [Deref], t.elem, loc);
        } else {
          assert loc + Derefs(k) == loc + [Deref] + Derefs(k - 1);
        }
      }
    } else {
      assert loc + Derefs(0) == loc;
    }
  }

  /** When every pointer is already non-nil, allocatePointers writes nothing. */
  lemma {:induction false} AllocateNoop(v: Val, loc: Loc, t: Ty)
    requires forall k | 0 <= k < PtrDepth(t) :: At(v, loc + Derefs(k)).Pointer?
    ensures AllocFrom(v, loc, t) == Allocated(v, loc + Derefs(PtrDepth(t)), StripPtr(t))
    decreases t
  {
    if t.Ptr? {
      assert loc + Derefs(0) == loc;
      forall k | 0 <= k < PtrDepth(t.elem) ensures At(v, loc + [Deref] + Derefs(k)).Pointer? {
        assert loc + [Deref] + Derefs(k) == loc + Derefs(k + 1);
      }
      AllocateNoop(v, loc + [Deref], t.elem);
      assert loc + [Deref] + Derefs(PtrDepth(t.elem)) == loc + Derefs(PtrDepth(t));
    } else {
      assert loc + Derefs(0) == loc;
    }
  }

  /** Allocating twice is allocating once. */
  lemma AllocateIdempotent(v: Val, t: Ty)
    ensures var a := AllocFrom(v, [], t); AllocFrom(a.val, [], t) == a
  {
    AllocateShape(v, [], t);
    AllocateNoop(AllocFrom(v, [], t).val, [], t);
  }

  /** Allocation under one more pointer of a non-nil pointer value. */
  lemma {:induction false} DerefShift(w: Val, loc: Loc, t: Ty)
    ensures var a, b := AllocFrom(Pointer(w), [Deref] + loc, t), AllocFrom(w, loc, t);
            a == Allocated(Pointer(b.val), [Deref] + b.loc, b.base)
    decreases t
  {
    var l := [Deref] + loc;
    assert l[0] == Deref && l[1..] == loc;
    if t.Ptr? {
      assert l + [Deref] == [Deref] + (loc + [Deref]);
      if At(w, loc).Pointer? {
        DerefShift(w, loc + [Deref], t.elem);
      } else {
        var w1 := Put(w, loc, Pointer(Zero));
        assert Put(Pointer(w), l, Pointer(Zero)) == Pointer(w1);
        DerefShift(w1, loc + [Deref], t.elem);
      }
    }
  }

  /** `At` and `Put` under a pointer. */
  lemma UnderPointer(w: Val, loc: Loc, x: Val)
    ensures At(Pointer(w), [Deref] + loc) == At(w, loc)
    ensures Put(Pointer(w), [Deref] + loc, x) == Pointer(Put(w, loc, x))
  {
    var l := [Deref] + loc;
    assert l[0] == Deref && l[1..] == loc;
  }

  /** A pointer slot decodes like the slot it points to, allocated first if
      it was nil, unless the pointed-to struct has its own decoder. */
  lemma PointerTransparent(env: Env, raw: Raw, t: Ty, v: Val)
    requires raw != Null && !(t.Named? && env.u.HasCustom(t.id))
    ensures var o := WalkValue(env, raw, t, Pointee(v));
            WalkValue(env, raw, Ptr(t), v) == Outcome(Pointer(o.val), o.err)
  {
    var w := Pointee(v);
    assert [] + [Deref] == [Deref] + [] == [Deref];
    assert AllocFrom(v, [], Ptr(t)) == AllocFrom(Pointer(w), [Deref], t);
    DerefShift(w, [], t);
    var b := AllocFrom(w, [], t);
    var o := Dispatch(env, raw, b.base, At(b.val, b.loc));
    UnderPointer(b.val, b.loc, o.val);
    var a := AllocFrom(v, [], Ptr(t));
    assert a == Allocated(Pointer(b.val), [Deref] + b.loc, b.base);
    assert At(a.val, a.loc) == At(b.val, b.loc);
    assert WalkValue(env, raw, Ptr(t), v) == Outcome(Put(a.val, a.loc, o.val), o.err);
    assert WalkValue(env, raw, t, w) == Outcome(Put(b.val, b.loc, o.val), o.err);
  }

  /** A JSON `null` changes nothing and reports nothing, whatever the slot. */
  lemma NullLeavesSlot(env: Env, t: Ty, v: Val)
    ensures WalkValue(env, Null, t, v) == Outcome(v, None)
  {
  }

  /** A struct with its own UnmarshalJSON is decoded by it, not walked. */
  lemma CustomDefers(env: Env, raw: Raw, id: StructId, v: Val)
    requires raw != Null && env.u.HasCustom(id)
    ensures WalkValue(env, raw, Named(id), v) == env.std(Named(id), raw, v)
  {
  }

  /** An array slot is never walked: it goes to the standard decoder even when
      its elements are structs that would be checked inside a slice. */
  lemma ArrayGoesToStd(env: Env, raw: Raw, elem: Ty, n: nat, v: Val)
    requires raw != Null
    ensures WalkValue(env, raw, Array(elem, n), v) == env.std(Array(elem, n), raw, v)
  {
  }

  /** The element type of a pointer, slice, array or map type. */
  function ElemAt(t: Ty, n: nat): Option<Ty>
    decreases n
  {
    if n == 0 then Some(t)
    else match t
      case Ptr(e) => ElemAt(e, n - 1)
      case Slice(e) => ElemAt(e, n - 1)
      case Array(e, _) => ElemAt(e, n - 1)
      case Map(e) => ElemAt(e, n - 1)
      case _ => None
  }

  /** `n` element steps from `t` reach a struct without a custom decoder. */
  predicate StrictAt(u: Universe, t: Ty, n: nat) {
    var r := ElemAt(t, n);
    r.Some? && r.value.Named? && !u.HasCustom(r.value.id)
  }

  lemma ElemShift(u: Universe, t: Ty)
    requires t.Ptr? || t.Slice? || t.Array? || t.Map?
    ensures (exists n: nat :: StrictAt(u, t, n)) <==> (exists n: nat :: StrictAt(u, t.elem, n))
  {
    if exists n: nat :: StrictAt(u, t, n) {
      var n: nat :| StrictAt(u, t, n);
      assert n > 0 && StrictAt(u, t.elem, n - 1);
    }
    if exists n: nat :: StrictAt(u, t.elem, n) {
      var n: nat :| StrictAt(u, t.elem, n);
      assert StrictAt(u, t, n + 1);
    }
  }

  /** containsStruct holds exactly when looking through pointer and element
      types reaches a struct that has no custom decoder. */
  lemma {:induction false} ContainsStructIff(u: Universe, t: Ty)
    ensures ContainsStruct(u, t) <==> exists n: nat :: StrictAt(u, t, n)
    decreases t
  {
    match t
    case Named(id) =>
      assert ContainsStruct(u, t) ==> StrictAt(u, t, 0);
      forall n: nat | StrictAt(u, t, n) ensures ContainsStruct(u, t) {
        assert n == 0;
      }
    case Ptr(e) => ContainsStructIff(u, e); ElemShift(u, t);
    case Slice(e) => ContainsStructIff(u, e); ElemShift(u, t);
    case Array(e, _) => ContainsStructIff(u, e); ElemShift(u, t);
    case Map(e) => ContainsStructIff(u, e); ElemShift(u, t);
    case Prim => assert forall n: nat :: !StrictAt(u, t, n);
    case Any => assert forall n: nat :: !StrictAt(u, t, n);
  }

  /** A slice whose element type reaches no plain struct goes to the standard
      decoder whole. */
  lemma SliceFastPath(env: Env, raw: Raw, elem: Ty, v: Val)
    requires ValidJson(raw) && raw.Arr?
    requires forall n: nat :: !StrictAt(env.u, elem, n)
    ensures WalkSlice(env, raw, elem, v) == env.std(Slice(elem), raw, v)
  {
    ContainsStructIff(env.u, elem);
  }

  /** A map whose element type reaches no plain struct goes to the standard
      decoder whole. */
  lemma MapFastPath(env: Env, raw: Raw, elem: Ty, v: Val)
    requires ValidJson(raw) && raw.Obj?
    requires forall n: nat :: !StrictAt(env.u, elem, n)
    ensures WalkMap(env, raw, elem, v) == env.std(Map(elem), raw, v)
  {
    ContainsStructIff(env.u, elem);
  }

  /** Decoder.Unmarshal refuses anything but a non-nil pointer, before it
      looks at the data, and leaves the target alone. */
  lemma NonPointerRejected(env: Env, raw: Raw, target: Target)
    requires !target.Typed? || !target.ty.Ptr? || !target.val.Pointer?
    ensures DecodeTarget(env, raw, target) == Decoded(target, Some(UnmarshalError("strictjson: Unmarshal(non-pointer)")))
  {
    assert NewNonPointerError().Message() == "strictjson: Unmarshal(non-pointer)";
  }

  /** A non-nil pointer target is decoded through, and stays a pointer of the
      same type. */
  lemma PointerTargetDecoded(env: Env, raw: Raw, t: Ty, w: Val)
    ensures var d := DecodeTarget(env, raw, Typed(Ptr(t), Pointer(w)));
            && d.target.Typed? && d.target.ty == Ptr(t) && d.target.val.Pointer?
            && d.target.val.target == WalkValue(env, raw, t, w).val
            && d.err == WalkValue(env, raw, t, w).err
  {
  }

  /** A universe of one struct whose pointer type has UnmarshalJSON. */
  const CustomOnly := Universe(map[0 := StructDef([], true)])

  /** The custom test looks at the slot's own type only: a `*T` slot, with
      *T a json.Unmarshaler, is allocated and walked as a plain struct, so a
      JSON string that UnmarshalJSON might accept is refused as not an
      object, whatever the standard decoder would do. */
  lemma PointerToCustomIsWalked(std: StdDecoder, cfg: Config)
    ensures WalkValue(Env(CustomOnly, cfg, std), Scalar("\"2024-01-01\""), Ptr(Named(0)), Zero)
            == Outcome(Pointer(Zero), Some(JsonError(TypeMismatch)))
  {
    var env := Env(CustomOnly, cfg, std);
    var a := AllocFrom(Zero, [], Ptr(Named(0)));
    assert a == Allocated(Pointer(Zero), [Deref], Named(0));
    UnderPointer(Zero, [], Zero);
  }
}

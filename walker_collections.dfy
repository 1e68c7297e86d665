/**
 * What unmarshalSlice and unmarshalMap guarantee on the strict path: every
 * element is decoded from a fresh zero value, in order, up to the first one
 * that fails; a slice is replaced only when all of them decode, while a map
 * keeps what was stored before the failure and every key it did not reach.
 */
module CollectionLemmas {
  import opened Reflect
  import opened Walker

  /** The raw value decodes without error into a fresh element. */
  predicate Decodes(env: Env, elem: Ty, r: Raw) {
    WalkValue(env, r, elem, Zero).err.None?
  }

  /** What decoding `r` into a fresh element of type `elem` produces. */
  function DecodedValue(env: Env, elem: Ty, r: Raw): Val {
    WalkValue(env, r, elem, Zero).val
  }

  /** The length of the longest prefix of `raws[..n]` whose elements all
      decode: the index of the first failure, or `n`. */
  function GoodPrefix(env: Env, elem: Ty, raws: seq<Raw>, n: nat): (p: nat)
    requires n <= |raws|
    ensures p <= n
    ensures forall j | 0 <= j < p :: Decodes(env, elem, raws[j])
    ensures p < n ==> !Decodes(env, elem, raws[p])
  {
    if n == 0 then 0
    else
      var p := GoodPrefix(env, elem, raws, n - 1);
      if p < n - 1 then p
      else if Decodes(env, elem, raws[n - 1]) then n
      else n - 1
  }

  /** The raw values of an object's entries. */
  function Values(entries: seq<(string, Raw)>): (r: seq<Raw>)
    ensures |r| == |entries| && forall i | 0 <= i < |entries| :: r[i] == entries[i].1
  {
    seq(|entries|, i requires 0 <= i < |entries| => entries[i].1)
  }

  /** The element loop of a slice: it succeeds exactly when every element
      decodes, and then holds each element's own decoding, in order; it
      fails with the first failing element's error. */
  lemma {:induction false} SliceFoldSpec(env: Env, raw: Raw, elem: Ty, n: nat)
    requires raw.Arr? && n <= |raw.elems|
    ensures var r := SliceFold(env, raw, elem, n);
            var p := GoodPrefix(env, elem, raw.elems, n);
            && (r.err.None? <==> p == n)
            && (r.err.Some? ==> p < n && r.err == WalkValue(env, raw.elems[p], elem, Zero).err)
            && (r.err.None? ==>
                  && |r.vals| == n
                  && forall j | 0 <= j < n :: r.vals[j] == WalkValue(env, raw.elems[j], elem, Zero).val)
  {
    if n > 0 {
      SliceFoldSpec(env, raw, elem, n - 1);
    }
  }

  /** unmarshalSlice on the strict path: on success a new slice of exactly
      one decoded element per raw element; on failure the slice is left as
      it was and the first failing element's error is reported. */
  lemma SliceDecoded(env: Env, raw: Raw, elem: Ty, v: Val)
    requires ValidJson(raw) && raw.Arr? && ContainsStruct(env.u, elem)
    ensures var o := WalkSlice(env, raw, elem, v);
            var n := |raw.elems|;
            var p := GoodPrefix(env, elem, raw.elems, n);
            && (o.err.None? <==> p == n)
            && (o.err.None? ==>
                  && o.val.SliceVal? && |o.val.elems| == n
                  && forall j | 0 <= j < n :: o.val.elems[j] == WalkValue(env, raw.elems[j], elem, Zero).val)
            && (o.err.Some? ==> p < n && o.val == v && o.err == WalkValue(env, raw.elems[p], elem, Zero).err)
  {
    SliceFoldSpec(env, raw, elem, |raw.elems|);
  }

  /** The keys of the first `p` entries. */
  function KeysUpTo(entries: seq<(string, Raw)>, p: nat): set<string>
    requires p <= |entries|
  {
    if p == 0 then {} else KeysUpTo(entries, p - 1) + {entries[p - 1].0}
  }

  /** The map `m` holds the decoded values of the first `p` entries, and
      what `m0` held under every other key. */
  predicate MapAfter(env: Env, elem: Ty, entries: seq<(string, Raw)>, p: nat, m0: map<string, Val>, m: map<string, Val>)
    requires p <= |entries|
  {
    && (forall j | 0 <= j < p ::
          entries[j].0 in m && m[entries[j].0] == DecodedValue(env, elem, entries[j].1))
    && (forall k | k in m0 && k !in KeysUpTo(entries, p) :: k in m && m[k] == m0[k])
    && (forall k | k in m :: k in m0 || k in KeysUpTo(entries, p))
  }

  /** Storing one more decoded entry, under a key not seen before. */
  lemma MapAfterStore(env: Env, elem: Ty, entries: seq<(string, Raw)>, p: nat, m0: map<string, Val>,
                      m: map<string, Val>, v: Val)
    requires p < |entries| && MapAfter(env, elem, entries, p, m0, m)
    requires forall j | 0 <= j < p :: entries[j].0 != entries[p].0
    requires v == WalkValue(env, entries[p].1, elem, Zero).val
    ensures MapAfter(env, elem, entries, p + 1, m0, m[entries[p].0 := v])
  {
  }

  /** What the entry loop of a map has done after its first `n` entries,
      given its result `r` and the number `p` of values that decode before
      the first one that does not: it has succeeded exactly when all `n`
      decoded; on failure it reports the error of value `p`; the keys it
      reached before the failure hold their decoded values, and every other
      key keeps what the map held. */
  predicate MapMeets(env: Env, elem: Ty, entries: seq<(string, Raw)>, n: nat, m0: map<string, Val>,
                     r: Filled, p: nat)
    requires p <= n <= |entries|
  {
    && (r.err.None? <==> p == n)
    && (r.err.Some? ==> p < n && r.err == WalkValue(env, entries[p].1, elem, Zero).err)
    && MapAfter(env, elem, entries, p, m0, r.entries)
  }

  /** The entry loop of a map, over keys that are all distinct, meets its
      description after any number of entries. */
  lemma {:induction false} MapFoldSpec(env: Env, raw: Raw, elem: Ty, entries: seq<(string, Raw)>,
                                       n: nat, m0: map<string, Val>)
    requires raw.Obj? && n <= |entries| && forall j | 0 <= j < |entries| :: entries[j] in raw.members
    requires forall i, j | 0 <= i < j < |entries| :: entries[i].0 != entries[j].0
    ensures MapMeets(env, elem, entries, n, m0, MapFold(env, raw, elem, entries, n, m0),
                     GoodPrefix(env, elem, Values(entries), n))
  {
    if n > 0 {
      MapFoldSpec(env, raw, elem, entries, n - 1, m0);
      if MapFold(env, raw, elem, entries, n - 1, m0).err.Some? {
        MapStepStopped(env, raw, elem, entries, n, m0);
      } else if !Decodes(env, elem, entries[n - 1].1) {
        MapStepFails(env, raw, elem, entries, n, m0);
      } else {
        MapStepStores(env, raw, elem, entries, n, m0);
      }
    }
  }

  /** Entry `n - 1` of the loop, after an earlier failure. */
  lemma MapStepStopped(env: Env, raw: Raw, elem: Ty, entries: seq<(string, Raw)>, n: nat, m0: map<string, Val>)
    requires raw.Obj? && 0 < n <= |entries| && forall j | 0 <= j < |entries| :: entries[j] in raw.members
    requires MapMeets(env, elem, entries, n - 1, m0, MapFold(env, raw, elem, entries, n - 1, m0),
                      GoodPrefix(env, elem, Values(entries), n - 1))
    requires MapFold(env, raw, elem, entries, n - 1, m0).err.Some?
    ensures MapMeets(env, elem, entries, n, m0, MapFold(env, raw, elem, entries, n, m0),
                     GoodPrefix(env, elem, Values(entries), n))
  {
    MapFoldStopped(env, elem, entries, n, m0, MapFold(env, raw, elem, entries, n - 1, m0),
                   GoodPrefix(env, elem, Values(entries), n - 1));
  }

  /** Entry `n - 1` of the loop, the first value that fails. */
  lemma MapStepFails(env: Env, raw: Raw, elem: Ty, entries: seq<(string, Raw)>, n: nat, m0: map<string, Val>)
    requires raw.Obj? && 0 < n <= |entries| && forall j | 0 <= j < |entries| :: entries[j] in raw.members
    requires MapMeets(env, elem, entries, n - 1, m0, MapFold(env, raw, elem, entries, n - 1, m0),
                      GoodPrefix(env, elem, Values(entries), n - 1))
    requires MapFold(env, raw, elem, entries, n - 1, m0).err.None?
    requires !Decodes(env, elem, entries[n - 1].1)
    ensures MapMeets(env, elem, entries, n, m0, MapFold(env, raw, elem, entries, n, m0),
                     GoodPrefix(env, elem, Values(entries), n))
  {
    assert Values(entries)[n - 1] == entries[n - 1].1;
    MapFoldFails(env, elem, entries, n, m0, MapFold(env, raw, elem, entries, n - 1, m0),
                 WalkValue(env, entries[n - 1].1, elem, Zero));
  }

  /** Entry `n - 1` of the loop, a value that decodes. */
  lemma MapStepStores(env: Env, raw: Raw, elem: Ty, entries: seq<(string, Raw)>, n: nat, m0: map<string, Val>)
    requires raw.Obj? && 0 < n <= |entries| && forall j | 0 <= j < |entries| :: entries[j] in raw.members
    requires forall i, j | 0 <= i < j < |entries| :: entries[i].0 != entries[j].0
    requires MapMeets(env, elem, entries, n - 1, m0, MapFold(env, raw, elem, entries, n - 1, m0),
                      GoodPrefix(env, elem, Values(entries), n - 1))
    requires MapFold(env, raw, elem, entries, n - 1, m0).err.None?
    requires Decodes(env, elem, entries[n - 1].1)
    ensures MapMeets(env, elem, entries, n, m0, MapFold(env, raw, elem, entries, n, m0),
                     GoodPrefix(env, elem, Values(entries), n))
  {
    assert Values(entries)[n - 1] == entries[n - 1].1;
    MapFoldStores(env, elem, entries, n, m0, MapFold(env, raw, elem, entries, n - 1, m0),
                  WalkValue(env, entries[n - 1].1, elem, Zero).val);
  }

  /** After an earlier failure, entry `n - 1` changes nothing. */
  lemma MapFoldStopped(env: Env, elem: Ty, entries: seq<(string, Raw)>, n: nat, m0: map<string, Val>,
                       q: Filled, pq: nat)
    requires 0 < n <= |entries| && pq <= n - 1
    requires MapMeets(env, elem, entries, n - 1, m0, q, pq) && q.err.Some?
    ensures MapMeets(env, elem, entries, n, m0, q, pq)
  {
  }

  /** Entry `n - 1` is the first whose value fails: the loop stops with its
      error. */
  lemma MapFoldFails(env: Env, elem: Ty, entries: seq<(string, Raw)>, n: nat, m0: map<string, Val>,
                     q: Filled, o: Outcome)
    requires 0 < n <= |entries|
    requires MapMeets(env, elem, entries, n - 1, m0, q, n - 1) && q.err.None?
    requires o == WalkValue(env, entries[n - 1].1, elem, Zero) && o.err.Some?
    ensures MapMeets(env, elem, entries, n, m0, Filled(q.entries, o.err), n - 1)
  {
  }

  /** Entry `n - 1` decodes: its value is stored under its key. */
  lemma MapFoldStores(env: Env, elem: Ty, entries: seq<(string, Raw)>, n: nat, m0: map<string, Val>,
                      q: Filled, v: Val)
    requires 0 < n <= |entries|
    requires forall i, j | 0 <= i < j < |entries| :: entries[i].0 != entries[j].0
    requires MapMeets(env, elem, entries, n - 1, m0, q, n - 1) && q.err.None?
    requires v == WalkValue(env, entries[n - 1].1, elem, Zero).val
    ensures MapMeets(env, elem, entries, n, m0, Filled(q.entries[entries[n - 1].0 := v], None), n)
  {
    FreshKey(entries, n - 1);
    MapAfterStore(env, elem, entries, n - 1, m0, q.entries, v);
  }

  /** With distinct keys, entry `p` has a key no earlier entry has. */
  lemma FreshKey(entries: seq<(string, Raw)>, p: nat)
    requires p < |entries| && forall i, j | 0 <= i < j < |entries| :: entries[i].0 != entries[j].0
    ensures forall j | 0 <= j < p :: entries[j].0 != entries[p].0
  {
  }

  /** unmarshalMap on the strict path: a nil map is allocated even when a
      value fails; the keys decoded before the first failure hold their
      values, keys not reached keep what they held, and the first failing
      value's error is reported. */
  lemma MapDecoded(env: Env, raw: Raw, elem: Ty, v: Val)
    requires ValidJson(raw) && raw.Obj? && ContainsStruct(env.u, elem)
    ensures var o := WalkMap(env, raw, elem, v);
            var es := Entries(raw.members);
            var p := GoodPrefix(env, elem, Values(es), |es|);
            var m0 := if v.MapVal? then v.entries else map[];
            && o.val.MapVal?
            && (o.err.None? <==> p == |es|)
            && (o.err.Some? ==> p < |es| && o.err == WalkValue(env, es[p].1, elem, Zero).err)
            && MapAfter(env, elem, es, p, m0, o.val.entries)
  {
    var es := Entries(raw.members);
    MapFoldSpec(env, raw, elem, es, |es|, if v.MapVal? then v.entries else map[]);
  }
}

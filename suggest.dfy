/**
 * The "did you mean" logic of fields.go: a case-insensitive match first, then
 * the first known name within edit distance 2.
 */
module Suggest {
  import opened Reflect

  /** strings.ToLower on the ASCII letters; other characters are kept. */
  function ToLower(s: string): (r: string)
    ensures |r| == |s|
    ensures forall i :: 0 <= i < |s| ==> r[i] == LowerChar(s[i])
  {
    if s == [] then [] else [LowerChar(s[0])] + ToLower(s[1..])
  }

  function LowerChar(c: char): char {
    if 'A' <= c <= 'Z' then (c as int + 32) as char else c
  }

  /** Two names that differ at most in the case of their letters. */
  predicate EqualFold(a: string, b: string) {
    ToLower(a) == ToLower(b)
  }

  function MinOfThree(a: int, b: int, c: int): (m: int)
    ensures m <= a && m <= b && m <= c
    ensures m == a || m == b || m == c
  {
    if a < b then (if a < c then a else c)
    else if b < c then b else c
  }

  /** The edit distance between the first `i` characters of `s1` and the
      first `j` of `s2`: the fewest single-character insertions, deletions
      and substitutions that turn one into the other, by the standard
      recurrence on the last characters. */
  function Distance(s1: string, s2: string, i: nat, j: nat): nat
    requires i <= |s1| && j <= |s2|
    decreases i + j
  {
    if i == 0 then j
    else if j == 0 then i
    else
      MinOfThree(Distance(s1, s2, i - 1, j) + 1,
                 Distance(s1, s2, i, j - 1) + 1,
                 Distance(s1, s2, i - 1, j - 1) + (if s1[i - 1] != s2[j - 1] then 1 else 0))
  }

  /** The edit distance of two whole strings. */
  function EditDistance(a: string, b: string): nat {
    Distance(a, b, |a|, |b|)
  }

  /** A prefix distance is zero exactly for equal prefixes. */
  lemma {:induction false} DistanceZero(a: string, b: string, i: nat, j: nat)
    requires i <= |a| && j <= |b|
    ensures Distance(a, b, i, j) == 0 <==> a[..i] == b[..j]
    decreases i + j
  {
    if i == 0 || j == 0 {
      assert |a[..i]| == i && |b[..j]| == j;
    } else {
      DistanceZero(a, b, i - 1, j - 1);
      assert a[..i] == a[..i - 1] + [a[i - 1]] && b[..j] == b[..j - 1] + [b[j - 1]];
      if a[..i] == b[..j] {
        assert |a[..i]| == |b[..j]|;
        assert a[..i - 1] == a[..i][..i - 1] == b[..j][..j - 1] == b[..j - 1];
        assert a[i - 1] == a[..i][i - 1] == b[..j][j - 1] == b[j - 1];
      }
    }
  }

  /** The distance is zero exactly for equal strings. */
  lemma EditDistanceZero(a: string, b: string)
    ensures EditDistance(a, b) == 0 <==> a == b
  {
    DistanceZero(a, b, |a|, |b|);
    assert a[..|a|] == a && b[..|b|] == b;
  }

  /** A prefix distance never exceeds the longer prefix. */
  lemma {:induction false} DistanceBound(a: string, b: string, i: nat, j: nat)
    requires i <= |a| && j <= |b|
    ensures Distance(a, b, i, j) <= if i < j then j else i
    decreases i + j
  {
    if i > 0 && j > 0 {
      DistanceBound(a, b, i - 1, j - 1);
    }
  }

  /** The edit distance never exceeds the longer length. */
  lemma EditDistanceBound(a: string, b: string)
    ensures EditDistance(a, b) <= if |a| < |b| then |b| else |a|
  {
    DistanceBound(a, b, |a|, |b|);
  }

  /** levenshteinDistance: the two-row dynamic programme. */
  method LevenshteinDistance(s1: string, s2: string) returns (d: nat)
    ensures d == EditDistance(s1, s2)
  {
    if |s1| == 0 {
      return |s2|;
    }
    if |s2| == 0 {
      return |s1|;
    }
    var prev := new nat[|s2| + 1];
    var curr := new nat[|s2| + 1];
    for j := 0 to |s2| + 1
      invariant forall k {:trigger prev[k]} :: 0 <= k < j ==> prev[k] == Distance(s1, s2, 0, k)
    {
      prev[j] := j;
    }
    for i := 1 to |s1| + 1
      invariant fresh(prev) && fresh(curr)
      invariant prev != curr && prev.Length == curr.Length == |s2| + 1
      invariant forall k {:trigger prev[k]} :: 0 <= k <= |s2| ==> prev[k] == Distance(s1, s2, i - 1, k)
    {
      NextRow(s1, s2, i, prev, curr);
      prev, curr := curr, prev;
    }
    return prev[|s2|];
  }

  /** One pass of levenshteinDistance's outer loop: row `i` of the table
      into `curr`, from row `i - 1` in `prev`. */
  method NextRow(s1: string, s2: string, i: nat, prev: array<nat>, curr: array<nat>)
    requires 1 <= i <= |s1| && prev != curr && prev.Length == curr.Length == |s2| + 1
    requires forall k {:trigger prev[k]} :: 0 <= k <= |s2| ==> prev[k] == Distance(s1, s2, i - 1, k)
    modifies curr
    ensures forall k {:trigger curr[k]} :: 0 <= k <= |s2| ==> curr[k] == Distance(s1, s2, i, k)
  {
    curr[0] := i;
    for j := 1 to |s2| + 1
      invariant forall k {:trigger curr[k]} :: 0 <= k < j ==> curr[k] == Distance(s1, s2, i, k)
    {
      var cost := 0;
      if s1[i - 1] != s2[j - 1] {
        cost := 1;
      }
      assert Distance(s1, s2, i, j) == MinOfThree(prev[j] + 1, curr[j - 1] + 1, prev[j - 1] + cost);
      curr[j] := MinOfThree(prev[j] + 1, curr[j - 1] + 1, prev[j - 1] + cost);
    }
  }

  /** The index of the first name that equals `unknown` up to case. */
  function FirstFoldMatch(unknown: string, names: seq<string>, from: nat): (r: Option<nat>)
    requires from <= |names|
    ensures r.Some? ==>
              && from <= r.value < |names| && EqualFold(names[r.value], unknown)
              && forall j :: from <= j < r.value ==> !EqualFold(names[j], unknown)
    ensures r.None? ==> forall j :: from <= j < |names| ==> !EqualFold(names[j], unknown)
    decreases |names| - from
  {
    if from == |names| then None
    else if EqualFold(names[from], unknown) then Some(from)
    else FirstFoldMatch(unknown, names, from + 1)
  }

  /** The index of the first name within edit distance 2 of `unknown`. */
  function FirstClose(unknown: string, names: seq<string>, from: nat): (r: Option<nat>)
    requires from <= |names|
    ensures r.Some? ==>
              && from <= r.value < |names| && EditDistance(unknown, names[r.value]) <= 2
              && forall j :: from <= j < r.value ==> EditDistance(unknown, names[j]) > 2
    ensures r.None? ==> forall j :: from <= j < |names| ==> EditDistance(unknown, names[j]) > 2
    decreases |names| - from
  {
    if from == |names| then None
    else if EditDistance(unknown, names[from]) <= 2 then Some(from)
    else FirstClose(unknown, names, from + 1)
  }

  /** Which known name findSuggestion picks, if any. */
  function SuggestionIndex(unknown: string, names: seq<string>): Option<nat> {
    var m := FirstFoldMatch(unknown, names, 0);
    if m.Some? then m else FirstClose(unknown, names, 0)
  }

  /** findSuggestion's result: the picked name, or "" when none fits. */
  function Suggestion(unknown: string, names: seq<string>): string {
    var k := SuggestionIndex(unknown, names);
    if k.Some? && k.value < |names| then names[k.value] else ""
  }

  /** What findSuggestion promises: a name equal up to case wins, the first
      one in list order; otherwise the first name within distance 2; with
      neither, no suggestion. */
  lemma SuggestionSpec(unknown: string, names: seq<string>)
    ensures Suggestion(unknown, names) == "" || Suggestion(unknown, names) in names
    ensures forall i :: (0 <= i < |names| && EqualFold(names[i], unknown)
                          && (forall j :: 0 <= j < i ==> !EqualFold(names[j], unknown)))
                         ==> Suggestion(unknown, names) == names[i]
    ensures (forall j :: 0 <= j < |names| ==> !EqualFold(names[j], unknown)) ==>
              forall i :: (0 <= i < |names| && EditDistance(unknown, names[i]) <= 2
                           && (forall j :: 0 <= j < i ==> EditDistance(unknown, names[j]) > 2))
                          ==> Suggestion(unknown, names) == names[i]
    ensures (forall j :: 0 <= j < |names| ==> !EqualFold(names[j], unknown) && EditDistance(unknown, names[j]) > 2)
      ==> Suggestion(unknown, names) == ""
  {
    var m := FirstFoldMatch(unknown, names, 0);
    var c := FirstClose(unknown, names, 0);
    forall i | 0 <= i < |names| && EqualFold(names[i], unknown)
      && (forall j :: 0 <= j < i ==> !EqualFold(names[j], unknown))
      ensures Suggestion(unknown, names) == names[i]
    {
      assert m.Some? && m.value == i;
    }
    if forall j :: 0 <= j < |names| ==> !EqualFold(names[j], unknown) {
      assert m.None?;
      forall i | 0 <= i < |names| && EditDistance(unknown, names[i]) <= 2
        && (forall j :: 0 <= j < i ==> EditDistance(unknown, names[j]) > 2)
        ensures Suggestion(unknown, names) == names[i]
      {
        assert c.Some? && c.value == i;
      }
    }
  }

  /** findSuggestion: two scans over the known names. */
  method FindSuggestion(unknown: string, knownNames: seq<string>) returns (s: string)
    ensures s == Suggestion(unknown, knownNames)
  {
    var unknownLower := ToLower(unknown);
    for i := 0 to |knownNames|
      invariant forall j :: 0 <= j < i ==> !EqualFold(knownNames[j], unknown)
    {
      if ToLower(knownNames[i]) == unknownLower {
        assert FirstFoldMatch(unknown, knownNames, 0) == Some(i) by {
          FirstFoldMatchAt(unknown, knownNames, 0, i);
        }
        return knownNames[i];
      }
    }
    assert FirstFoldMatch(unknown, knownNames, 0).None?;
    for i := 0 to |knownNames|
      invariant forall j :: 0 <= j < i ==> EditDistance(unknown, knownNames[j]) > 2
    {
      var dist := LevenshteinDistance(unknown, knownNames[i]);
      if dist <= 2 {
        assert FirstClose(unknown, knownNames, 0) == Some(i) by {
          FirstCloseAt(unknown, knownNames, 0, i);
        }
        return knownNames[i];
      }
    }
    assert FirstClose(unknown, knownNames, 0).None?;
    return "";
  }

  lemma {:induction false} FirstFoldMatchAt(unknown: string, names: seq<string>, from: nat, i: nat)
    requires from <= i < |names| && EqualFold(names[i], unknown)
    requires forall j :: from <= j < i ==> !EqualFold(names[j], unknown)
    ensures FirstFoldMatch(unknown, names, from) == Some(i)
    decreases i - from
  {
    if from < i {
      FirstFoldMatchAt(unknown, names, from + 1, i);
    }
  }

  lemma {:induction false} FirstCloseAt(unknown: string, names: seq<string>, from: nat, i: nat)
    requires from <= i < |names| && EditDistance(unknown, names[i]) <= 2
    requires forall j :: from <= j < i ==> EditDistance(unknown, names[j]) > 2
    ensures FirstClose(unknown, names, from) == Some(i)
    decreases i - from
  {
    if from < i {
      FirstCloseAt(unknown, names, from + 1, i);
    }
  }
}

/**
 * The decoder's error values and the text each one renders (errors.go).
 * Failures reported by encoding/json itself are carried as `JsonError`; their
 * text belongs to encoding/json and is not rendered here.
 */
module Errors {
  import opened Reflect

  const ErrPrefixNonPointer: string := "strictjson: Unmarshal(non-pointer)"

  const UnknownPrefix: string := "strictjson: unknown field \""
  const SuggestionMid: string := "\" (did you mean \""
  const SuggestionEnd: string := "\"?)"
  const MisCasedPrefix: string := "strictjson: unknown or mis-cased field \""
  const ConflictPrefix: string := "strictjson: field conflict: \""
  const ConflictEnd: string := "\" defined in multiple embedded structs"

  /** What encoding/json reports: bytes it cannot parse, a JSON value of the
      wrong kind for the Go value, or any other failure of its own. */
  datatype JsonCause = SyntaxError | TypeMismatch | Other(detail: string)

  datatype Error =
    | UnmarshalError(message: string)
    | UnknownFieldError(fieldName: string, suggestion: string)
    | FieldConflictError(fieldName: string)
    | JsonError(cause: JsonCause)
  {
    /** The Error() method of the package's own three error types: an
        UnmarshalError shows its text; the other two start with the package
        name and quote the field name right after their kind's prefix, and a
        suggestion is quoted at the end. */
    function Message(): (r: string)
      requires !JsonError?
      ensures UnmarshalError? ==> r == message
      ensures !UnmarshalError? ==> "strictjson: " <= r
      ensures UnknownFieldError? ==>
                (if suggestion != "" then UnknownPrefix else MisCasedPrefix) + fieldName + "\"" <= r
      ensures UnknownFieldError? && suggestion != "" ==>
                |suggestion| + |SuggestionEnd| <= |r|
                && r[|r| - |suggestion| - |SuggestionEnd|..] == suggestion + SuggestionEnd
      ensures FieldConflictError? ==> ConflictPrefix + fieldName + "\"" <= r
    {
      PackagePrefixes();
      match this
      case UnmarshalError(m) => m
      case UnknownFieldError(f, s) =>
        if s != "" then
          Framed(UnknownPrefix, f, SuggestionMid, s, SuggestionEnd);
          UnknownPrefix + f + SuggestionMid + s + SuggestionEnd
        else
          Framed(MisCasedPrefix, f, "\"", "", "");
          MisCasedPrefix + f + "\""
      case FieldConflictError(f) =>
        Framed(ConflictPrefix, f, ConflictEnd, "", "");
        ConflictPrefix + f + ConflictEnd
    }
  }

  /** Every prefix of the package's messages starts with the package name,
      and the texts that follow a field name start with a quote. */
  lemma PackagePrefixes()
    ensures "strictjson: " <= UnknownPrefix && "strictjson: " <= MisCasedPrefix && "strictjson: " <= ConflictPrefix
    ensures SuggestionMid[0] == '"' && ConflictEnd[0] == '"'
  {
  }

  /** A text built of a prefix, a name and a tail starting with `q`: the
      prefix and the name are followed by `q`'s first character, and the
      text ends with `y + z`. */
  lemma Framed(p: string, x: string, q: string, y: string, z: string)
    requires q != ""
    ensures var r := p + x + q + y + z;
            && p <= r && p + x + [q[0]] <= r
            && |y| + |z| <= |r| && r[|r| - |y| - |z|..] == y + z
  {
    var r := p + x + q + y + z;
    assert r == (p + x + [q[0]]) + (q[1..] + y + z);
    assert r == p + (x + q + y + z);
    assert r == (p + x + q) + (y + z);
  }

  function NewNonPointerError(): (e: Error)
    ensures e.UnmarshalError? && e.Message() == "strictjson: Unmarshal(non-pointer)"
  {
    UnmarshalError(ErrPrefixNonPointer)
  }

  function NewUnknownFieldError(fieldName: string, suggestion: string): (e: Error)
    ensures e.UnknownFieldError? && e.fieldName == fieldName && e.suggestion == suggestion
  {
    UnknownFieldError(fieldName, suggestion)
  }

  function NewFieldConflictError(fieldName: string): (e: Error)
    ensures e.FieldConflictError? && e.fieldName == fieldName
  {
    FieldConflictError(fieldName)
  }

  /** The errors this package creates: the non-pointer error has its fixed
      text, and the names a message quotes contain no quote character. */
  predicate Renderable(e: Error) {
    match e
    case UnmarshalError(m) => m == ErrPrefixNonPointer
    case UnknownFieldError(f, _) => '"' !in f
    case FieldConflictError(f) => '"' !in f
    case JsonError(_) => false
  }

  /** Splits `s` before its first quote character. */
  function UpToQuote(s: string): (r: (string, string))
    ensures r.0 + r.1 == s && '"' !in r.0 && (r.1 == [] || r.1[0] == '"')
  {
    if s == [] then ([], [])
    else if s[0] == '"' then ([], s)
    else
      var (a, b) := UpToQuote(s[1..]);
      ([s[0]] + a, b)
  }

  lemma {:induction false} UpToQuoteOf(x: string, tail: string)
    requires '"' !in x && (tail == [] || tail[0] == '"')
    ensures UpToQuote(x + tail) == (x, tail)
  {
    if x != [] {
      var s := x + tail;
      assert s[1..] == x[1..] + tail;
      assert s[0] == x[0] && [x[0]] + x[1..] == x;
      assert x[0] != '"' by { assert x[0] in x; }
      assert '"' !in x[1..] by { forall c | c in x[1..] ensures c in x { } }
      UpToQuoteOf(x[1..], tail);
      assert UpToQuote(s) == ([s[0]] + UpToQuote(s[1..]).0, UpToQuote(s[1..]).1);
    } else {
      assert x + tail == tail;
    }
  }

  /** Reads back the error that a message of this package renders. */
  function ParseMessage(msg: string): Option<Error> {
    if msg == ErrPrefixNonPointer then Some(UnmarshalError(msg))
    else if UnknownPrefix <= msg then
      var (f, rest) := UpToQuote(msg[|UnknownPrefix|..]);
      if |rest| >= |SuggestionMid| + 1 + |SuggestionEnd|
        && SuggestionMid <= rest && rest[|rest| - |SuggestionEnd|..] == SuggestionEnd
      then Some(UnknownFieldError(f, rest[|SuggestionMid|..|rest| - |SuggestionEnd|]))
      else None
    else if MisCasedPrefix <= msg then
      var (f, rest) := UpToQuote(msg[|MisCasedPrefix|..]);
      if rest == "\"" then Some(UnknownFieldError(f, "")) else None
    else if ConflictPrefix <= msg then
      var (f, rest) := UpToQuote(msg[|ConflictPrefix|..]);
      if rest == ConflictEnd then Some(FieldConflictError(f)) else None
    else None
  }

  /** Every message names its error exactly: kind, field name and suggestion
      can all be read back from the text. */
  lemma MessageRoundTrip(e: Error)
    requires Renderable(e)
    ensures ParseMessage(e.Message()) == Some(e)
  {
    match e
    case UnmarshalError(m) =>
    case UnknownFieldError(f, s) =>
      if s != "" { SuggestedRoundTrip(f, s); } else { MisCasedRoundTrip(f); }
    case FieldConflictError(f) => ConflictRoundTrip(f);
  }

  lemma SuggestedRoundTrip(f: string, s: string)
    requires '"' !in f && s != ""
    ensures ParseMessage(UnknownFieldError(f, s).Message()) == Some(UnknownFieldError(f, s))
  {
    var rest := SuggestionMid + s + SuggestionEnd;
    SuggestedSplit(f, s);
    UpToQuoteOf(f, rest);
    SuggestionTail(s);
  }

  /** The "did you mean" message is the unknown-field prefix, the key and a
      tail starting at the closing quote. */
  lemma SuggestedSplit(f: string, s: string)
    requires s != ""
    ensures var msg := UnknownFieldError(f, s).Message();
            && msg != ErrPrefixNonPointer && UnknownPrefix <= msg
            && msg[|UnknownPrefix|..] == f + (SuggestionMid + s + SuggestionEnd)
  {
    var msg := UnknownFieldError(f, s).Message();
    var rest := SuggestionMid + s + SuggestionEnd;
    assert msg == UnknownPrefix + (f + rest);
    assert msg[..|UnknownPrefix|] == UnknownPrefix;
    assert msg != ErrPrefixNonPointer by { assert msg[12] != ErrPrefixNonPointer[12]; }
    assert msg[|UnknownPrefix|..] == f + rest;
  }

  /** The tail of the "did you mean" message gives back the suggestion. */
  lemma SuggestionTail(s: string)
    requires s != ""
    ensures var rest := SuggestionMid + s + SuggestionEnd;
            && rest[0] == '"'
            && |rest| >= |SuggestionMid| + 1 + |SuggestionEnd|
            && SuggestionMid <= rest && rest[|rest| - |SuggestionEnd|..] == SuggestionEnd
            && rest[|SuggestionMid|..|rest| - |SuggestionEnd|] == s
  {
    var rest := SuggestionMid + s + SuggestionEnd;
    assert rest[..|SuggestionMid|] == SuggestionMid;
    assert rest[|rest| - |SuggestionEnd|..] == SuggestionEnd;
    assert rest[|SuggestionMid|..|rest| - |SuggestionEnd|] == s;
  }

  lemma MisCasedRoundTrip(f: string)
    requires '"' !in f
    ensures ParseMessage(UnknownFieldError(f, "").Message()) == Some(UnknownFieldError(f, ""))
  {
    var msg := UnknownFieldError(f, "").Message();
    assert msg == MisCasedPrefix + (f + "\"");
    assert msg != ErrPrefixNonPointer by { assert msg[12] != ErrPrefixNonPointer[12]; }
    assert !(UnknownPrefix <= msg) by { assert msg[20] != UnknownPrefix[20]; }
    assert msg[..|MisCasedPrefix|] == MisCasedPrefix;
    assert msg[|MisCasedPrefix|..] == f + "\"";
    UpToQuoteOf(f, "\"");
  }

  lemma ConflictRoundTrip(f: string)
    requires '"' !in f
    ensures ParseMessage(FieldConflictError(f).Message()) == Some(FieldConflictError(f))
  {
    var msg := FieldConflictError(f).Message();
    assert msg == ConflictPrefix + (f + ConflictEnd);
    assert msg != ErrPrefixNonPointer by { assert msg[12] != ErrPrefixNonPointer[12]; }
    assert !(UnknownPrefix <= msg) by { assert msg[12] != UnknownPrefix[12]; }
    assert !(MisCasedPrefix <= msg) by { assert msg[12] != MisCasedPrefix[12]; }
    assert msg[..|ConflictPrefix|] == ConflictPrefix;
    assert msg[|ConflictPrefix|..] == f + ConflictEnd;
    UpToQuoteOf(f, ConflictEnd);
  }

  /** The three kinds of error never share a message, and neither do two
      errors of one kind with different names or suggestions. */
  lemma MessageInjective(e1: Error, e2: Error)
    requires Renderable(e1) && Renderable(e2)
    requires e1.Message() == e2.Message()
    ensures e1 == e2
  {
    MessageRoundTrip(e1);
    MessageRoundTrip(e2);
  }
}

/**
 * Decoder configuration (options.go): two switches, set by a constructor
 * that applies functional options in order.
 */
module Options {

  /** The two switches of a Decoder. */
  datatype Config = Config(disallowUnknownFields: bool, suggestClosest: bool)

  /** The struct literal a new Decoder starts from. */
  const DefaultConfig := Config(true, false)

  /** The option closures the package hands out: each assigns one switch. */
  datatype DecoderOption =
    | SetDisallowUnknownFields(disallow: bool)
    | SetSuggestClosest(suggest: bool)

  /** What running an option closure does to a Decoder's switches. */
  function ApplyOption(s: Config, opt: DecoderOption): Config {
    match opt
    case SetDisallowUnknownFields(b) => s.(disallowUnknownFields := b)
    case SetSuggestClosest(b) => s.(suggestClosest := b)
  }

  /** Running the options left to right. */
  function ApplyAll(s: Config, opts: seq<DecoderOption>): Config
    decreases |opts|
  {
    if opts == [] then s else ApplyOption(ApplyAll(s, opts[..|opts| - 1]), opts[|opts| - 1])
  }

  function WithDisallowUnknownFields(disallow: bool): (opt: DecoderOption)
    ensures forall s :: ApplyOption(s, opt) == Config(disallow, s.suggestClosest)
  {
    SetDisallowUnknownFields(disallow)
  }

  function WithSuggestClosest(suggest: bool): (opt: DecoderOption)
    ensures forall s :: ApplyOption(s, opt) == Config(s.disallowUnknownFields, suggest)
  {
    SetSuggestClosest(suggest)
  }

  class Decoder {
    var disallowUnknownFields: bool
    var suggestClosest: bool

    function Settings(): Config
      reads this
    {
      Config(disallowUnknownFields, suggestClosest)
    }

    /** The `&Decoder{...}` literal of NewDecoder. */
    constructor ()
      ensures Settings() == DefaultConfig
    {
      disallowUnknownFields := true;
      suggestClosest := false;
    }

    /** `opt(d)`: the closure assigns its switch in place. */
    method Apply(opt: DecoderOption)
      modifies this
      ensures Settings() == ApplyOption(old(Settings()), opt)
    {
      match opt
      case SetDisallowUnknownFields(b) => disallowUnknownFields := b;
      case SetSuggestClosest(b) => suggestClosest := b;
    }
  }

  method NewDecoder(opts: seq<DecoderOption>) returns (d: Decoder)
    ensures fresh(d)
    ensures d.Settings() == ApplyAll(DefaultConfig, opts)
  {
    d := new Decoder();
    for i := 0 to |opts|
      invariant d.Settings() == ApplyAll(DefaultConfig, opts[..i])
    {
      d.Apply(opts[i]);
      assert opts[..i + 1][..i] == opts[..i];
    }
    assert opts[..|opts|] == opts;
  }

  /** With no options a Decoder rejects unknown fields and suggests nothing. */
  lemma NoOptionsGiveDefaults()
    ensures ApplyAll(DefaultConfig, []) == Config(true, false)
  {
  }

  /** The last option that sets "disallow unknown fields" decides it. */
  lemma {:induction false} LastDisallowWins(s: Config, opts: seq<DecoderOption>, i: nat)
    requires i < |opts| && opts[i].SetDisallowUnknownFields?
    requires forall j :: i < j < |opts| ==> !opts[j].SetDisallowUnknownFields?
    ensures ApplyAll(s, opts).disallowUnknownFields == opts[i].disallow
    decreases |opts|
  {
    if i < |opts| - 1 {
      LastDisallowWins(s, opts[..|opts| - 1], i);
    }
  }

  /** With no option for it, "disallow unknown fields" keeps its starting value. */
  lemma {:induction false} DisallowUntouched(s: Config, opts: seq<DecoderOption>)
    requires forall j :: 0 <= j < |opts| ==> !opts[j].SetDisallowUnknownFields?
    ensures ApplyAll(s, opts).disallowUnknownFields == s.disallowUnknownFields
    decreases |opts|
  {
    if opts != [] {
      DisallowUntouched(s, opts[..|opts| - 1]);
    }
  }

  /** The last option that sets "suggest closest" decides it. */
  lemma {:induction false} LastSuggestWins(s: Config, opts: seq<DecoderOption>, i: nat)
    requires i < |opts| && opts[i].SetSuggestClosest?
    requires forall j :: i < j < |opts| ==> !opts[j].SetSuggestClosest?
    ensures ApplyAll(s, opts).suggestClosest == opts[i].suggest
    decreases |opts|
  {
    if i < |opts| - 1 {
      LastSuggestWins(s, opts[..|opts| - 1], i);
    }
  }

  /** With no option for it, "suggest closest" keeps its starting value. */
  lemma {:induction false} SuggestUntouched(s: Config, opts: seq<DecoderOption>)
    requires forall j :: 0 <= j < |opts| ==> !opts[j].SetSuggestClosest?
    ensures ApplyAll(s, opts).suggestClosest == s.suggestClosest
    decreases |opts|
  {
    if opts != [] {
      SuggestUntouched(s, opts[..|opts| - 1]);
    }
  }

  /** Options for different switches commute. */
  lemma OptionsCommute(s: Config, a: DecoderOption, b: DecoderOption)
    requires a.SetDisallowUnknownFields? != b.SetDisallowUnknownFields?
    ensures ApplyOption(ApplyOption(s, a), b) == ApplyOption(ApplyOption(s, b), a)
  {
  }
}

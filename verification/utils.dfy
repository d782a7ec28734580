/** The small helpers of ztc/utils.go: classification of API errors that must
    fail a call at once, the country-code prefix, conversion of untyped lists
    to strings, and reading a positive int from resource data. */
module Utils {
  import opened Results

  /** `sub` occurs in `s` starting at position `i`. */
  predicate OccursAt(sub: string, s: string, i: int)
  {
    0 <= i && i + |sub| <= |s| && s[i..i + |sub|] == sub
  }

  /** `sub` occurs in `s` at some position. */
  ghost predicate OccursIn(sub: string, s: string)
  {
    exists i :: OccursAt(sub, s, i)
  }

  /** strings.Contains, as a scan from the left. */
  function Contains(s: string, sub: string): (r: bool)
    ensures r <==> OccursIn(sub, s)
    decreases |s|
  {
    if |sub| > |s| then false
    else if s[..|sub|] == sub then
      assert OccursAt(sub, s, 0);
      true
    else
      var rest := Contains(s[1..], sub);
      assert OccursIn(sub, s) <==> OccursIn(sub, s[1..]) by {
        if OccursIn(sub, s) {
          var i :| OccursAt(sub, s, i);
          assert i > 0;
          assert s[1..][i - 1..i - 1 + |sub|] == sub;
          assert OccursAt(sub, s[1..], i - 1);
        }
        if OccursIn(sub, s[1..]) {
          var i :| OccursAt(sub, s[1..], i);
          assert s[i + 1..i + 1 + |sub|] == sub;
          assert OccursAt(sub, s, i + 1);
        }
      }
      rest
  }

  /** The API error codes that make a create or update fail immediately. */
  const FailFastCodes: seq<string> :=
    ["INVALID_INPUT_ARGUMENT", "TRIAL_EXPIRED", "EDIT_LOCK_NOT_AVAILABLE", "DUPLICATE_ITEM"]

  /** An error as the provider sees it: its text, and, when it is the SDK's
      structured error response, the message body of that response. */
  datatype Error = Error(text: string, body: Option<string>)

  /** The text the fallback looks for: `"code":"C"`. */
  function CodeNeedle(c: string): string
  {
    "\"code\":\"" + c + "\""
  }

  /** Some fail-fast code appears as `"code":"C"` in `text`. */
  function MentionsFailFastCode(text: string, codes: seq<string>): (r: bool)
    ensures r <==> exists i :: 0 <= i < |codes| && OccursIn(CodeNeedle(codes[i]), text)
  {
    if |codes| == 0 then false
    else Contains(text, CodeNeedle(codes[0])) || MentionsFailFastCode(text, codes[1..])
  }

  /** failFastOnErrorCodes. `codeOf` stands for the JSON extraction of the
      "code" field from a structured error body ("" when the body does not
      parse). The result is absent or is the very error passed in. */
  function FailFast(err: Option<Error>, codeOf: string -> string): (r: Option<Error>)
    ensures err.None? ==> r.None?
    ensures r.Some? ==> r == err
    ensures r.Some? <==>
              err.Some? &&
              ((err.value.body.Some? && codeOf(err.value.body.value) in FailFastCodes)
               || exists i :: 0 <= i < |FailFastCodes| && OccursIn(CodeNeedle(FailFastCodes[i]), err.value.text))
  {
    match err
    case None => None
    case Some(e) =>
      if e.body.Some? && codeOf(e.body.value) in FailFastCodes then err
      else if MentionsFailFastCode(e.text, FailFastCodes) then err
      else None
  }

  /** An unstructured error whose text carries one of the codes fails fast
      whatever the code extraction says. */
  lemma FallbackMatchFailsFast(text: string, c: string, codeOf: string -> string)
    requires c in FailFastCodes
    ensures FailFast(Some(Error(CodeNeedle(c), None)), codeOf) == Some(Error(CodeNeedle(c), None))
  {
    var i :| 0 <= i < |FailFastCodes| && FailFastCodes[i] == c;
    assert OccursAt(CodeNeedle(c), CodeNeedle(c), 0);
  }

  /** A structured error whose body code is outside the list, and whose text
      mentions no listed code, does not fail fast. */
  lemma OtherCodesDoNotFailFast(e: Error, codeOf: string -> string)
    requires e.body.Some? && codeOf(e.body.value) !in FailFastCodes
    requires forall c :: c in FailFastCodes ==> !Contains(e.text, CodeNeedle(c))
    ensures FailFast(Some(e), codeOf) == None
  {
  }

  /** The prefix the API uses for ISO alpha-2 country codes. */
  const CountryPrefix: string := "COUNTRY_"

  /** The country conversion of processCountries and of the forwarding rule's
      destination countries: a two-character entry other than ANY and NONE
      gets the prefix. */
  function ProcessCountry(c: string): string
  {
    if c != "ANY" && c != "NONE" && |c| == 2 then CountryPrefix + c else c
  }

  /** processCountries: converts each entry, keeping positions; exactly the
      two-character entries change, and they gain the prefix. */
  function ProcessCountries(cs: seq<string>): (r: seq<string>)
    ensures |r| == |cs|
    ensures forall i :: 0 <= i < |cs| ==> r[i] == ProcessCountry(cs[i])
    ensures forall i :: 0 <= i < |cs| ==> (r[i] != cs[i] <==> |cs[i]| == 2)
    ensures forall i :: 0 <= i < |cs| && |cs[i]| == 2 ==> r[i] == CountryPrefix + cs[i]
  {
    var r := seq(|cs|, i requires 0 <= i < |cs| => ProcessCountry(cs[i]));
    forall i | 0 <= i < |cs|
      ensures r[i] != cs[i] <==> |cs[i]| == 2
    {
      ProcessCountryChangesExactlyPairs(cs[i]);
    }
    r
  }

  /** strings.TrimPrefix(c, "COUNTRY_"), as the rule's read applies it. */
  function TrimCountryPrefix(c: string): (r: string)
    ensures |r| <= |c|
  {
    if |c| >= |CountryPrefix| && c[..|CountryPrefix|] == CountryPrefix then c[|CountryPrefix|..] else c
  }

  function TrimCountries(cs: seq<string>): (r: seq<string>)
    ensures |r| == |cs|
    ensures forall i :: 0 <= i < |cs| ==> r[i] == TrimCountryPrefix(cs[i])
  {
    seq(|cs|, i requires 0 <= i < |cs| => TrimCountryPrefix(cs[i]))
  }

  /** An entry is changed exactly when it has two characters; ANY and NONE
      are never two characters long, so their exclusion never matters. */
  lemma ProcessCountryChangesExactlyPairs(c: string)
    ensures ProcessCountry(c) != c <==> |c| == 2
    ensures |c| == 2 ==> ProcessCountry(c) == CountryPrefix + c
  {
    if |c| == 2 {
      assert |ProcessCountry(c)| == 10;
    }
  }

  /** Converting twice is converting once: a prefixed entry is ten
      characters long and is left alone. */
  lemma ProcessCountriesIdempotent(cs: seq<string>)
    ensures ProcessCountries(ProcessCountries(cs)) == ProcessCountries(cs)
  {
  }

  /** Reading back what was written restores the configured countries, as
      long as no configured entry itself starts with the prefix. */
  lemma TrimAfterProcess(cs: seq<string>)
    requires forall i :: 0 <= i < |cs| ==> !(|cs[i]| >= |CountryPrefix| && cs[i][..|CountryPrefix|] == CountryPrefix)
    ensures TrimCountries(ProcessCountries(cs)) == cs
  {
    forall i | 0 <= i < |cs| ensures TrimCountryPrefix(ProcessCountry(cs[i])) == cs[i] {
      if |cs[i]| == 2 && cs[i] != "ANY" && cs[i] != "NONE" {
        assert (CountryPrefix + cs[i])[..|CountryPrefix|] == CountryPrefix;
        assert (CountryPrefix + cs[i])[|CountryPrefix|..] == cs[i];
      }
    }
  }

  /** A configured entry that already carries the prefix is read back
      without it: the round trip fails for such entries. */
  lemma PrefixedEntryDoesNotRoundTrip()
    ensures TrimCountries(ProcessCountries(["COUNTRY_US"])) == ["US"]
  {
    assert ProcessCountry("COUNTRY_US") == "COUNTRY_US";
    assert "COUNTRY_US"[..|CountryPrefix|] == CountryPrefix;
    assert "COUNTRY_US"[|CountryPrefix|..] == "US";
  }

  /** An element of an untyped Go list: nil, a string, or any other value. */
  datatype Value = Nil | Str(s: string) | Other

  /** ListToStringSlice: nil and non-string elements become the empty string. */
  function ListToStringSlice(v: seq<Value>): (r: seq<string>)
    ensures |r| == |v|
    ensures forall i :: 0 <= i < |v| && v[i].Str? ==> r[i] == v[i].s
    ensures forall i :: 0 <= i < |v| && !v[i].Str? ==> r[i] == ""
  {
    if |v| == 0 then []
    else [if v[0].Str? then v[0].s else ""] + ListToStringSlice(v[1..])
  }

  function Strs(ss: seq<string>): (v: seq<Value>)
    ensures |v| == |ss|
    ensures forall i :: 0 <= i < |ss| ==> v[i] == Str(ss[i])
  {
    seq(|ss|, i requires 0 <= i < |ss| => Str(ss[i]))
  }

  /** An example of the conversion: a list holding only strings converts
      back to the same strings. */
  lemma ListOfStringsRoundTrip(ss: seq<string>)
    ensures ListToStringSlice(Strs(ss)) == ss
  {
  }

  /** A non-empty converted entry came from that very string. */
  lemma NonEmptyEntryIsString(v: seq<Value>, i: int)
    requires 0 <= i < |v| && ListToStringSlice(v)[i] != ""
    ensures v[i] == Str(ListToStringSlice(v)[i])
  {
  }

  /** The error the delete guards of the forwarding, DNS and log rule
      resources give for a predefined rule. */
  function CannotDelete(name: string): string
  {
    "predefined rule '" + name + "' cannot be deleted"
  }

  /** What d.GetOk finds under a key: whether it is set, and the raw value. */
  datatype Raw = RawInt(n: int) | RawOther

  datatype IntLookup = IntLookup(val: int, ok: bool)

  /** getIntFromResourceData: the int under the key (0 when the value is not
      an int), and whether it is set, an int and positive. */
  function GetIntFromResourceData(isSet: bool, raw: Raw): (r: IntLookup)
    ensures r.ok <==> isSet && raw.RawInt? && raw.n > 0
    ensures r.ok ==> r.val > 0
    ensures raw.RawInt? ==> r.val == raw.n
    ensures raw.RawOther? ==> r.val == 0
  {
    match raw
    case RawInt(n) => IntLookup(n, isSet && n > 0)
    case RawOther => IntLookup(0, false)
  }
}

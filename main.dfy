/**
 * The "Hello Country" service of app/main.py: the resolution of the
 * COUNTRY_CODE setting into a canonical country code, and the single GET `/`
 * handler that looks that code up in the greeting table.
 *
 * The environment read becomes the `setting` parameter (None when the
 * variable is unset) and the module-level greeting table becomes the
 * `greetings` parameter, a map the handler only reads.
 */
module HelloCountry {
  import opened Wrappers
  import opened AsciiText

  /** The code used when the setting is unset or blank. */
  const DefaultCountryCode: string := "EN"

  /** The fallback is the code "EN", itself already in canonical form. */
  lemma DefaultCountryCodeCanonical()
    ensures DefaultCountryCode == "EN" && IsCanonical(DefaultCountryCode)
    ensures CountryCode(None) == DefaultCountryCode
  {
  }

  const StatusOk: int := 200
  const StatusNotFound: int := 404

  /** A code as the resolver hands it out: non-empty, no surrounding
      whitespace, no lower-case letter. */
  predicate IsCanonical(code: string) {
    code != [] && Trimmed(code) && NoLower(code)
  }

  /** `strip().upper()` on the setting's value. */
  function Normalize(s: string): (r: string)
    ensures Trimmed(r) && NoLower(r)
    ensures r == [] <==> AllSpace(s)
    ensures exists k :: PaddedBy(s, Strip(s), k) && r == Upper(Strip(s))
  {
    UpperTrimmed(Strip(s));
    Upper(Strip(s))
  }

  /** The interior of the setting survives normalisation in order, each
      character only case-mapped: surrounding whitespace is all that goes. */
  lemma NormalizePadded(pre: string, mid: string, post: string)
    requires AllSpace(pre) && AllSpace(post) && Trimmed(mid)
    ensures Normalize(pre + mid + post) == Upper(mid)
  {
    StripPadded(pre, mid, post);
  }

  /** A string already trimmed and upper-cased normalises to itself. */
  lemma NormalizeFixesNormalized(s: string)
    requires Trimmed(s) && NoLower(s)
    ensures Normalize(s) == s
  {
    StripTrimmed(s);
    UpperNoLower(s);
  }

  /** Normalising twice is normalising once. */
  lemma NormalizeIdempotent(s: string)
    ensures Normalize(Normalize(s)) == Normalize(s)
  {
    NormalizeFixesNormalized(Normalize(s));
  }

  /** `_country_code`: the setting (or "EN" when it is unset), stripped and
      upper-cased, and "EN" again when nothing is left. */
  function CountryCode(setting: Option<string>): (code: string)
    ensures IsCanonical(code)
    ensures setting.None? ==> code == DefaultCountryCode
    ensures setting.Some? && AllSpace(setting.value) ==> code == DefaultCountryCode
    ensures setting.Some? && !AllSpace(setting.value) ==> code == Normalize(setting.value)
  {
    NormalizeFixesNormalized(DefaultCountryCode);
    var code := Normalize(setting.GetOr(DefaultCountryCode));
    if code == [] then DefaultCountryCode else code
  }

  /** Feeding a resolved code back in as the setting resolves to that code. */
  lemma CountryCodeIdempotent(setting: Option<string>)
    ensures CountryCode(Some(CountryCode(setting))) == CountryCode(setting)
  {
    var code := CountryCode(setting);
    NormalizeFixesNormalized(code);
  }

  /** Resolution is stable under re-normalisation of the setting. */
  lemma CountryCodeOfNormalized(s: string)
    ensures CountryCode(Some(Normalize(s))) == CountryCode(Some(s))
  {
    NormalizeIdempotent(s);
  }

  /** A blank setting behaves exactly like an unset one. */
  lemma BlankSettingIsUnset(s: string)
    requires AllSpace(s)
    ensures CountryCode(Some(s)) == CountryCode(None) == DefaultCountryCode
  {
  }

  /** The two response bodies of the handler. */
  datatype Response = Ok(code: string, message: string) | NotFound(error: string) {
    /** The HTTP status the response is sent with. */
    function Status(): (status: int)
      ensures Ok? <==> status == StatusOk
      ensures NotFound? <==> status == StatusNotFound
    {
      if Ok? then StatusOk else StatusNotFound
    }
  }

  const ErrorPrefix: string := "Unknown country code '"
  const ErrorSuffix: string := "'"

  /** The 404 error text: the code between single quotes. */
  function UnknownCodeError(code: string): (msg: string)
    ensures |msg| == |ErrorPrefix| + |code| + |ErrorSuffix|
    ensures msg[..|ErrorPrefix|] == ErrorPrefix && msg[|msg| - 1] == '\''
    ensures msg[|ErrorPrefix|..|msg| - 1] == code
  {
    ErrorPrefix + code + ErrorSuffix
  }

  /** Reads the code back out of a 404 error text, if the text has that shape. */
  function ErrorCode(msg: string): (code: Option<string>)
    ensures code.Some? ==> |code.value| + |ErrorPrefix| + |ErrorSuffix| == |msg|
  {
    var n := |ErrorPrefix|;
    if |msg| >= n + 1 && msg[..n] == ErrorPrefix && msg[|msg| - 1..] == ErrorSuffix
    then Some(msg[n..|msg| - 1])
    else None
  }

  /** The error text carries the exact code: reading it back gives it. */
  lemma ErrorCodeRoundTrip(code: string)
    ensures ErrorCode(UnknownCodeError(code)) == Some(code)
  {
    var msg := UnknownCodeError(code);
    var n := |ErrorPrefix|;
    assert msg[..n] == ErrorPrefix;
    assert msg[|msg| - 1..] == ErrorSuffix;
    assert msg[n..|msg| - 1] == code;
  }

  /** `read_root`: resolve the code and look it up in the greeting table. */
  function ReadRoot(setting: Option<string>, greetings: map<string, string>): (r: Response)
    ensures var code := CountryCode(setting);
      && (r.Ok? <==> code in greetings)
      && (r.Ok? ==> r.code == code && r.message == greetings[code])
      && (r.NotFound? ==> r.error == UnknownCodeError(code))
    ensures r.Ok? ==> r.message in greetings.Values && IsCanonical(r.code)
    ensures r.NotFound? ==> ErrorCode(r.error) == Some(CountryCode(setting))
    ensures r.Status() == if CountryCode(setting) in greetings then StatusOk else StatusNotFound
  {
    var code := CountryCode(setting);
    if code in greetings then
      Ok(code, greetings[code])
    else
      ErrorCodeRoundTrip(code);
      NotFound(UnknownCodeError(code))
  }

  /** Two settings that resolve to the same code get the same response. */
  lemma ReadRootDependsOnlyOnCode(s1: Option<string>, s2: Option<string>, greetings: map<string, string>)
    requires CountryCode(s1) == CountryCode(s2)
    ensures ReadRoot(s1, greetings) == ReadRoot(s2, greetings)
  {
  }

  /** Every canonical key of the table is served: setting COUNTRY_CODE to
      the key itself yields 200 with that key's greeting. */
  lemma CanonicalKeyServed(k: string, greetings: map<string, string>)
    requires k in greetings && IsCanonical(k)
    ensures ReadRoot(Some(k), greetings) == Ok(k, greetings[k])
  {
    NormalizeFixesNormalized(k);
  }

  /** A key with a lower-case letter or surrounding whitespace is never
      served, whatever the setting. */
  lemma NonCanonicalKeyUnserved(k: string, setting: Option<string>, greetings: map<string, string>)
    requires !IsCanonical(k)
    ensures ReadRoot(setting, greetings).Ok? ==> ReadRoot(setting, greetings).code != k
  {
  }

  /** The greeting table of the worked examples below. */
  const SampleGreetings: map<string, string> := map["EN" := "Hello!", "FR" := "Bonjour!"]

  /** COUNTRY_CODE=fr: the code is upper-cased and found. */
  lemma ExampleLowerCaseFound()
    ensures ReadRoot(Some("fr"), SampleGreetings) == Ok("FR", "Bonjour!")
  {
    NormalizePadded([], "fr", []);
    assert [] + "fr" + [] == "fr";
    assert Upper("fr") == "FR";
  }

  /** COUNTRY_CODE=zz: the upper-cased code is not in the table. */
  lemma ExampleUnknown()
    ensures ReadRoot(Some("zz"), SampleGreetings) == NotFound("Unknown country code 'ZZ'")
  {
    ResolvesZz();
    ZzNotInSample();
    UnknownZzText();
  }

  /** The setting `zz` resolves to `ZZ`. */
  lemma ResolvesZz()
    ensures CountryCode(Some("zz")) == "ZZ"
  {
    NormalizePadded([], "zz", []);
    assert [] + "zz" + [] == "zz";
    assert Upper("zz") == "ZZ";
  }

  /** `ZZ` is not a key of the sample table. */
  lemma ZzNotInSample()
    ensures "ZZ" !in SampleGreetings
  {
    assert SampleGreetings.Keys == {"EN", "FR"};
    assert "ZZ" != "EN" by { assert "ZZ"[0] != "EN"[0]; }
    assert "ZZ" != "FR" by { assert "ZZ"[0] != "FR"[0]; }
  }

  /** The 404 text for `ZZ`, spelled out. */
  lemma UnknownZzText()
    ensures UnknownCodeError("ZZ") == "Unknown country code 'ZZ'"
  {
    var msg := UnknownCodeError("ZZ");
    forall i | 0 <= i < |msg| ensures msg[i] == "Unknown country code 'ZZ'"[i] {}
  }

  /** COUNTRY_CODE unset, or set to blanks: the default code "EN". */
  lemma ExampleDefault()
    ensures ReadRoot(None, SampleGreetings) == Ok("EN", "Hello!")
    ensures ReadRoot(Some("   "), SampleGreetings) == Ok("EN", "Hello!")
  {
    assert AllSpace("   ");
  }
}

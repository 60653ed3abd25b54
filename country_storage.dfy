/**
 * The persisted country preference (`countryStorage`) and the detection of a country
 * from the browser locale. The storage entries, the navigator's language settings and
 * the list of supported country codes are inputs; a read or write that throws is an
 * input flag.
 */
module CountryStorage {
  import opened Wrappers
  import JsText

  const StorageKey := "memory-phonenumbers-country"
  const FallbackCountry := "US"

  // ----- String.prototype.split with a one-character separator -----

  function Split(s: string, sep: char): (parts: seq<string>)
    ensures |parts| >= 1
    ensures forall i :: 0 <= i < |parts| ==> sep !in parts[i]
  {
    if s == [] then [""]
    else
      var rest := Split(s[1..], sep);
      if s[0] == sep then [""] + rest else [[s[0]] + rest[0]] + rest[1..]
  }

  /** `parts.join(sep)`, the inverse of `Split`. */
  function Join(parts: seq<string>, sep: char): string
    requires |parts| >= 1
  {
    if |parts| == 1 then parts[0] else parts[0] + [sep] + Join(parts[1..], sep)
  }

  lemma {:induction false} SplitJoin(s: string, sep: char)
    ensures Join(Split(s, sep), sep) == s
  {
    if s != [] {
      SplitJoin(s[1..], sep);
      var rest := Split(s[1..], sep);
      if s[0] != sep && |rest| > 1 {
        assert ([[s[0]] + rest[0]] + rest[1..])[1..] == rest[1..];
      }
    }
  }

  /** There are at least two parts exactly when the separator occurs. */
  lemma {:induction false} SplitHasParts(s: string, sep: char)
    ensures |Split(s, sep)| >= 2 <==> sep in s
  {
    if s != [] {
      SplitHasParts(s[1..], sep);
      assert s == [s[0]] + s[1..];
    }
  }

  /** With two or more parts, the last part is what follows the last separator. */
  lemma {:induction false} SplitLast(s: string, sep: char)
    requires |Split(s, sep)| >= 2
    ensures var parts := Split(s, sep); var last := parts[|parts| - 1];
      && |last| < |s| && s[|s| - |last| - 1] == sep && s[|s| - |last|..] == last
  {
    var rest := Split(s[1..], sep);
    if |rest| >= 2 {
      SplitLast(s[1..], sep);
    } else {
      assert s[0] == sep;
      SplitHasParts(s[1..], sep);
      SplitJoin(s[1..], sep);
    }
  }

  // ----- detectCountryFromBrowser -----

  /** `navigator.language` (the empty string when unset) and `navigator.languages`. */
  datatype Navigator = Navigator(language: string, languages: Option<seq<string>>)

  /** `navigator.language || navigator.languages?.[0]`, when it is a non-empty string. */
  function Locale(nav: Navigator): (r: Option<string>)
    ensures r.Some? ==> r.value != []
    ensures nav.language != [] ==> r == Some(nav.language)
    ensures nav.language == [] ==>
              r == if nav.languages.Some? && |nav.languages.value| > 0 && nav.languages.value[0] != []
                   then Some(nav.languages.value[0]) else None
  {
    if nav.language != [] then Some(nav.language)
    else if nav.languages.Some? && |nav.languages.value| > 0 && nav.languages.value[0] != [] then
      Some(nav.languages.value[0])
    else None
  }

  /** The upper-cased last `-`-separated part of a locale with at least two parts. */
  function LocaleRegion(locale: string): (r: Option<string>)
    ensures r.Some? <==> '-' in locale
  {
    SplitHasParts(locale, '-');
    var parts := Split(locale, '-');
    if |parts| >= 2 then Some(JsText.ToUpperCase(parts[|parts| - 1])) else None
  }

  /** `detectCountryFromBrowser`. */
  function DetectCountry(nav: Navigator, validCountries: seq<string>): (r: string)
    ensures r == FallbackCountry || r in validCountries
    ensures Locale(nav).None? ==> r == FallbackCountry
    ensures Locale(nav).Some? && '-' !in Locale(nav).value ==> r == FallbackCountry
    ensures Locale(nav).Some? && '-' in Locale(nav).value ==>
              var region := LocaleRegion(Locale(nav).value).value;
              r == if region in validCountries then region else FallbackCountry
  {
    match Locale(nav)
    case None => FallbackCountry
    case Some(locale) =>
      SplitHasParts(locale, '-');
      match LocaleRegion(locale)
      case None => FallbackCountry
      case Some(code) => if code in validCountries then code else FallbackCountry
  }

  /** The region is the upper-cased text after the locale's last `-`. */
  lemma LocaleRegionIsSuffix(locale: string)
    requires '-' in locale
    ensures var region := LocaleRegion(locale).value;
      && |region| < |locale| && locale[|locale| - |region| - 1] == '-'
      && '-' !in locale[|locale| - |region|..]
      && region == JsText.ToUpperCase(locale[|locale| - |region|..])
  {
    SplitHasParts(locale, '-');
    SplitLast(locale, '-');
  }

  /** A string without the separator is one part. */
  lemma {:induction false} SplitNoSeparator(s: string, sep: char)
    requires sep !in s
    ensures Split(s, sep) == [s]
  {
    if s != [] {
      SplitNoSeparator(s[1..], sep);
      assert [s[0]] + s[1..] == s;
    }
  }

  /** Text up to the first separator is the first part; the rest is split on. */
  lemma {:induction false} SplitAtSeparator(a: string, b: string, sep: char)
    requires sep !in a
    ensures Split(a + [sep] + b, sep) == [a] + Split(b, sep)
  {
    if a == [] {
      assert a + [sep] + b == [sep] + b;
      assert ([sep] + b)[1..] == b;
    } else {
      assert (a + [sep] + b)[0] == a[0];
      assert (a + [sep] + b)[1..] == a[1..] + [sep] + b;
      SplitAtSeparator(a[1..], b, sep);
      assert [a[0]] + a[1..] == a;
    }
  }

  lemma DetectEnUs(valid: seq<string>)
    requires "US" in valid
    ensures DetectCountry(Navigator("en-US", None), valid) == "US"
  {
    assert "en-US" == "en" + ['-'] + "US";
    SplitAtSeparator("en", "US", '-');
    SplitNoSeparator("US", '-');
    assert JsText.ToUpperCase("US") == "US";
  }

  /** The region part is upper-cased before the lookup, and `languages[0]` is used
      when `language` is empty. */
  lemma DetectLowerCaseRegion(valid: seq<string>)
    requires "FR" in valid
    ensures DetectCountry(Navigator("", Some(["fr-fr"])), valid) == "FR"
  {
    assert "fr-fr" == "fr" + ['-'] + "fr";
    SplitAtSeparator("fr", "fr", '-');
    SplitNoSeparator("fr", '-');
    assert JsText.ToUpperCase("fr") == "FR";
  }

  /** The last part is taken, not the second. */
  lemma DetectLastPart(valid: seq<string>)
    requires "TW" in valid
    ensures DetectCountry(Navigator("zh-Hant-TW", None), valid) == "TW"
  {
    assert "zh-Hant-TW" == "zh" + ['-'] + ("Hant" + ['-'] + "TW");
    SplitAtSeparator("zh", "Hant" + ['-'] + "TW", '-');
    SplitAtSeparator("Hant", "TW", '-');
    SplitNoSeparator("TW", '-');
    assert JsText.ToUpperCase("TW") == "TW";
  }

  /** A locale without a region falls back. */
  lemma DetectLanguageOnly(valid: seq<string>)
    ensures DetectCountry(Navigator("fr", None), valid) == "US"
  {
  }

  // ----- getCountry / setCountry -----

  class CountryStore {
    var items: map<string, string>

    constructor (items: map<string, string>)
      ensures this.items == items
    {
      this.items := items;
    }

    /** `getCountry`: a non-empty stored value as it is (not checked against the
        country list); otherwise, or when reading throws, the detected country. */
    function GetCountry(readFails: bool, nav: Navigator, validCountries: seq<string>): (r: string)
      reads this
      ensures !readFails && StorageKey in items && items[StorageKey] != [] ==> r == items[StorageKey]
      ensures readFails || StorageKey !in items || items[StorageKey] == [] ==>
                r == DetectCountry(nav, validCountries)
    {
      if !readFails && StorageKey in items && items[StorageKey] != [] then items[StorageKey]
      else DetectCountry(nav, validCountries)
    }

    /** `setCountry`: writes the code under the country key; a write that throws is
        swallowed and changes nothing. */
    method SetCountry(code: string, writeFails: bool)
      modifies this
      ensures items == if writeFails then old(items) else old(items)[StorageKey := code]
      ensures !writeFails && code != [] ==>
                forall nav: Navigator, valid: seq<string> :: GetCountry(false, nav, valid) == code
    {
      if !writeFails {
        items := items[StorageKey := code];
      }
    }
  }
}

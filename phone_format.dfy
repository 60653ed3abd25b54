/**
 * Display helpers (`phoneFormat`): the flag emoji of a country code, the sorted
 * country list, and the national/international choice when formatting a number.
 * The phone-number parser, the display names and the collation are parameters.
 */
module PhoneFormat {
  import opened Wrappers
  import JsText

  // ----- countryCodeToFlag -----

  /** Offset from an ASCII capital to its regional indicator symbol (0x1F1E6 - 'A'). */
  const RegionalOffset := 127397

  /** `String.fromCodePoint(...units.map(u => 127397 + u))`. */
  function ShiftedCodePoints(units: seq<int>): (r: string)
    requires forall i :: 0 <= i < |units| ==> 0 <= units[i] < 0x10000
    ensures |r| == |units|
    ensures forall i :: 0 <= i < |units| ==> r[i] as int == RegionalOffset + units[i]
  {
    if units == [] then [] else [(RegionalOffset + units[0]) as char] + ShiftedCodePoints(units[1..])
  }

  /** `countryCodeToFlag`. */
  function CountryCodeToFlag(countryCode: string): (flag: string)
    ensures |flag| == |JsText.Utf16(JsText.ToUpperCase(countryCode))|
  {
    ShiftedCodePoints(JsText.Utf16(JsText.ToUpperCase(countryCode)))
  }

  /** For code units of the basic plane the flag has one code point per character,
      127397 above the upper-cased character. */
  lemma FlagCodePoints(countryCode: string)
    requires JsText.IsBmp(countryCode)
    ensures |CountryCodeToFlag(countryCode)| == |countryCode|
    ensures forall i :: 0 <= i < |countryCode| ==>
              CountryCodeToFlag(countryCode)[i] as int == RegionalOffset + JsText.UpperChar(countryCode[i]) as int
  {
    var u := JsText.ToUpperCase(countryCode);
    assert JsText.IsBmp(u);
    JsText.Utf16OfBmp(u);
  }

  /** Letters A to Z become the regional indicator symbols U+1F1E6 to U+1F1FF, and
      lower-case letters give the same flag as upper-case ones. */
  lemma FlagOfLetters(countryCode: string)
    requires forall i :: 0 <= i < |countryCode| ==>
               ('A' <= countryCode[i] <= 'Z') || ('a' <= countryCode[i] <= 'z')
    ensures |CountryCodeToFlag(countryCode)| == |countryCode|
    ensures forall i :: 0 <= i < |countryCode| ==>
              0x1F1E6 <= CountryCodeToFlag(countryCode)[i] as int <= 0x1F1FF
    ensures CountryCodeToFlag(countryCode) == CountryCodeToFlag(JsText.ToUpperCase(countryCode))
  {
    FlagCodePoints(countryCode);
    JsText.ToUpperCaseIdempotent(countryCode);
  }

  lemma FlagOfFrance()
    ensures CountryCodeToFlag("FR") == "\U{1F1EB}\U{1F1F7}"
    ensures CountryCodeToFlag("fr") == "\U{1F1EB}\U{1F1F7}"
  {
    FlagCodePoints("FR");
    FlagCodePoints("fr");
  }

  /** Reading the flag back: subtracting the offset gives the upper-cased code. */
  function FlagToCode(flag: string): (code: seq<int>)
    ensures |code| == |flag|
  {
    if flag == [] then [] else [flag[0] as int - RegionalOffset] + FlagToCode(flag[1..])
  }

  lemma {:induction false} FlagToCodeAt(flag: string, i: nat)
    requires i < |flag|
    ensures FlagToCode(flag)[i] == flag[i] as int - RegionalOffset
  {
    if i > 0 {
      FlagToCodeAt(flag[1..], i - 1);
    }
  }

  lemma FlagRoundTrip(countryCode: string)
    ensures FlagToCode(CountryCodeToFlag(countryCode)) == JsText.Utf16(JsText.ToUpperCase(countryCode))
  {
    var flag := CountryCodeToFlag(countryCode);
    forall i | 0 <= i < |flag|
      ensures FlagToCode(flag)[i] == JsText.Utf16(JsText.ToUpperCase(countryCode))[i]
    {
      FlagToCodeAt(flag, i);
    }
  }

  // ----- getCountryList -----

  datatype CountryInfo = CountryInfo(code: string, name: string, flag: string)

  /** The list entry for one code: `displayNames.of(code) ?? code`, and its flag. */
  function Entry(code: string, displayName: string -> Option<string>): (e: CountryInfo)
    ensures e.code == code && e.flag == CountryCodeToFlag(code)
    ensures e.name == (if displayName(code).Some? then displayName(code).value else code)
  {
    CountryInfo(code, match displayName(code) case Some(n) => n case None => code,
                CountryCodeToFlag(code))
  }

  function Entries(codes: seq<string>, displayName: string -> Option<string>): (r: seq<CountryInfo>)
    ensures |r| == |codes|
    ensures forall i :: 0 <= i < |codes| ==> r[i] == Entry(codes[i], displayName)
  {
    if codes == [] then [] else [Entry(codes[0], displayName)] + Entries(codes[1..], displayName)
  }

  /** Inserts `x` after every entry that does not sort after it (stable). */
  function Insert(x: CountryInfo, s: seq<CountryInfo>, compare: (string, string) -> int): (r: seq<CountryInfo>)
    ensures multiset(r) == multiset(s) + multiset{x}
  {
    if s == [] then [x]
    else if compare(x.name, s[0].name) < 0 then [x] + s
    else
      assert s == [s[0]] + s[1..];
      [s[0]] + Insert(x, s[1..], compare)
  }

  /** `sort((a, b) => compare(a.name, b.name))`, stable. */
  function SortByName(s: seq<CountryInfo>, compare: (string, string) -> int): (r: seq<CountryInfo>)
    ensures multiset(r) == multiset(s)
  {
    if s == [] then []
    else
      assert s == s[..|s| - 1] + [s[|s| - 1]];
      Insert(s[|s| - 1], SortByName(s[..|s| - 1], compare), compare)
  }

  /** `getCountryList` over the supported codes, display names and collation. */
  function GetCountryList(codes: seq<string>, displayName: string -> Option<string>,
                          compare: (string, string) -> int): (r: seq<CountryInfo>)
    ensures multiset(r) == multiset(Entries(codes, displayName))
    ensures |r| == |codes|
  {
    assert |multiset(Entries(codes, displayName))| == |codes|;
    SortByName(Entries(codes, displayName), compare)
  }

  /** `compare(a, b) < 0` exactly when `compare(b, a) > 0`, as `localeCompare` promises. */
  ghost predicate SignSymmetric(compare: (string, string) -> int)
  {
    forall a, b :: compare(a, b) < 0 <==> compare(b, a) > 0
  }

  predicate SortedByName(s: seq<CountryInfo>, compare: (string, string) -> int)
  {
    forall i :: 0 <= i < |s| - 1 ==> compare(s[i].name, s[i + 1].name) <= 0
  }

  lemma {:induction false} InsertSorted(x: CountryInfo, s: seq<CountryInfo>, compare: (string, string) -> int)
    requires SignSymmetric(compare) && SortedByName(s, compare)
    ensures SortedByName(Insert(x, s, compare), compare)
    ensures |Insert(x, s, compare)| == |s| + 1
    ensures Insert(x, s, compare)[0] == x || (s != [] && Insert(x, s, compare)[0] == s[0])
  {
    if s != [] && compare(x.name, s[0].name) >= 0 {
      InsertSorted(x, s[1..], compare);
      assert compare(s[0].name, x.name) <= 0;
    }
  }

  lemma {:induction false} SortByNameSorted(s: seq<CountryInfo>, compare: (string, string) -> int)
    requires SignSymmetric(compare)
    ensures SortedByName(SortByName(s, compare), compare)
  {
    if s != [] {
      SortByNameSorted(s[..|s| - 1], compare);
      InsertSorted(s[|s| - 1], SortByName(s[..|s| - 1], compare), compare);
    }
  }

  /** The entries are those of the codes, one per code. */
  lemma {:induction false} EntriesMembers(codes: seq<string>, displayName: string -> Option<string>, e: CountryInfo)
    ensures e in Entries(codes, displayName) <==> exists i :: 0 <= i < |codes| && e == Entry(codes[i], displayName)
  {
    var es := Entries(codes, displayName);
    if e in es {
      var i :| 0 <= i < |es| && es[i] == e;
      assert e == Entry(codes[i], displayName);
    }
  }

  /** The list holds one entry per code, each with its name (falling back to the code)
      and its flag, ordered by name under a sign-symmetric collation. */
  lemma CountryListSpec(codes: seq<string>, displayName: string -> Option<string>,
                        compare: (string, string) -> int, e: CountryInfo)
    requires SignSymmetric(compare)
    ensures |GetCountryList(codes, displayName, compare)| == |codes|
    ensures SortedByName(GetCountryList(codes, displayName, compare), compare)
    ensures e in GetCountryList(codes, displayName, compare) <==>
              exists i :: 0 <= i < |codes| && e == Entry(codes[i], displayName)
  {
    var r := GetCountryList(codes, displayName, compare);
    var es := Entries(codes, displayName);
    SortByNameSorted(es, compare);
    assert e in r <==> e in multiset(r);
    assert e in es <==> e in multiset(es);
    EntriesMembers(codes, displayName, e);
  }

  // ----- formatPhoneNumber -----

  /** A number as the parser returns it: its country if it has one, and its two
      renderings. */
  datatype PhoneNumber = PhoneNumber(country: Option<string>, national: string, international: string)

  datatype ParseOutcome = Parsed(phone: PhoneNumber) | NoNumber | Threw

  /** `formatPhoneNumber` over the parser `parse(number, selectedCountry)`. */
  function FormatPhoneNumber(number: string, selectedCountry: string,
                             parse: (string, string) -> ParseOutcome): (r: string)
    ensures number == [] ==> r == []
    ensures number != [] && !parse(number, selectedCountry).Parsed? ==> r == number
    ensures number != [] && parse(number, selectedCountry).Parsed? ==>
              var p := parse(number, selectedCountry).phone;
              r == if p.country == Some(selectedCountry) then p.national else p.international
  {
    if number == [] then []
    else
      match parse(number, selectedCountry)
      case Parsed(p) => if p.country == Some(selectedCountry) then p.national else p.international
      case NoNumber => number
      case Threw => number
  }
}

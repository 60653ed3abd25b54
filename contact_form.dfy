/**
 * The add/edit form (`ContactForm`): the phone-number sanitiser applied to every
 * change and paste, and the trim-and-non-empty gate in front of `onSave`.
 */
module ContactForm {
  import opened Wrappers
  import opened JsText

  /** `s.replace(/[^\d+]/g, "")`: keeps digits and every `+`. */
  function DigitsAndPlus(s: string): (r: string)
    ensures |r| <= |s|
    ensures forall k :: 0 <= k < |r| ==> IsDigit(r[k]) || r[k] == '+'
  {
    if s == [] then []
    else (if IsDigit(s[0]) || s[0] == '+' then [s[0]] else []) + DigitsAndPlus(s[1..])
  }

  /** `s.replace(/[^\d]/g, "")`: keeps the digits only. */
  function Digits(s: string): (r: string)
    ensures |r| <= |s|
    ensures forall k :: 0 <= k < |r| ==> IsDigit(r[k])
  {
    if s == [] then []
    else (if IsDigit(s[0]) then [s[0]] else []) + Digits(s[1..])
  }

  /** `sanitizePhoneNumber`: digits, with a `+` kept only in front. */
  function Sanitize(value: string): (r: string)
    ensures forall k :: 0 <= k < |r| ==> IsDigit(r[k]) || r[k] == '+'
    ensures forall k :: 0 < k < |r| ==> r[k] != '+'
  {
    var cleaned := DigitsAndPlus(value);
    if |cleaned| > 0 && cleaned[0] == '+' then "+" + Digits(cleaned[1..])
    else Digits(cleaned)
  }

  /** The first character of `s` that is a digit or `+`, if any. */
  function FirstDialChar(s: string): Option<char>
  {
    if s == [] then None
    else if IsDigit(s[0]) || s[0] == '+' then Some(s[0])
    else FirstDialChar(s[1..])
  }

  lemma {:induction false} FirstOfDigitsAndPlus(s: string)
    ensures DigitsAndPlus(s) == [] <==> FirstDialChar(s) == None
    ensures DigitsAndPlus(s) != [] ==> FirstDialChar(s) == Some(DigitsAndPlus(s)[0])
  {
    if s != [] {
      FirstOfDigitsAndPlus(s[1..]);
    }
  }

  lemma {:induction false} DigitsAppend(a: string, b: string)
    ensures Digits(a + b) == Digits(a) + Digits(b)
  {
    if a == [] {
      assert a + b == b;
    } else {
      assert (a + b)[0] == a[0] && (a + b)[1..] == a[1..] + b;
      DigitsAppend(a[1..], b);
    }
  }

  lemma {:induction false} DigitsOfDigitsAndPlus(s: string)
    ensures Digits(DigitsAndPlus(s)) == Digits(s)
  {
    if s != [] {
      DigitsOfDigitsAndPlus(s[1..]);
      var head := if IsDigit(s[0]) || s[0] == '+' then [s[0]] else [];
      DigitsAppend(head, DigitsAndPlus(s[1..]));
    }
  }

  lemma {:induction false} DigitsKeepsDigits(s: string)
    requires forall k :: 0 <= k < |s| ==> IsDigit(s[k])
    ensures Digits(s) == s
  {
    if s != [] {
      DigitsKeepsDigits(s[1..]);
    }
  }

  /** The sanitised number starts with `+` exactly when the first digit-or-plus
      character of the input is a `+`. */
  lemma SanitizeLeadingPlus(value: string)
    ensures (|Sanitize(value)| > 0 && Sanitize(value)[0] == '+') <==> FirstDialChar(value) == Some('+')
  {
    FirstOfDigitsAndPlus(value);
  }

  /** The digits of the sanitised number are those of the input, in order. */
  lemma SanitizeKeepsDigits(value: string)
    ensures Digits(Sanitize(value)) == Digits(value)
  {
    var cleaned := DigitsAndPlus(value);
    DigitsOfDigitsAndPlus(value);
    if |cleaned| > 0 && cleaned[0] == '+' {
      assert cleaned == [cleaned[0]] + cleaned[1..];
      DigitsAppend([cleaned[0]], cleaned[1..]);
      DigitsAppend("+", Digits(cleaned[1..]));
      DigitsKeepsDigits(Digits(cleaned[1..]));
    } else {
      DigitsKeepsDigits(Digits(cleaned));
    }
  }

  lemma {:induction false} DigitsAndPlusKeeps(s: string)
    requires forall k :: 0 <= k < |s| ==> IsDigit(s[k]) || s[k] == '+'
    ensures DigitsAndPlus(s) == s
  {
    if s != [] {
      DigitsAndPlusKeeps(s[1..]);
    }
  }

  /** Sanitising an already sanitised number changes nothing. */
  lemma SanitizeIdempotent(value: string)
    ensures Sanitize(Sanitize(value)) == Sanitize(value)
  {
    var r := Sanitize(value);
    DigitsAndPlusKeeps(r);
    if |r| > 0 && r[0] == '+' {
      DigitsKeepsDigits(r[1..]);
      assert r == "+" + r[1..];
    } else {
      DigitsKeepsDigits(r);
    }
  }

  /** What `onSave` receives. */
  datatype FormData = FormData(name: string, number: string)

  /** Some character of `s` is not white space. */
  predicate HasVisible(s: string)
  {
    exists k :: 0 <= k < |s| && !IsWhiteSpace(s[k])
  }

  /** `isValid`, which enables the Save button. */
  function IsValid(name: string, number: string): (r: bool)
    ensures r <==> HasVisible(name) && HasVisible(number)
  {
    |Trim(name)| > 0 && |Trim(number)| > 0
  }

  /** `handleSubmit`: the data `onSave` is called with, or `None` when it is not called. */
  function HandleSubmit(name: string, number: string): (r: Option<FormData>)
    ensures r.Some? <==> IsValid(name, number)
    ensures r.Some? ==> r.value == FormData(Trim(name), Trim(number))
    ensures r.Some? ==> r.value.name != [] && r.value.number != []
    ensures r.Some? ==> !IsWhiteSpace(r.value.name[0]) && !IsWhiteSpace(r.value.number[0])
  {
    if |Trim(name)| > 0 && |Trim(number)| > 0 then Some(FormData(Trim(name), Trim(number)))
    else None
  }
}

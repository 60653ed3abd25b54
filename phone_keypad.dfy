/**
 * The on-screen keypad (`PhoneKeypad`): the edit a key applies to the current value,
 * the mapping from physical keyboard keys to keypad keys, and the `activeKey`
 * highlight that keydown sets and keyup clears.
 */
module PhoneKeypad {
  import opened Wrappers
  import JsText

  /** The erase key, U+232B. */
  const Erase := "\U{232B}"

  /** The twelve keys, row by row. */
  const Keys: seq<string> := ["1", "2", "3", "4", "5", "6", "7", "8", "9", "+", "0", Erase]

  /** `value.slice(0, -1)` for the erase key, read as dropping the last character, and
      `value + key` otherwise. */
  function Edit(value: string, key: string): (r: string)
    ensures key == Erase && value != [] ==> r == value[..|value| - 1]
    ensures key == Erase && value == [] ==> r == []
    ensures key != Erase ==> r == value + key
  {
    if key == Erase then (if value == [] then [] else value[..|value| - 1]) else value + key
  }

  /** Erasing undoes typing one character. */
  lemma EditErasesLastTyped(value: string, c: char)
    requires [c] != Erase
    ensures Edit(Edit(value, [c]), Erase) == value
  {
    assert (value + [c])[..|value|] == value;
  }

  /** Every key is basic-plane text, so a value built by pressing keys stays so. */
  lemma EditKeepsBmp(value: string, key: string)
    requires JsText.IsBmp(value) && key in Keys
    ensures JsText.IsBmp(Edit(value, key))
  {
  }

  /** On basic-plane text erasing drops exactly the last UTF-16 code unit, as
      `slice(0, -1)` does. */
  lemma EraseDropsLastUnit(value: string)
    requires JsText.IsBmp(value)
    ensures value == [] ==> JsText.Utf16(Edit(value, Erase)) == []
    ensures value != [] ==>
              var u := JsText.Utf16(value);
              JsText.Utf16(Edit(value, Erase)) == u[..|u| - 1]
  {
    if value != [] {
      var init, last := value[..|value| - 1], value[|value| - 1];
      assert value == init + [last];
      JsText.Utf16Append(init, [last]);
      assert [last][1..] == [];
      assert JsText.Utf16([last]) == [last as int];
    }
  }

  /** `handleKeyPress`: the value `onChange` receives, or `None` if it is not called. */
  function HandleKeyPress(value: string, key: string, disabled: bool): (r: Option<string>)
    ensures disabled <==> r.None?
    ensures r.Some? ==> r.value == Edit(value, key)
    ensures r.Some? && key != Erase ==> |r.value| == |value| + |key|
    ensures r.Some? && key == Erase ==> |r.value| == if value == [] then 0 else |value| - 1
  {
    if disabled then None else Some(Edit(value, key))
  }

  /** Lexicographic order of two sequences of code units. */
  function UnitsLe(a: seq<int>, b: seq<int>): (r: bool)
    ensures a <= b ==> r
    ensures b < a ==> !r
  {
    if a == [] then true
    else if b == [] then false
    else if a[0] != b[0] then a[0] < b[0]
    else UnitsLe(a[1..], b[1..])
  }

  /** JavaScript's `a <= b` on strings: lexicographic order of the UTF-16 code units. */
  function StrLe(a: string, b: string): (r: bool)
    ensures a <= b ==> r
    ensures b < a ==> !r
  {
    JsText.Utf16Prefix(a, b);
    JsText.Utf16Prefix(b, a);
    UnitsLe(JsText.Utf16(a), JsText.Utf16(b))
  }

  /** Lexicographic order of the characters, the reference `StrLe` is compared with. */
  function CharLe(a: string, b: string): bool
  {
    if a == [] then true
    else if b == [] then false
    else if a[0] != b[0] then a[0] < b[0]
    else CharLe(a[1..], b[1..])
  }

  /** On basic-plane text the code-unit order is the order of the characters. */
  lemma {:induction false} StrLeOfBmp(a: string, b: string)
    requires JsText.IsBmp(a) && JsText.IsBmp(b)
    ensures StrLe(a, b) == CharLe(a, b)
  {
    if a != [] && b != [] {
      assert JsText.IsBmp(a[1..]) && JsText.IsBmp(b[1..]);
      assert JsText.Utf16(a) == [a[0] as int] + JsText.Utf16(a[1..]);
      assert JsText.Utf16(b) == [b[0] as int] + JsText.Utf16(b[1..]);
      StrLeOfBmp(a[1..], b[1..]);
    } else if a != [] {
      assert JsText.Utf16(a) != [];
    } else if b != [] {
      assert JsText.Utf16(b) != [];
    }
  }

  /** Beyond the basic plane the two orders part: U+FFFF is one unit, 0xFFFF, while
      U+10000 starts with the surrogate 0xD800, so it sorts first. */
  lemma CodeUnitOrder()
    ensures !StrLe("\U{FFFF}", "\U{10000}") && StrLe("\U{10000}", "\U{FFFF}")
    ensures CharLe("\U{FFFF}", "\U{10000}") && !CharLe("\U{10000}", "\U{FFFF}")
  {
    assert "\U{FFFF}"[1..] == [] && "\U{10000}"[1..] == [];
    assert JsText.Utf16("\U{FFFF}") == [0xFFFF];
    assert JsText.Utf16("\U{10000}") == [0xD800, 0xDC00];
  }

  /** `"0" <= k && k <= "9"` holds for the strings that start with 0 to 8, and for "9". */
  lemma DigitRange(k: string)
    ensures (StrLe("0", k) && StrLe(k, "9")) <==> ((|k| >= 1 && '0' <= k[0] <= '8') || k == "9")
  {
    assert "0"[1..] == [] && "9"[1..] == [];
    assert JsText.Utf16("0") == [0x30] && JsText.Utf16("9") == [0x39];
    if k != [] {
      var u := JsText.Utf16(k);
      var rest := JsText.Utf16(k[1..]);
      assert u == JsText.CodeUnits(k[0]) + rest;
      if k[0] as int < 0x10000 {
        assert u == [k[0] as int] + rest;
        assert u[1..] == rest;
        if k[0] == '9' && k != "9" {
          assert k[1..] != [];
        }
      } else {
        assert u[0] >= 0xD800;
      }
    }
  }

  /** `mapKeyboardToKeypad`. */
  function MapKeyboardToKeypad(keyboardKey: string): (r: Option<string>)
    ensures (|keyboardKey| >= 1 && '0' <= keyboardKey[0] <= '8') || keyboardKey == "9" ==>
              r == Some(keyboardKey)
    ensures keyboardKey == "+" || keyboardKey == "=" ==> r == Some("+")
    ensures keyboardKey == "Backspace" || keyboardKey == "Delete" ==> r == Some(Erase)
    ensures r.Some? ==> r.value != []
    ensures r.None? <==>
              && !((|keyboardKey| >= 1 && '0' <= keyboardKey[0] <= '8') || keyboardKey == "9")
              && keyboardKey != "+" && keyboardKey != "=" && keyboardKey != "Backspace"
              && keyboardKey != "Delete"
  {
    DigitRange(keyboardKey);
    if StrLe("0", keyboardKey) && StrLe(keyboardKey, "9") then Some(keyboardKey)
    else if keyboardKey == "+" || keyboardKey == "=" then Some("+")
    else if keyboardKey == "Backspace" || keyboardKey == "Delete" then Some(Erase)
    else None
  }

  /** Every keypad key that is typed on a keyboard maps to itself, and "=" and
      "Delete" stand in for "+" and the erase key. */
  lemma KeypadKeysMap()
    ensures forall i :: 0 <= i < |Keys| && Keys[i] != Erase ==> MapKeyboardToKeypad(Keys[i]) == Some(Keys[i])
    ensures MapKeyboardToKeypad("Backspace") == Some(Erase)
    ensures MapKeyboardToKeypad("=") == Some("+")
    ensures MapKeyboardToKeypad("Delete") == Some(Erase)
  {
  }

  /** Multi-character keys that start with a digit other than 9 pass the digit test
      unchanged; the string comparison is lexicographic. */
  lemma LexicographicCornerCases()
    ensures MapKeyboardToKeypad("5x") == Some("5x")
    ensures MapKeyboardToKeypad("9x") == None
    ensures MapKeyboardToKeypad("F5") == None
  {
    assert "5x"[0] == '5';
    assert "9x" != "9" && "9x"[0] == '9';
    assert "F5"[0] == 'F';
  }

  /** What one keydown does for the parent. */
  datatype KeyDownEffect =
    | Ignored                  // nothing happens
    | Enter(onEnterCalled: bool)  // Enter: default prevented, `onEnter` called if given
    | Change(newValue: string) // default prevented, `onChange(newValue)`

  class Keypad {
    var activeKey: Option<string>

    constructor ()
      ensures activeKey == None
    {
      activeKey := None;
    }

    /** The window keydown handler. */
    method KeyDown(key: string, targetIsTextField: bool, value: string, disabled: bool, hasOnEnter: bool)
      returns (effect: KeyDownEffect)
      modifies this
      ensures targetIsTextField ==> effect == Ignored && activeKey == old(activeKey)
      ensures !targetIsTextField && key == "Enter" ==>
                effect == Enter(hasOnEnter) && activeKey == old(activeKey)
      ensures !targetIsTextField && key != "Enter" && (disabled || MapKeyboardToKeypad(key).None?) ==>
                effect == Ignored && activeKey == old(activeKey)
      ensures !targetIsTextField && key != "Enter" && !disabled && MapKeyboardToKeypad(key).Some? ==>
                && activeKey == MapKeyboardToKeypad(key)
                && effect == Change(Edit(value, MapKeyboardToKeypad(key).value))
                && Some(effect.newValue) == HandleKeyPress(value, MapKeyboardToKeypad(key).value, disabled)
    {
      if targetIsTextField {
        return Ignored;
      }
      if key == "Enter" {
        return Enter(hasOnEnter);
      }
      if disabled {
        return Ignored;
      }
      var keypadKey := MapKeyboardToKeypad(key);
      if keypadKey.Some? {
        activeKey := keypadKey;
        effect := Change(Edit(value, keypadKey.value));
      } else {
        effect := Ignored;
      }
    }

    /** The window keyup handler: any mapped key clears the highlight, whatever the
        event's target. */
    method KeyUp(key: string)
      modifies this
      ensures activeKey == if MapKeyboardToKeypad(key).Some? then None else old(activeKey)
    {
      if MapKeyboardToKeypad(key).Some? {
        activeKey := None;
      }
    }
  }
}

# memory-phone-numbers, modelled in Dafny

memory-phone-numbers is a small browser app for memorising phone numbers. The user
keeps a list of contacts, each a name and a number. The app persists the list in the
browser's local storage. In the quiz, the contacts come up in shuffled order and the
user types each number on an on-screen keypad. The app grades the answer, keeps a
score and moves on. A country preference chooses how numbers are formatted, and a
country list shows each country with its flag emoji.

This project models the logic behind those screens and proves what each piece
promises:

| file | module | models |
|---|---|---|
| `wrappers.dfy` | `Wrappers` | `Option` |
| `js_text.dfy` | `JsText` | JavaScript's `\s` and `\d` classes, decimal digits, `trim()`, `toUpperCase()` on ASCII, and strings as UTF-16 code units |
| `contact_storage.dfy` | `ContactStorage` | `contactStorage`: the persisted list and its CRUD operations, as the class `ContactStore` |
| `play_screen.dfy` | `PlayScreen` | the Fisher-Yates `shuffle`, `normalize`, the progress text, and the quiz state machine as the class `PlaySession` |
| `contact_form.dfy` | `ContactForm` | `sanitizePhoneNumber`, `isValid` and the submit guard |
| `uuid.dfy` | `Uuid` | `generateUUID`: masking, hex encoding, 8-4-4-4-12 grouping, and the template fallback |
| `country_storage.dfy` | `CountryStorage` | `detectCountryFromBrowser`, `getCountry` and `setCountry` over a key-value store |
| `phone_keypad.dfy` | `PhoneKeypad` | the key edit rule, `mapKeyboardToKeypad`, and the keydown/keyup handlers with `activeKey` |
| `use_contacts.dfy` | `UseContacts` | the listener set, `notify`, and the store wrappers of `useContacts` |
| `phone_format.dfy` | `PhoneFormat` | `countryCodeToFlag`, `getCountryList` and `formatPhoneNumber` |

How the modelled state and inputs are represented:

- The contact blob is a field holding one of three values:
  - nothing is stored;
  - the stored text does not parse;
  - a parsed sequence of contacts.
- The country preference lives in a `map<string, string>` field.
- The listener registry is a sequence without duplicates, kept in insertion order as a JavaScript `Set` is. Each call a notification makes is recorded in a `calls` field.
- The quiz screen's React state is the set of fields of `PlaySession`. So is the module-level `lastContactsLength` counter.
- Each random source is an argument:
  - the swap indices of the shuffle;
  - the 16 bytes that `getRandomValues` writes;
  - the nibbles that `Math.random` yields;
  - the value that `crypto.randomUUID` returns.
- Contact ids are supplied as arguments too.
- libphonenumber's parser, `Intl.DisplayNames` and `localeCompare` are function parameters whose behaviour is not interpreted.

Behaviour of the code that a reader might not expect, and that the model keeps:

- `contactStorage.add` stores the name and number exactly as given. It neither trims them nor rejects empty values. Only the form trims (`src/services/contactStorage.ts:20-25`).
- The keyup handler clears the highlighted key whatever the event's target. Unlike keydown, it does not ignore events from text fields (`src/components/PhoneKeypad.tsx:88-93`).
- The shuffled deck is memoised on the game version and the contact count only. An edit that keeps the count, such as a rename, keeps the old deck with the old records (`src/components/PlayScreen.tsx:34-39`).
- `getCountry` returns any non-empty stored value without checking it against the country list (`src/services/countryStorage.ts:35-37`).

## Model

| member | source | states |
|---|---|---|
| JsText.Trim | src/components/ContactForm.tsx:40-45 | the result has no white space at either end; it is empty iff the input is all white space; it is the untouched middle of the input, with only white space cut on each side |
| JsText.ToUpperCase | src/services/countryStorage.ts:18 | same length, each character upper-cased (ASCII letters shift by 32, everything else stays) |
| JsText.ToUpperCaseIdempotent | src/services/countryStorage.ts:18 | upper-casing twice is the same as once |
| JsText.DigitChar | src/components/PlayScreen.tsx:100-102 | a value below ten is written as one decimal digit that reads back as the value |
| JsText.DigitValue | src/utils/uuid.ts:27 | a decimal digit stands for a value below ten |
| JsText.CodeUnits | src/utils/phoneFormat.ts:22-23 | one UTF-16 code unit for a basic-plane character, a pair otherwise, each below 0x10000 |
| JsText.Utf16 | src/utils/phoneFormat.ts:22-23 | the string's UTF-16 code units, as `split("")` and `charCodeAt` see them: at least one per character, each below 0x10000 |
| JsText.Utf16Append | src/components/PhoneKeypad.tsx:27-31 | encoding distributes over concatenation |
| JsText.Utf16Prefix | src/components/PhoneKeypad.tsx:38 | a prefix encodes to a prefix, and a proper prefix to a proper prefix |
| JsText.Utf16OfBmp | src/utils/phoneFormat.ts:22-23 | basic-plane text has one code unit per character, equal to the character |
| ContactStorage.FindIndex | src/services/contactStorage.ts:33 | -1 exactly when no record has the id; otherwise the position of the first record with it |
| ContactStorage.Merge | src/services/contactStorage.ts:36 | the supplied fields win, the missing ones and the id are kept |
| ContactStorage.RemoveId | src/services/contactStorage.ts:43-44 | the result equals the input iff no record has the id, and the length is unchanged iff nothing was removed |
| ContactStorage.RemoveIdMembers | src/services/contactStorage.ts:43 | the records kept are exactly the input's records with another id |
| ContactStorage.RemoveIdAppend | src/services/contactStorage.ts:43 | filtering distributes over concatenation, so the kept records keep their order |
| ContactStorage.FindIndexAppend | src/services/contactStorage.ts:33 | appending after a match leaves the first match where it was; an id found only in the appended part is found there, offset by the prefix |
| ContactStorage.ContactStore.GetAll | src/services/contactStorage.ts:6-14 | the stored list, or the empty list when nothing is stored or the blob does not parse |
| ContactStorage.ContactStore.Save | src/services/contactStorage.ts:16-18 | the blob holds exactly the given list afterwards |
| ContactStorage.ContactStore.Add | src/services/contactStorage.ts:20-29 | exactly one record is appended, carrying the given name and number verbatim and the supplied id; earlier records are unchanged; the new record is returned |
| ContactStorage.ContactStore.Update | src/services/contactStorage.ts:31-39 | no match: `None` and no write; otherwise only the first matching record is replaced by the merge, at its position, and the merged record is returned |
| ContactStorage.ContactStore.Delete | src/services/contactStorage.ts:41-48 | true iff the list shrank iff some record had the id; then every such record is gone; otherwise the blob is untouched |
| ContactStorage.ContactStore.Clear | src/services/contactStorage.ts:50-52 | the entry is removed and reading gives the empty list |
| ContactStorage.UpdateKeepsOthers | src/services/contactStorage.ts:33-38 | an update keeps the length, keeps the id at the updated position, and keeps every other record |
| ContactStorage.AddThenRename | src/services/contactStorage.ts:20-39 | a record added with a fresh id is found last, and renaming it there keeps its number |
| ContactStorage.AddThenDelete | src/services/contactStorage.ts:20-48 | deleting a record just added with a fresh id gives the earlier list back |
| ContactStorage.DeleteIdempotent | src/services/contactStorage.ts:41-47 | after a delete no record has the id, so a second delete removes nothing |
| PlayScreen.SwapPermutes | src/components/PlayScreen.tsx:17 | a swap permutes the sequence |
| PlayScreen.PassesPermutes | src/components/PlayScreen.tsx:15-18 | any number of loop passes keeps the length and the multiset of elements |
| PlayScreen.Passes | src/components/PlayScreen.tsx:15-18 | the descending loop from index i down to 1, swapping position i with the index drawn for it; keeps the length |
| PlayScreen.FisherYates | src/components/PlayScreen.tsx:13-20 | the reference result of the whole loop for the drawn indices; keeps the length |
| PlayScreen.FisherYatesPermutes | src/components/PlayScreen.tsx:13-20 | whatever the random indices, the shuffle is a permutation of its input |
| PlayScreen.FisherYatesShort | src/components/PlayScreen.tsx:15 | with zero or one element the loop does not run and the result is the input |
| PlayScreen.SwapInPlace | src/components/PlayScreen.tsx:17 | the destructuring assignment swaps the two array cells |
| PlayScreen.CopyToArray | src/components/PlayScreen.tsx:14 | the copy is a fresh array with the input's elements |
| PlayScreen.Shuffle | src/components/PlayScreen.tsx:13-20 | the in-place loop computes the Fisher-Yates result for the given indices; the result is a permutation of the input, which is a value and stays as it was |
| PlayScreen.Normalize | src/components/PlayScreen.tsx:73 | no white space, `-`, `(` or `)` is left |
| PlayScreen.NormalizeAppend | src/components/PlayScreen.tsx:73 | normalising distributes over concatenation |
| PlayScreen.NormalizeChar | src/components/PlayScreen.tsx:73 | a single separator is deleted and any other single character is kept |
| PlayScreen.NormalizeKeeps | src/components/PlayScreen.tsx:73 | a string without separators is left as it is |
| PlayScreen.NormalizeIdempotent | src/components/PlayScreen.tsx:73 | normalising twice is the same as once |
| PlayScreen.DecimalString | src/components/PlayScreen.tsx:101 | a non-empty string of digits without a leading zero, except for 0 itself |
| PlayScreen.DecimalRoundTrip | src/components/PlayScreen.tsx:101 | the digits read back as the number |
| PlayScreen.ProgressText | src/components/PlayScreen.tsx:100-102 | the text is "0/0" exactly for an empty deck |
| PlayScreen.ProgressReadsBack | src/components/PlayScreen.tsx:100-102 | for a non-empty deck the text is the one-based position, one `/`, and the deck length, each reading back as its number |
| PlayScreen.PlaySession.constructor | src/components/PlayScreen.tsx:25-44 | a fresh screen: empty deck, version 0, first card, empty input, playing, score 0/0, and the counter as it survived earlier mounts |
| PlayScreen.PlaySession.Render | src/components/PlayScreen.tsx:34-54 | the deck is reshuffled only when the version or the contact count changed, and is empty for no contacts; on a changed count the counter is updated, and only when the list is non-empty and the index is past its end do index, input and state reset |
| PlayScreen.PlaySession.SetInput | src/components/PlayScreen.tsx:202 | the keypad's change sets the typed input and nothing else |
| PlayScreen.PlaySession.InitGame | src/components/PlayScreen.tsx:61-67 | version + 1, first card, empty input, playing, score 0/0 |
| PlayScreen.PlaySession.HandleShuffle | src/components/PlayScreen.tsx:94-96 | the same new game as `initGame` |
| PlayScreen.PlaySession.HandleCheck | src/components/PlayScreen.tsx:69-81 | without a current card or outside `playing` nothing changes; otherwise correct iff the normalised input equals the normalised number, total + 1 and correct + 1 only on a match, so correct <= total is kept; grading the last card finishes the game |
| PlayScreen.PlaySession.HandleNext | src/components/PlayScreen.tsx:83-92 | before the last card: the next card, empty input, playing, score kept; otherwise a new game; the game is not finished afterwards |
| PlayScreen.PlaySession.Progress | src/components/PlayScreen.tsx:100-102 | "0/0" exactly when the deck is empty |
| PlayScreen.PlaySession.IsGameFinished | src/components/PlayScreen.tsx:98-99 | finished only on a non-empty deck, at a real card that has been graded; never on an empty deck |
| ContactForm.DigitsAndPlus | src/components/ContactForm.tsx:18 | only digits and `+` are left |
| ContactForm.Digits | src/components/ContactForm.tsx:21-23 | only digits are left |
| ContactForm.Sanitize | src/components/ContactForm.tsx:16-24 | only digits and `+`, and `+` only at index 0 |
| ContactForm.FirstOfDigitsAndPlus | src/components/ContactForm.tsx:18 | the first kept character is the input's first digit or `+`, and nothing is kept iff there is none |
| ContactForm.DigitsAppend | src/components/ContactForm.tsx:21-23 | digit filtering distributes over concatenation |
| ContactForm.DigitsOfDigitsAndPlus | src/components/ContactForm.tsx:18-23 | filtering to digits and `+` first does not change the digits |
| ContactForm.DigitsKeepsDigits | src/components/ContactForm.tsx:21-23 | a string of digits is kept as it is |
| ContactForm.DigitsAndPlusKeeps | src/components/ContactForm.tsx:18 | a string of digits and `+` is kept as it is |
| ContactForm.SanitizeLeadingPlus | src/components/ContactForm.tsx:18-21 | the output starts with `+` iff the input's first digit-or-plus character is `+` |
| ContactForm.SanitizeKeepsDigits | src/components/ContactForm.tsx:18-23 | the output's digits are the input's digits, in order |
| ContactForm.SanitizeIdempotent | src/components/ContactForm.tsx:16-24 | sanitising a sanitised number changes nothing |
| ContactForm.IsValid | src/components/ContactForm.tsx:45 | true iff both name and number hold a non-white-space character |
| ContactForm.HandleSubmit | src/components/ContactForm.tsx:38-43 | `onSave` is called iff `isValid` holds, with both values trimmed, non-empty and without leading white space |
| Uuid.HexDigit | src/utils/uuid.ts:27 | a lowercase hex digit that reads back as the nibble |
| Uuid.HexByte | src/utils/uuid.ts:27 | two lowercase hex digits, high first, whose value is the byte |
| Uuid.Hex | src/utils/uuid.ts:26-28 | twice as many characters as bytes, all lowercase hex |
| Uuid.HexAt | src/utils/uuid.ts:26-28 | byte k is written at characters 2k and 2k+1 |
| Uuid.DecodeHexRoundTrip | src/utils/uuid.ts:26-28 | the hex string decodes back to the bytes |
| Uuid.Group | src/utils/uuid.ts:31-37 | 36 characters, a dash at 8, 13, 18 and 23, and the hex characters in order elsewhere |
| Uuid.VersionByte | src/utils/uuid.ts:22 | high nibble 4, low nibble kept |
| Uuid.VariantByte | src/utils/uuid.ts:23 | top two bits 10, low six bits kept |
| Uuid.Masked | src/utils/uuid.ts:22-23 | bytes 6 and 8 are masked and no other byte changes |
| Uuid.GroupedHexIsUuidV4 | src/utils/uuid.ts:16-37 | the grouped hex of any 16 masked bytes is a version-4 UUID: dashes in place, lowercase hex elsewhere, `4` at 14, one of `8 9 a b` at 19 |
| Uuid.FromRandomBytes | src/utils/uuid.ts:15-37 | the in-place masking of the array followed by hex and grouping gives the grouped hex of the masked bytes, a version-4 UUID |
| Uuid.VariantNibble | src/utils/uuid.ts:45 | `(r & 3) OR 8` is one of 8 to 11 and keeps the low two bits of r |
| Uuid.Fill | src/utils/uuid.ts:43-47 | same length; characters other than `x`/`y` kept; each `x` a lowercase hex digit; each `y` one of `8 9 a b` |
| Uuid.FillAt | src/utils/uuid.ts:43-47 | the placeholder at position k takes the nibble numbered by the placeholders before k, as is for `x` and through `(r & 3) OR 8` for `y` |
| Uuid.TemplatePlaceholders | src/utils/uuid.ts:43 | the template draws 31 nibbles |
| Uuid.TemplateShape | src/utils/uuid.ts:43 | the template has dashes at the dash positions, `4` at 14, `y` at 19 and `x` elsewhere |
| Uuid.FillIsUuidV4 | src/utils/uuid.ts:43-47 | filling such a template with any nibbles yields a version-4 UUID |
| Uuid.GenerateUuid | src/utils/uuid.ts:7-48 | the native value when the runtime has one; otherwise the masked random bytes grouped, else the filled template; both fallbacks are version-4 UUIDs |
| CountryStorage.Split | src/services/countryStorage.ts:16 | at least one part, none containing the separator |
| CountryStorage.SplitJoin | src/services/countryStorage.ts:16 | joining the parts with the separator gives the input back |
| CountryStorage.SplitHasParts | src/services/countryStorage.ts:16-17 | two or more parts iff the separator occurs |
| CountryStorage.SplitLast | src/services/countryStorage.ts:18 | the last part is the text after the last separator |
| CountryStorage.SplitNoSeparator | src/services/countryStorage.ts:16 | text without the separator is one part |
| CountryStorage.SplitAtSeparator | src/services/countryStorage.ts:16 | the text before the first separator is the first part, and the rest is split on |
| CountryStorage.Locale | src/services/countryStorage.ts:13-14 | `language` when non-empty; otherwise `languages[0]` when the list exists and its first entry is non-empty; otherwise nothing; never an empty locale |
| CountryStorage.LocaleRegion | src/services/countryStorage.ts:16-18 | a region exists iff the locale contains `-` |
| CountryStorage.LocaleRegionIsSuffix | src/services/countryStorage.ts:16-18 | the region is the upper-cased text after the locale's last `-` |
| CountryStorage.DetectCountry | src/services/countryStorage.ts:11-29 | always a valid country or "US"; "US" without a locale or without `-`; else the region if it is valid, else "US" |
| CountryStorage.DetectEnUs | src/services/countryStorage.ts:13-21 | "en-US" gives "US" |
| CountryStorage.DetectLowerCaseRegion | src/services/countryStorage.ts:13-21 | `languages[0]` "fr-fr" with an empty `language` gives "FR" |
| CountryStorage.DetectLastPart | src/services/countryStorage.ts:18 | "zh-Hant-TW" gives "TW": the last part, not the second |
| CountryStorage.DetectLanguageOnly | src/services/countryStorage.ts:17-28 | "fr" falls back to "US" |
| CountryStorage.CountryStore.GetCountry | src/services/countryStorage.ts:32-42 | a non-empty stored value as it is; otherwise, or when reading throws, the detected country |
| CountryStorage.CountryStore.SetCountry | src/services/countryStorage.ts:44-50 | a successful write stores the code, and a later read returns it when non-empty; a failed write changes nothing |
| PhoneKeypad.Edit | src/components/PhoneKeypad.tsx:28-32 | erase drops the last character (nothing on an empty value); any other key is appended |
| PhoneKeypad.EditErasesLastTyped | src/components/PhoneKeypad.tsx:28-32 | erasing undoes typing one character |
| PhoneKeypad.EditKeepsBmp | src/components/PhoneKeypad.tsx:28-32 | pressing keys keeps a basic-plane value in the basic plane |
| PhoneKeypad.EraseDropsLastUnit | src/components/PhoneKeypad.tsx:28 | on basic-plane text erasing drops exactly the last UTF-16 code unit, as `slice(0, -1)` does |
| PhoneKeypad.HandleKeyPress | src/components/PhoneKeypad.tsx:25-33 | `onChange` is called iff not disabled, with the edited value: one key longer, or one shorter after erase |
| PhoneKeypad.UnitsLe | src/components/PhoneKeypad.tsx:38 | lexicographic order of code units: a prefix is below every extension, and a proper extension is never below its prefix |
| PhoneKeypad.StrLe | src/components/PhoneKeypad.tsx:38 | JavaScript's string `<=`, lexicographic by UTF-16 code unit: a prefix is below every extension, and a proper extension is never below its prefix |
| PhoneKeypad.StrLeOfBmp | src/components/PhoneKeypad.tsx:38 | on basic-plane text the code-unit order is the lexicographic order by character |
| PhoneKeypad.CodeUnitOrder | src/components/PhoneKeypad.tsx:38 | beyond the basic plane the orders differ: U+10000 sorts before U+FFFF by code unit and after it by character |
| PhoneKeypad.DigitRange | src/components/PhoneKeypad.tsx:38 | `"0" <= k <= "9"` holds for strings starting with 0-8, and for "9" alone |
| PhoneKeypad.MapKeyboardToKeypad | src/components/PhoneKeypad.tsx:36-50 | digit-range strings map to themselves, `+`/`=` to `+`, Backspace/Delete to erase, and everything else, and only that, to nothing |
| PhoneKeypad.KeypadKeysMap | src/components/PhoneKeypad.tsx:10-15 | every keypad key that can be typed on a keyboard maps to itself, `=` maps to `+`, and Backspace and Delete map to erase |
| PhoneKeypad.LexicographicCornerCases | src/components/PhoneKeypad.tsx:38-40 | "5x" maps to itself, while "9x" and "F5" map to nothing |
| PhoneKeypad.Keypad.KeyDown | src/components/PhoneKeypad.tsx:53-86 | text-field targets are ignored; Enter calls `onEnter` even when disabled; other keys are ignored when disabled or unmapped; a mapped key sets `activeKey` and applies the same edit as pressing it |
| PhoneKeypad.Keypad.KeyUp | src/components/PhoneKeypad.tsx:88-93 | any mapped key clears `activeKey`; other keys leave it |
| UseContacts.NotifyReachesEachOnce | src/hooks/useContacts.ts:7-12 | in a registry without duplicates each registered listener occurs once and no other occurs |
| UseContacts.Without | src/hooks/useContacts.ts:10 | `listeners.delete(l)` as a sequence: never longer than the registry |
| UseContacts.WithoutMembers | src/hooks/useContacts.ts:10 | removes exactly that listener, changes nothing when it is absent, and keeps the rest without duplicates |
| UseContacts.WithoutAppend | src/hooks/useContacts.ts:10 | removal distributes over concatenation, so the remaining listeners keep their registration order |
| UseContacts.ContactsHub.Subscribe | src/hooks/useContacts.ts:8-9 | the listener is appended unless already registered; no duplicates |
| UseContacts.ContactsHub.Unsubscribe | src/hooks/useContacts.ts:10 | true iff it was registered; afterwards it is not, the others stay |
| UseContacts.ContactsHub.Notify | src/hooks/useContacts.ts:12 | the calls made are the registered listeners in registration order, so each registered listener is called exactly once and no other is called; the registry is unchanged |
| UseContacts.ContactsHub.Contacts | src/hooks/useContacts.ts:14-24 | the hook's `contacts`: the stored list, or the empty list when nothing is stored or the blob does not parse |
| UseContacts.ContactsHub.AddContact | src/hooks/useContacts.ts:26-30 | the store's `add`, then a notification, then the created record |
| UseContacts.ContactsHub.UpdateContact | src/hooks/useContacts.ts:32-39 | the store's `update`, then a notification even when nothing matched, then its result |
| UseContacts.ContactsHub.DeleteContact | src/hooks/useContacts.ts:41-45 | the store's `delete`, then a notification even when nothing was removed, then its result |
| PhoneFormat.ShiftedCodePoints | src/utils/phoneFormat.ts:23-24 | one code point per code unit, 127397 above it |
| PhoneFormat.CountryCodeToFlag | src/utils/phoneFormat.ts:19-25 | as many code points as the upper-cased code has UTF-16 units |
| PhoneFormat.FlagCodePoints | src/utils/phoneFormat.ts:20-24 | for basic-plane input, one code point per character, 127397 above the upper-cased character |
| PhoneFormat.FlagOfLetters | src/utils/phoneFormat.ts:21-23 | letters give regional indicators U+1F1E6 to U+1F1FF, and lowercase gives the same flag as uppercase |
| PhoneFormat.FlagOfFrance | src/utils/phoneFormat.ts:19-25 | "FR" and "fr" give U+1F1EB U+1F1F7 |
| PhoneFormat.FlagRoundTrip | src/utils/phoneFormat.ts:19-25 | subtracting 127397 from the flag gives back the code units of the upper-cased code |
| PhoneFormat.Entry | src/utils/phoneFormat.ts:35-39 | the code, the display name or the code when there is none, and the flag |
| PhoneFormat.Entries | src/utils/phoneFormat.ts:34-39 | one entry per code, in order |
| PhoneFormat.Insert | src/utils/phoneFormat.ts:40 | inserting adds exactly that entry |
| PhoneFormat.SortByName | src/utils/phoneFormat.ts:40 | sorting permutes the entries |
| PhoneFormat.GetCountryList | src/utils/phoneFormat.ts:30-41 | a permutation of the mapped entries, as many as codes |
| PhoneFormat.InsertSorted | src/utils/phoneFormat.ts:40 | inserting into a sorted list keeps it sorted |
| PhoneFormat.SortByNameSorted | src/utils/phoneFormat.ts:40 | the sorted list is ordered by name under any comparator where `compare(a, b) < 0` iff `compare(b, a) > 0` |
| PhoneFormat.EntriesMembers | src/utils/phoneFormat.ts:34-39 | the entries are exactly the entries of the codes |
| PhoneFormat.CountryListSpec | src/utils/phoneFormat.ts:30-41 | one entry per code, each with its name or its code and its flag, ordered by name |
| PhoneFormat.FormatPhoneNumber | src/utils/phoneFormat.ts:49-69 | "" gives ""; nothing parsed or a throw gives the input; the same country gives the national form, another the international form |

## Left out

- libphonenumber-js (`parsePhoneNumberFromString`, `formatNational`, `formatInternational`, `getCountries`), `Intl.DisplayNames` and `localeCompare` are foreign code. They are parameters: a parser returning a parse or a throw, a display-name function, a comparator and a list of codes. The formatting methods are total functions of the parse.
- PhoneFormat.SortByNameSorted: sortedness is proved for sign-symmetric comparators only, which `localeCompare` is. The uniqueness of a stable sort's result needs transitivity too and is not stated. The sort is an insertion sort, stable like `Array.prototype.sort`.
- `localStorage`, `JSON.stringify`/`JSON.parse` and `console.error` are left out. The contact blob is an `Absent | Corrupt | Stored` value, and the country entry is a map plus a read-fails or write-fails flag.
- ContactStorage.ContactStore.Save: a `setItem` that throws, such as a full quota, is not modelled. In the source that exception propagates out of `add`, `update` and `delete`.
- A `Partial` update whose field is present but `undefined` is not modelled. Such a field would overwrite the record's field with `undefined`. In the model a field is either supplied with a string or missing.
- Randomness and ids: `crypto.randomUUID`, `crypto.getRandomValues`, `Math.random` and the float arithmetic of `Math.floor(Math.random() * (i + 1))` become supplied values. Nothing is claimed about id uniqueness. The store takes its id as an argument; the source draws it from `crypto.randomUUID()` directly, not through `generateUUID`.
- Uuid.FromRandomBytes: it does not restate that the hex decodes back to the masked bytes. `Uuid.DecodeHexRoundTrip` proves that for any bytes.
- React is left out: `useState`, `useMemo`, `useCallback`, `useSyncExternalStore`, `useEffect`, the binding of window listeners, and render timing. The handlers are methods. One call of `PlaySession.Render` stands for one render with the current contacts.
- UseContacts.ContactsHub.Contacts: the snapshot's `JSON.stringify`/`JSON.parse` round trip is taken as the identity on contacts. So the hook's `contacts` are the store's `getAll()`.
- UseContacts.ContactsHub.Notify: a listener that subscribes or unsubscribes while `forEach` runs is not modelled. Listeners are ids, and a call is recorded in `calls`.
- PhoneKeypad.Edit: erasing drops the last character, a code point, where `slice(0, -1)` drops the last UTF-16 code unit. They differ only on a value ending outside the basic plane, where JavaScript leaves a lone surrogate that a Dafny `char` cannot hold. `EditKeepsBmp` and `EraseDropsLastUnit` show they agree on every value the keys build.
- JsText.ToUpperCase: only ASCII letters are upper-cased. Unicode case mapping, which can also change the length, is left out.
- `normalizePhoneNumberForComparison` is imported by `src/utils/phoneFormat.test.ts` but is defined nowhere in the sources, so it is not part of this model. The `formatPhoneNumber` test expectations depend on libphonenumber's metadata and are not stated.
- Presentation only: `src/App.tsx`, `src/components/ContactList.tsx`, `src/components/ContactItem.tsx`, `src/components/SplashScreen.tsx`, `src/components/CountrySelector.tsx` and `vite.config.ts`. The `Contact` record of `src/types/contact.ts` is the `ContactStorage.Contact` datatype.

/**
 * `generateUUID`: a version-4 UUID string. The three sources of randomness
 * (`crypto.randomUUID`, `crypto.getRandomValues`, `Math.random`) are inputs.
 */
module Uuid {
  import opened Wrappers
  import JsText

  // ----- the 8-4-4-4-12 shape -----

  predicate IsLowerHex(c: char)
  {
    JsText.IsDigit(c) || ('a' <= c <= 'f')
  }

  /** The four digits a variant-10 nibble can be written as. */
  predicate IsVariantDigit(c: char)
  {
    c == '8' || c == '9' || c == 'a' || c == 'b'
  }

  predicate IsDashPosition(k: int)
  {
    k == 8 || k == 13 || k == 18 || k == 23
  }

  /** `xxxxxxxx-xxxx-4xxx-yxxx-xxxxxxxxxxxx` with `x` a lowercase hex digit and `y`
      one of `8`, `9`, `a`, `b`. */
  predicate IsUuidV4(s: string)
  {
    && |s| == 36
    && (forall k :: 0 <= k < 36 && IsDashPosition(k) ==> s[k] == '-')
    && (forall k :: 0 <= k < 36 && !IsDashPosition(k) ==> IsLowerHex(s[k]))
    && s[14] == '4'
    && IsVariantDigit(s[19])
  }

  // ----- hexadecimal -----

  function HexDigit(n: nat): (c: char)
    requires n < 16
    ensures IsLowerHex(c)
    ensures HexValue(c) == n
  {
    if n < 10 then JsText.DigitChar(n) else ('a' as int + n - 10) as char
  }

  function HexValue(c: char): (n: nat)
    requires IsLowerHex(c)
    ensures n < 16
  {
    if JsText.IsDigit(c) then JsText.DigitValue(c) else c as int - 'a' as int + 10
  }

  /** `b.toString(16).padStart(2, "0")`: always two lowercase digits. */
  function HexByte(b: bv8): (r: string)
    ensures |r| == 2 && IsLowerHex(r[0]) && IsLowerHex(r[1])
    ensures 16 * HexValue(r[0]) + HexValue(r[1]) == b as int
  {
    [HexDigit(b as int / 16), HexDigit(b as int % 16)]
  }

  /** `Array.from(bytes).map(...).join("")`. */
  function Hex(bytes: seq<bv8>): (r: string)
    ensures |r| == 2 * |bytes|
    ensures forall k :: 0 <= k < |r| ==> IsLowerHex(r[k])
  {
    if bytes == [] then [] else HexByte(bytes[0]) + Hex(bytes[1..])
  }

  /** Byte `k` sits at characters `2k` and `2k + 1`, high nibble first. */
  lemma {:induction false} HexAt(bytes: seq<bv8>, k: nat)
    requires k < |bytes|
    ensures Hex(bytes)[2 * k] == HexDigit(bytes[k] as int / 16)
    ensures Hex(bytes)[2 * k + 1] == HexDigit(bytes[k] as int % 16)
  {
    if k > 0 {
      HexAt(bytes[1..], k - 1);
    }
  }

  /** Reads a string of lowercase hex digit pairs back as bytes. */
  function DecodeHex(s: string): seq<bv8>
    requires |s| % 2 == 0
    requires forall k :: 0 <= k < |s| ==> IsLowerHex(s[k])
  {
    if s == [] then [] else [(16 * HexValue(s[0]) + HexValue(s[1])) as bv8] + DecodeHex(s[2..])
  }

  lemma {:induction false} DecodeHexRoundTrip(bytes: seq<bv8>)
    ensures DecodeHex(Hex(bytes)) == bytes
  {
    if bytes != [] {
      var h := Hex(bytes);
      assert h[2..] == Hex(bytes[1..]);
      DecodeHexRoundTrip(bytes[1..]);
    }
  }

  /** The character of `hex` that lands at position `k` of the grouped string. */
  function HexIndex(k: nat): nat
  {
    if k < 8 then k else if k < 13 then k - 1 else if k < 18 then k - 2
    else if k < 23 then k - 3 else k - 4
  }

  /** `[hex.slice(0, 8), ..., hex.slice(20, 32)].join("-")`. */
  function Group(hex: string): (r: string)
    requires |hex| == 32
    ensures |r| == 36
    ensures forall k :: 0 <= k < 36 && IsDashPosition(k) ==> r[k] == '-'
    ensures forall k :: 0 <= k < 36 && !IsDashPosition(k) ==> r[k] == hex[HexIndex(k)]
  {
    hex[0..8] + "-" + hex[8..12] + "-" + hex[12..16] + "-" + hex[16..20] + "-" + hex[20..32]
  }

  // ----- the getRandomValues branch -----

  /** Byte 6 after `(b & 0x0f) | 0x40`: high nibble 4, low nibble kept. */
  function VersionByte(b: bv8): (m: bv8)
    ensures m as int / 16 == 4
    ensures m as int % 16 == b as int % 16
  {
    var low := b & 0x0f;
    assert low as int == b as int % 16;
    assert (low | 0x40) as int == low as int + 64;
    low | 0x40
  }

  /** Byte 8 after `(b & 0x3f) | 0x80`: top bits 10, low six bits kept. */
  function VariantByte(b: bv8): (m: bv8)
    ensures m as int / 64 == 2
    ensures m as int % 64 == b as int % 64
  {
    (b & 0x3f) | 0x80
  }

  /** The random bytes after the version and variant bits are set. */
  function Masked(bytes: seq<bv8>): (m: seq<bv8>)
    requires |bytes| == 16
    ensures |m| == 16
    ensures m[6] == VersionByte(bytes[6]) && m[8] == VariantByte(bytes[8])
    ensures forall k :: 0 <= k < 16 && k != 6 && k != 8 ==> m[k] == bytes[k]
  {
    bytes[6 := VersionByte(bytes[6])][8 := VariantByte(bytes[8])]
  }

  /** The formatted UUID of 16 random bytes is a version-4 UUID. */
  lemma GroupedHexIsUuidV4(bytes: seq<bv8>)
    requires |bytes| == 16
    ensures IsUuidV4(Group(Hex(Masked(bytes))))
  {
    var m := Masked(bytes);
    HexAt(m, 6);
    HexAt(m, 8);
    var b8 := m[8] as int / 16;
    assert 8 <= b8 < 12;
    assert HexDigit(b8) == if b8 == 8 then '8' else if b8 == 9 then '9' else if b8 == 10 then 'a' else 'b';
  }

  /** The `getRandomValues` branch: fill a 16-byte array, overwrite bytes 6 and 8 in
      place, hex-encode and group. */
  method FromRandomBytes(random: seq<bv8>) returns (id: string)
    requires |random| == 16
    ensures id == Group(Hex(Masked(random)))
    ensures IsUuidV4(id)
  {
    var bytes := new bv8[16](k requires 0 <= k < 16 => random[k]);
    bytes[6] := (bytes[6] & 0x0f) | 0x40;
    bytes[8] := (bytes[8] & 0x3f) | 0x80;
    ghost var masked := Masked(random);
    assert forall k :: 0 <= k < 16 ==> bytes[k] == masked[k];
    assert bytes[..] == masked;
    var hex := Hex(bytes[..]);
    id := Group(hex);
    GroupedHexIsUuidV4(random);
  }

  // ----- the Math.random template fallback -----

  const Template := "xxxxxxxx-xxxx-4xxx-yxxx-xxxxxxxxxxxx"

  predicate IsPlaceholder(c: char)
  {
    c == 'x' || c == 'y'
  }

  /** How many `x`/`y` characters `t` holds: one random nibble is drawn for each. */
  function Placeholders(t: string): nat
  {
    if t == [] then 0 else (if IsPlaceholder(t[0]) then 1 else 0) + Placeholders(t[1..])
  }

  /** `(r & 0x3) | 0x8` on a nibble: one of 8 to 11, with the low two bits of `r`. */
  function VariantNibble(r: nat): (v: nat)
    requires r < 16
    ensures 8 <= v < 12 && v % 4 == r % 4
  {
    ((r as bv8 & 0x3) | 0x8) as int
  }

  /** `t.replace(/[xy]/g, ...)` with the nibbles drawn in order. */
  function Fill(t: string, nibbles: seq<nat>): (r: string)
    requires |nibbles| == Placeholders(t)
    requires forall i :: 0 <= i < |nibbles| ==> nibbles[i] < 16
    ensures |r| == |t|
    ensures forall k :: 0 <= k < |t| && !IsPlaceholder(t[k]) ==> r[k] == t[k]
    ensures forall k :: 0 <= k < |t| && t[k] == 'x' ==> IsLowerHex(r[k])
    ensures forall k :: 0 <= k < |t| && t[k] == 'y' ==> IsVariantDigit(r[k])
  {
    if t == [] then []
    else if t[0] == 'x' then [HexDigit(nibbles[0])] + Fill(t[1..], nibbles[1..])
    else if t[0] == 'y' then
      var v := VariantNibble(nibbles[0]);
      assert HexDigit(v) == if v == 8 then '8' else if v == 9 then '9' else if v == 10 then 'a' else 'b';
      [HexDigit(v)] + Fill(t[1..], nibbles[1..])
    else [t[0]] + Fill(t[1..], nibbles)
  }

  /** The `x` at position `k` is written as the nibble drawn for it, the number of
      placeholders before `k`. */
  lemma {:induction false} FillAt(t: string, nibbles: seq<nat>, k: nat)
    requires |nibbles| == Placeholders(t)
    requires forall i :: 0 <= i < |nibbles| ==> nibbles[i] < 16
    requires k < |t| && IsPlaceholder(t[k])
    ensures Placeholders(t[..k]) < |nibbles|
    ensures t[k] == 'x' ==> Fill(t, nibbles)[k] == HexDigit(nibbles[Placeholders(t[..k])])
    ensures t[k] == 'y' ==> Fill(t, nibbles)[k] == HexDigit(VariantNibble(nibbles[Placeholders(t[..k])]))
  {
    if k == 0 {
      assert t[..k] == [];
    } else {
      assert t[1..][..k - 1] == t[1..k];
      assert t[..k] == [t[0]] + t[1..k];
      var rest := if IsPlaceholder(t[0]) then nibbles[1..] else nibbles;
      var skipped := if IsPlaceholder(t[0]) then 1 else 0;
      assert Placeholders(t[..k]) == skipped + Placeholders(t[1..k]);
      assert Fill(t, nibbles)[k] == Fill(t[1..], rest)[k - 1];
      FillAt(t[1..], rest, k - 1);
      assert nibbles[Placeholders(t[..k])] == rest[Placeholders(t[1..k])];
    }
  }

  lemma {:induction false} PlaceholdersAppend(a: string, b: string)
    ensures Placeholders(a + b) == Placeholders(a) + Placeholders(b)
  {
    if a == [] {
      assert a + b == b;
    } else {
      assert (a + b)[0] == a[0] && (a + b)[1..] == a[1..] + b;
      PlaceholdersAppend(a[1..], b);
    }
  }

  /** A run of `n` copies of `x`. */
  function Xs(n: nat): (r: string)
    ensures |r| == n && forall k :: 0 <= k < n ==> r[k] == 'x'
  {
    seq(n, _ => 'x')
  }

  lemma {:induction false} PlaceholdersXs(n: nat)
    ensures Placeholders(Xs(n)) == n
  {
    if n > 0 {
      assert Xs(n)[1..] == Xs(n - 1);
      PlaceholdersXs(n - 1);
    }
  }

  /** The template spelt as runs of `x` and the literal parts between them. */
  function TemplatePieces(): string
  {
    Xs(8) + "-" + Xs(4) + "-4" + Xs(3) + "-y" + Xs(3) + "-" + Xs(12)
  }

  lemma TemplateIsPieces()
    ensures Template == TemplatePieces()
  {
  }

  lemma PiecesPlaceholders()
    ensures Placeholders(TemplatePieces()) == 31
  {
    assert "-4"[1..] == "4" && "4"[1..] == [];
    assert "-y"[1..] == "y" && "y"[1..] == [];
    PlaceholdersXs(8);
    PlaceholdersXs(4);
    PlaceholdersXs(3);
    PlaceholdersXs(12);
    var p1 := Xs(8) + "-";
    PlaceholdersAppend(Xs(8), "-");
    var p2 := p1 + Xs(4);
    PlaceholdersAppend(p1, Xs(4));
    var p3 := p2 + "-4";
    PlaceholdersAppend(p2, "-4");
    var p4 := p3 + Xs(3);
    PlaceholdersAppend(p3, Xs(3));
    var p5 := p4 + "-y";
    PlaceholdersAppend(p4, "-y");
    var p6 := p5 + Xs(3);
    PlaceholdersAppend(p5, Xs(3));
    var p7 := p6 + "-";
    PlaceholdersAppend(p6, "-");
    PlaceholdersAppend(p7, Xs(12));
  }

  /** The template draws 31 nibbles: 30 for the `x`s and one for the `y`. */
  lemma TemplatePlaceholders()
    ensures Placeholders(Template) == 31
  {
    TemplateIsPieces();
    PiecesPlaceholders();
  }

  /** The template's layout: dashes at the dash positions, a fixed `4` at 14, the
      variant placeholder `y` at 19, and `x` everywhere else. */
  predicate IsUuidTemplate(t: string)
  {
    && |t| == 36
    && (forall k :: 0 <= k < 36 && IsDashPosition(k) ==> t[k] == '-')
    && (forall k :: 0 <= k < 36 && !IsDashPosition(k) && k != 14 && k != 19 ==> t[k] == 'x')
    && t[14] == '4' && t[19] == 'y'
  }

  lemma TemplateShape()
    ensures IsUuidTemplate(Template)
  {
  }

  /** Filling a template of that layout yields a version-4 UUID whatever the nibbles. */
  lemma FillIsUuidV4(t: string, nibbles: seq<nat>)
    requires IsUuidTemplate(t)
    requires |nibbles| == Placeholders(t)
    requires forall i :: 0 <= i < |nibbles| ==> nibbles[i] < 16
    ensures IsUuidV4(Fill(t, nibbles))
  {
  }

  // ----- generateUUID -----

  /** What the runtime offers: the native generator's next result if it exists, the
      bytes `getRandomValues` would write if it exists, and the nibbles
      `(Math.random() * 16) | 0` would produce. */
  datatype Randomness = Randomness(
    nativeUuid: Option<string>,
    randomBytes: Option<seq<bv8>>,
    nibbles: seq<nat>)

  predicate WellFormed(env: Randomness)
  {
    && (env.randomBytes.Some? ==> |env.randomBytes.value| == 16)
    && |env.nibbles| == Placeholders(Template)
    && forall i :: 0 <= i < |env.nibbles| ==> env.nibbles[i] < 16
  }

  /** `generateUUID`: the native value when there is one, otherwise a UUID built from
      random bytes, otherwise one built from the template. */
  method GenerateUuid(env: Randomness) returns (id: string)
    requires WellFormed(env)
    ensures env.nativeUuid.Some? ==> id == env.nativeUuid.value
    ensures env.nativeUuid.None? ==> IsUuidV4(id)
    ensures env.nativeUuid.None? && env.randomBytes.Some? ==>
              id == Group(Hex(Masked(env.randomBytes.value)))
    ensures env.nativeUuid.None? && env.randomBytes.None? ==> id == Fill(Template, env.nibbles)
  {
    if env.nativeUuid.Some? {
      return env.nativeUuid.value;
    }
    if env.randomBytes.Some? {
      id := FromRandomBytes(env.randomBytes.value);
      return;
    }
    TemplateShape();
    FillIsUuidV4(Template, env.nibbles);
    id := Fill(Template, env.nibbles);
  }
}

/** What the strings of a JSON text mean: a reader of UTF-8 (section 3 of RFC 3629) and the ways to write a
    code point (section 7 of RFC 8259), and that agent/src/json.cpp reads each of them as that code point. */
module JsonEscapes {
  import opened Bytes
  import opened Json
  import opened JsonParser
  import opened JsonRoundTrip
  import opened Wrappers

  // ---- reading UTF-8 --------------------------------------------------------------------------------------

  /** How many bytes a lead byte announces; none if it is no lead byte. */
  function Announced(lead: u8): nat {
    if lead < 0x80 then 1
    else if 0xC0 <= lead < 0xE0 then 2
    else if 0xE0 <= lead < 0xF0 then 3
    else if 0xF0 <= lead < 0xF8 then 4
    else 0
  }

  /** The bits of the code point in the lead byte. */
  function LeadBits(lead: u8): nat
    requires Announced(lead) > 0
  {
    var n := Announced(lead);
    lead - if n == 1 then 0 else if n == 2 then 0xC0 else if n == 3 then 0xE0 else 0xF0
  }

  predicate IsTrail(b: u8) { 0x80 <= b < 0xC0 }

  function SixBits(b: u8): nat
    requires IsTrail(b)
  {
    b - 0x80
  }

  /** Six more bits from each trailing byte. */
  function TrailBits(bits: nat, t: Text): nat
    requires forall k :: 0 <= k < |t| ==> IsTrail(t[k])
    decreases |t|
  {
    if |t| == 0 then bits else TrailBits(64 * bits + SixBits(t[0]), t[1..])
  }

  /** The smallest code point that needs `n` bytes. */
  function Smallest(n: nat): nat { if n == 1 then 0 else if n == 2 then 0x80 else if n == 3 then 0x800 else 0x1_0000 }

  /** The code point that `t` is the shortest form of. */
  function ReadUtf8(t: Text): Option<nat> {
    if |t| == 0 || Announced(t[0]) != |t| || exists k :: 1 <= k < |t| && !IsTrail(t[k]) then None
    else
      var cp := TrailBits(LeadBits(t[0]), t[1..]);
      if Smallest(|t|) <= cp < 0x11_0000 then Some(cp) else None
  }

  /** Surrogates are no characters, though they have a place among the numbers. */
  predicate IsSurrogate(cp: nat) { 0xD800 <= cp < 0xE000 }

  /** A whole text as characters. */
  function ReadAll(t: Text): Option<seq<nat>> {
    if |t| == 0 then Some([])
    else
      var n := Announced(t[0]);
      if n == 0 || n > |t| then None
      else match ReadUtf8(t[..n])
        case None => None
        case Some(cp) =>
          if IsSurrogate(cp) then None
          else match ReadAll(t[n..])
            case None => None
            case Some(rest) => Some([cp] + rest)
  }

  // ---- the parser writes what the reader reads ------------------------------------------------------------

  /** Bytes that announce as many as they are. */
  predicate Complete(t: Text) {
    |t| > 0 && |t| == Announced(t[0]) && forall k :: 1 <= k < |t| ==> IsTrail(t[k])
  }

  /** The bits of such bytes, put together by length. */
  function BitSum(t: Text): int
    requires Complete(t)
  {
    if |t| == 1 then LeadBits(t[0])
    else if |t| == 2 then 64 * LeadBits(t[0]) + SixBits(t[1])
    else if |t| == 3 then 4096 * LeadBits(t[0]) + 64 * SixBits(t[1]) + SixBits(t[2])
    else 262144 * LeadBits(t[0]) + 4096 * SixBits(t[1]) + 64 * SixBits(t[2]) + SixBits(t[3])
  }

  lemma Bits2(lead: nat, a: u8)
    requires IsTrail(a)
    ensures TrailBits(lead, [a]) == 64 * lead + SixBits(a)
  {
    assert [a][1..] == [];
  }

  lemma Bits3(lead: nat, a: u8, b: u8)
    requires IsTrail(a) && IsTrail(b)
    ensures TrailBits(lead, [a, b]) == 4096 * lead + 64 * SixBits(a) + SixBits(b)
  {
    assert [a, b][1..] == [b];
    Bits2(64 * lead + SixBits(a), b);
  }

  lemma Bits4(lead: nat, a: u8, b: u8, c: u8)
    requires IsTrail(a) && IsTrail(b) && IsTrail(c)
    ensures TrailBits(lead, [a, b, c]) == 262144 * lead + 4096 * SixBits(a) + 64 * SixBits(b) + SixBits(c)
  {
    assert [a, b, c][1..] == [b, c];
    Bits3(64 * lead + SixBits(a), b, c);
  }

  lemma NoBits(bits: nat)
    ensures TrailBits(bits, []) == bits
  {
  }

  lemma BitsAddUp(t: Text)
    requires Complete(t)
    ensures TrailBits(LeadBits(t[0]), t[1..]) == BitSum(t)
  {
    hide TrailBits, LeadBits, SixBits;
    if |t| == 1 {
      assert t[1..] == [];
      NoBits(LeadBits(t[0]));
    } else if |t| == 2 {
      assert t[1..] == [t[1]];
      Bits2(LeadBits(t[0]), t[1]);
    } else if |t| == 3 {
      assert t[1..] == [t[1], t[2]];
      Bits3(LeadBits(t[0]), t[1], t[2]);
    } else {
      assert t[1..] == [t[1], t[2], t[3]];
      Bits4(LeadBits(t[0]), t[1], t[2], t[3]);
    }
  }

  lemma Base64(n: nat)
    ensures n == 64 * (n / 64) + n % 64
    ensures n / 64 == 64 * (n / 4096) + n / 64 % 64
    ensures n / 4096 == 64 * (n / 262144) + n / 4096 % 64
  {
  }

  lemma Utf8Complete(cp: nat)
    requires cp < 0x11_0000
    ensures Complete(Utf8(cp)) && Smallest(|Utf8(cp)|) <= cp && BitSum(Utf8(cp)) == cp
  {
    Base64(cp);
  }

  /** Six-bit digits are determined by the sum. */
  lemma SixBitDigits(q: nat, d: nat)
    requires d < 64
    ensures (64 * q + d) / 64 == q && (64 * q + d) % 64 == d
  {
  }

  lemma Digits3(cp: nat, a: nat, b: nat, c: nat)
    requires cp == 4096 * a + 64 * b + c && b < 64 && c < 64
    ensures cp / 4096 == a && cp / 64 % 64 == b && cp % 64 == c
  {
    SixBitDigits(64 * a + b, c);
    SixBitDigits(a, b);
    assert cp / 4096 == cp / 64 / 64;
  }

  lemma Digits4(cp: nat, a: nat, b: nat, c: nat, d: nat)
    requires cp == 262144 * a + 4096 * b + 64 * c + d && b < 64 && c < 64 && d < 64
    ensures cp / 262144 == a && cp / 4096 % 64 == b && cp / 64 % 64 == c && cp % 64 == d
  {
    SixBitDigits(4096 * a + 64 * b + c, d);
    Digits3(cp / 64, a, b, c);
    assert cp / 262144 == cp / 64 / 4096 && cp / 4096 == cp / 64 / 64;
  }

  lemma SumUnique(t: Text, cp: nat)
    requires Complete(t) && Smallest(|t|) <= cp < 0x11_0000 && BitSum(t) == cp
    ensures t == Utf8(cp)
  {
    if |t| == 2 {
      SixBitDigits(t[0] - 0xC0, t[1] - 0x80);
    } else if |t| == 3 {
      Digits3(cp, t[0] - 0xE0, t[1] - 0x80, t[2] - 0x80);
    } else if |t| == 4 {
      Digits4(cp, t[0] - 0xF0, t[1] - 0x80, t[2] - 0x80, t[3] - 0x80);
    }
  }

  /** The reader takes the parser's bytes for a code point, and no others, as that code point. */
  lemma ReadsUtf8(t: Text, cp: nat)
    requires cp < 0x11_0000
    ensures ReadUtf8(t) == Some(cp) <==> t == Utf8(cp)
  {
    hide TrailBits, Utf8, BitSum, LeadBits;
    Utf8Complete(cp);
    BitsAddUp(Utf8(cp));
    if ReadUtf8(t) == Some(cp) {
      BitsAddUp(t);
      SumUnique(t, cp);
    }
  }

  // ---- the ways to write a code point ---------------------------------------------------------------------

  const LOWER := "0123456789abcdef"
  const UPPER := "0123456789ABCDEF"

  /** `h` is a hexadecimal digit for `d`. */
  predicate Spells(h: u8, d: nat)
    requires d < 16
  {
    h == LOWER[d] as int || h == UPPER[d] as int
  }

  /** A backslash, a `u` and four digits for `unit` at byte `i`. */
  predicate UnitAt(s: Text, i: nat, unit: nat)
    requires unit < 0x1_0000
  {
    && i + 6 <= |s| && s[i] == '\\' as int && s[i + 1] == 'u' as int
    && Spells(s[i + 2], unit / 4096) && Spells(s[i + 3], unit / 256 % 16)
    && Spells(s[i + 4], unit / 16 % 16) && Spells(s[i + 5], unit % 16)
  }

  /** The two units of a code point above those that one unit can write. */
  function HighUnit(cp: nat): nat
    requires 0x1_0000 <= cp < 0x11_0000
  {
    0xD800 + (cp - 0x1_0000) / 1024
  }

  function LowUnit(cp: nat): nat
    requires 0x1_0000 <= cp < 0x11_0000
  {
    0xDC00 + (cp - 0x1_0000) % 1024
  }

  /** The letters of the short escapes and what they stand for. */
  predicate ShortEscape(letter: u8, cp: nat) {
    || (letter == '"' as int && cp == 0x22)
    || (letter == '\\' as int && cp == 0x5C)
    || (letter == '/' as int && cp == 0x2F)
    || (letter == 'b' as int && cp == 0x08)
    || (letter == 'f' as int && cp == 0x0C)
    || (letter == 'n' as int && cp == 0x0A)
    || (letter == 'r' as int && cp == 0x0D)
    || (letter == 't' as int && cp == 0x09)
  }

  /** The bytes from `i` to `j` write the character `cp`: as they are, by a short escape, by one unit or by
      two. */
  predicate Writes(s: Text, i: nat, j: nat, cp: nat)
    requires j <= |s|
  {
    && cp < 0x11_0000 && !IsSurrogate(cp) && i < j
    && (|| (ReadUtf8(s[i..j]) == Some(cp) && cp >= 0x20 && cp != 0x22 && cp != 0x5C)
        || (j == i + 2 && s[i] == '\\' as int && ShortEscape(s[i + 1], cp))
        || (j == i + 6 && cp < 0x1_0000 && UnitAt(s, i, cp))
        || (j == i + 12 && cp >= 0x1_0000 && UnitAt(s, i, HighUnit(cp)) && UnitAt(s, i + 6, LowUnit(cp))))
  }

  /** The bytes from `i` on, up to `j`, write these characters one after the other. */
  predicate WritesAll(s: Text, i: nat, j: nat, cps: seq<nat>)
    requires j <= |s|
    decreases |cps|
  {
    if |cps| == 0 then i == j
    else exists k :: i < k <= j && Writes(s, i, k, cps[0]) && WritesAll(s, k, j, cps[1..])
  }

  // ---- each is read ---------------------------------------------------------------------------------------

  lemma SpellsValue(h: u8, d: nat)
    requires d < 16 && Spells(h, d)
    ensures HexValue(h) == d
  {
  }

  lemma UnitRead(s: Text, i: nat, unit: nat)
    requires unit < 0x1_0000 && UnitAt(s, i, unit)
    ensures Hex4(s, i + 2) == Good(unit, i + 6)
  {
    hide Spells, HexValue;
    SpellsValue(s[i + 2], unit / 4096);
    SpellsValue(s[i + 3], unit / 256 % 16);
    SpellsValue(s[i + 4], unit / 16 % 16);
    SpellsValue(s[i + 5], unit % 16);
    Base16(unit);
  }

  lemma Base16(n: nat)
    ensures n == 4096 * (n / 4096) + 256 * (n / 256 % 16) + 16 * (n / 16 % 16) + n % 16
  {
    assert n / 16 == 16 * (n / 256) + n / 16 % 16;
    assert n / 256 == 16 * (n / 4096) + n / 256 % 16;
  }

  lemma IsEscape(s: Text, i: nat, unit: nat)
    requires unit < 0x1_0000 && UnitAt(s, i, unit)
    ensures s[i] == BACKSLASH && s[i + 1] == 117
  {
    hide Spells;
  }

  /** One unit for a character. */
  lemma OneUnit(s: Text, i: nat, cp: nat)
    requires cp < 0x1_0000 && !IsSurrogate(cp) && UnitAt(s, i, cp)
    ensures StringPart(s, i) == Good(Utf8(cp), i + 6)
  {
    hide UnitAt, Hex4, Utf8;
    IsEscape(s, i, cp);
    UnitRead(s, i, cp);
  }

  /** Two units for a character. */
  lemma TwoUnits(s: Text, i: nat, cp: nat)
    requires 0x1_0000 <= cp < 0x11_0000 && UnitAt(s, i, HighUnit(cp)) && UnitAt(s, i + 6, LowUnit(cp))
    ensures StringPart(s, i) == Good(Utf8(cp), i + 12)
  {
    hide UnitAt, Hex4, Utf8;
    IsEscape(s, i, HighUnit(cp));
    IsEscape(s, i + 6, LowUnit(cp));
    UnitRead(s, i, HighUnit(cp));
    UnitRead(s, i + 6, LowUnit(cp));
  }

  /** A surrogate that stands alone is kept, and gives bytes that are no UTF-8 text. */
  lemma LoneSurrogate(s: Text, i: nat, unit: nat)
    requires IsSurrogate(unit) && UnitAt(s, i, unit)
    requires unit >= 0xDC00 || i + 7 >= |s| || s[i + 6] != '\\' as int || s[i + 7] != 'u' as int
    ensures StringPart(s, i).Good? && StringPart(s, i).next == i + 6 && ReadAll(StringPart(s, i).value).None?
  {
    hide UnitAt, Hex4, Utf8, ReadUtf8;
    IsEscape(s, i, unit);
    UnitRead(s, i, unit);
    var t := Utf8(unit);
    ReadsUtf8(t, unit);
    Utf8Complete(unit);
    assert t[..|t|] == t;
  }

  /** Bytes that need no escape are taken as they are. */
  lemma {:induction false} Raw(s: Text, i: nat, j: nat, out: Text)
    requires i <= j <= |s| && forall k :: i <= k < j ==> s[k] >= 32 && s[k] != QUOTE && s[k] != BACKSLASH
    ensures StringRest(s, i, out) == StringRest(s, j, out + s[i..j])
    decreases j - i
  {
    if i == j {
      assert out + s[i..j] == out;
    } else {
      Raw(s, i + 1, j, out + [s[i]]);
      assert (out + [s[i]]) + s[i + 1..j] == out + s[i..j];
      assert StringPart(s, i) == Good([s[i]], i + 1);
    }
  }

  lemma RawBytes(t: Text, cp: nat, k: nat)
    requires ReadUtf8(t) == Some(cp) && cp >= 0x20 && cp != 0x22 && cp != 0x5C && k < |t|
    ensures t[k] >= 32 && t[k] != QUOTE && t[k] != BACKSLASH
  {
    hide TrailBits;
    BitsAddUp(t);
  }

  /** Whichever way a character is written, the parser adds its UTF-8 form. */
  lemma WritesRead(s: Text, i: nat, j: nat, cp: nat, out: Text)
    requires j <= |s| && Writes(s, i, j, cp)
    ensures StringRest(s, i, out) == StringRest(s, j, out + Utf8(cp))
  {
    hide Utf8, ReadUtf8, StringPart, UnitAt, ShortEscape;
    if ReadUtf8(s[i..j]) == Some(cp) && cp >= 0x20 && cp != 0x22 && cp != 0x5C {
      ReadsUtf8(s[i..j], cp);
      forall k | i <= k < j
        ensures s[k] >= 32 && s[k] != QUOTE && s[k] != BACKSLASH
      {
        assert s[k] == s[i..j][k - i];
        RawBytes(s[i..j], cp, k - i);
      }
      Raw(s, i, j, out);
    } else if j == i + 2 {
      ShortRead(s, i, cp);
      NextPart(s, i, j, Utf8(cp), out);
    } else if cp < 0x1_0000 {
      OneUnit(s, i, cp);
      IsEscape(s, i, cp);
      NextPart(s, i, j, Utf8(cp), out);
    } else {
      TwoUnits(s, i, cp);
      IsEscape(s, i, HighUnit(cp));
      NextPart(s, i, j, Utf8(cp), out);
    }
  }

  lemma ShortRead(s: Text, i: nat, cp: nat)
    requires i + 2 <= |s| && s[i] == '\\' as int && ShortEscape(s[i + 1], cp)
    ensures cp < 0x80 && s[i] == BACKSLASH && StringPart(s, i) == Good(Utf8(cp), i + 2)
  {
  }

  lemma NextPart(s: Text, i: nat, j: nat, part: Text, out: Text)
    requires i < |s| && s[i] != QUOTE && StringPart(s, i) == Good(part, j)
    ensures StringRest(s, i, out) == StringRest(s, j, out + part)
  {
    hide StringPart;
  }

  predicate Characters(cps: seq<nat>) {
    forall k :: 0 <= k < |cps| ==> cps[k] < 0x11_0000 && !IsSurrogate(cps[k])
  }

  /** The text of these characters. */
  function Utf8Text(cps: seq<nat>): Text
    requires Characters(cps)
  {
    if |cps| == 0 then [] else Utf8(cps[0]) + Utf8Text(cps[1..])
  }

  lemma {:induction false} ReadsText(cps: seq<nat>)
    requires Characters(cps)
    ensures ReadAll(Utf8Text(cps)) == Some(cps)
    decreases |cps|
  {
    hide Utf8, ReadUtf8;
    if |cps| > 0 {
      var t, rest := Utf8(cps[0]), Utf8Text(cps[1..]);
      ReadsText(cps[1..]);
      ReadsUtf8(t, cps[0]);
      Utf8Complete(cps[0]);
      assert (t + rest)[..|t|] == t && (t + rest)[|t|..] == rest && (t + rest)[0] == t[0];
      assert [cps[0]] + cps[1..] == cps;
    }
  }

  lemma {:induction false} WritesAllRead(s: Text, i: nat, j: nat, cps: seq<nat>, out: Text)
    requires j <= |s| && WritesAll(s, i, j, cps)
    ensures i <= j && Characters(cps)
    ensures StringRest(s, i, out) == StringRest(s, j, out + Utf8Text(cps))
    decreases |cps|
  {
    hide Utf8, StringRest, Writes, Characters, ReadUtf8;
    NoCharacters();
    if |cps| == 0 {
      assert out + Utf8Text(cps) == out;
    } else {
      var k :| i < k <= j && Writes(s, i, k, cps[0]) && WritesAll(s, k, j, cps[1..]);
      IsCharacter(s, i, k, cps[0]);
      WritesRead(s, i, k, cps[0], out);
      WritesAllRead(s, k, j, cps[1..], out + Utf8(cps[0]));
      OneCharacter(cps);
      assert (out + Utf8(cps[0])) + Utf8Text(cps[1..]) == out + Utf8Text(cps);
    }
  }

  lemma NoCharacters()
    ensures Characters([])
  {
  }

  lemma IsCharacter(s: Text, i: nat, j: nat, cp: nat)
    requires j <= |s| && Writes(s, i, j, cp)
    ensures cp < 0x11_0000 && !IsSurrogate(cp)
  {
  }

  lemma OneCharacter(cps: seq<nat>)
    requires |cps| > 0 && Characters(cps[1..]) && cps[0] < 0x11_0000 && !IsSurrogate(cps[0])
    ensures Characters(cps)
  {
    forall n | 0 <= n < |cps|
      ensures cps[n] < 0x11_0000 && !IsSurrogate(cps[n])
    {
      if n > 0 { assert cps[n] == cps[1..][n - 1]; }
    }
  }

  /** However the characters of a string are written, raw, by letter, by one unit or by two, in digits of
      either case, the parser's bytes are the UTF-8 text of exactly these characters. */
  lemma StringMeans(s: Text, i: nat, j: nat, cps: seq<nat>)
    requires i < j < |s| && s[i] == '"' as int && s[j] == '"' as int && WritesAll(s, i + 1, j, cps)
    ensures String(s, i).Good? && String(s, i).next == j + 1 && ReadAll(String(s, i).value) == Some(cps)
  {
    hide WritesAll, Utf8Text, ReadAll;
    WritesAllRead(s, i + 1, j, cps, []);
    assert [] + Utf8Text(cps) == Utf8Text(cps);
    assert StringRest(s, j, Utf8Text(cps)) == Good(Utf8Text(cps), j + 1);
    ReadsText(cps);
  }

  // ---- what the printer writes ------------------------------------------------------------------------------

  lemma ShortWrites(s: Text, i: nat, cp: nat)
    requires cp < 0x80 && StartsAt(s, i, EscapeByte(cp))
    ensures Writes(s, i, i + |EscapeByte(cp)|, cp)
  {
    hide ReadUtf8, UnitAt, HexDigit;
    var w := EscapeByte(cp);
    ByteAt(s, i, w, 0);
    if |w| == 1 {
      assert s[i..i + 1] == Utf8(cp);
      ReadsUtf8(s[i..i + 1], cp);
    } else if |w| == 2 {
      ByteAt(s, i, w, 1);
    } else {
      UnitWrites(s, i, cp);
    }
  }

  lemma UnitWrites(s: Text, i: nat, c: u8)
    requires c < 32 && StartsAt(s, i, [BACKSLASH, 117, ZERO, ZERO, HexDigit(c / 16), HexDigit(c % 16)])
    ensures UnitAt(s, i, c)
  {
    hide Spells, HexDigit, StartsAt;
    var w := [BACKSLASH, 117, ZERO, ZERO, HexDigit(c / 16), HexDigit(c % 16)];
    ByteAt(s, i, w, 0);
    ByteAt(s, i, w, 1);
    ByteAt(s, i, w, 2);
    ByteAt(s, i, w, 3);
    ByteAt(s, i, w, 4);
    ByteAt(s, i, w, 5);
    DigitSpells(c / 16);
    DigitSpells(c % 16);
    assert Spells(ZERO, 0) by { DigitSpells(0); ZeroDigit(); }
  }

  lemma ZeroDigit()
    ensures HexDigit(0) == ZERO
  {
  }

  lemma DigitSpells(d: nat)
    requires d < 16
    ensures HexDigit(d) == LOWER[d] as int && Spells(HexDigit(d), d)
  {
  }

  lemma {:induction false} HighBytes(s: Text, i: nat, t: Text, k: nat, j: nat)
    requires k <= j <= |t| && (forall n :: k <= n < j ==> t[n] >= 0x80) && StartsAt(s, i, EscapeFrom(t, k))
    ensures i + (j - k) <= |s| && s[i..i + (j - k)] == t[k..j] && StartsAt(s, i + (j - k), EscapeFrom(t, j))
    ensures |EscapeFrom(t, k)| == j - k + |EscapeFrom(t, j)|
    decreases j - k
  {
    hide EscapeByte;
    if k < j {
      HighByte(t[k]);
      Split(s, i, [t[k]], EscapeFrom(t, k + 1));
      ByteAt(s, i, [t[k]], 0);
      HighBytes(s, i + 1, t, k + 1, j);
      assert s[i..i + (j - k)] == [s[i]] + s[i + 1..i + (j - k)];
      assert t[k..j] == [t[k]] + t[k + 1..j];
    }
  }

  lemma HighByte(c: u8)
    requires c >= 0x80
    ensures EscapeByte(c) == [c]
  {
  }

  lemma Utf8High(cp: nat)
    requires 0x80 <= cp < 0x11_0000
    ensures forall k :: 0 <= k < |Utf8(cp)| ==> Utf8(cp)[k] >= 0x80
  {
  }

  /** One character in the middle of a text that is being printed. */
  lemma PrintedCharacter(s: Text, i: nat, before: Text, cp: nat, after: Text) returns (j: nat)
    requires cp < 0x11_0000 && !IsSurrogate(cp)
    requires var t := before + Utf8(cp) + after; StartsAt(s, i, EscapeFrom(t, |before|))
    ensures i < j <= |s| && Writes(s, i, j, cp)
    ensures var t, k := before + Utf8(cp) + after, |before + Utf8(cp)|;
            StartsAt(s, j, EscapeFrom(t, k)) && j + |EscapeFrom(t, k)| == i + |EscapeFrom(t, |before|)|
  {
    hide Utf8, ReadUtf8, EscapeByte, EscapeFrom;
    var t, w, k := before + Utf8(cp) + after, Utf8(cp), |before|;
    ReadsUtf8(w, cp);
    if cp < 0x80 {
      assert w == [cp] by { OneByte(cp); }
      assert t[k] == cp;
      EscapeStep(t, k);
      Split(s, i, EscapeByte(cp), EscapeFrom(t, k + 1));
      ShortWrites(s, i, cp);
      j := i + |EscapeByte(cp)|;
    } else {
      Utf8High(cp);
      forall n | k <= n < k + |w|
        ensures t[n] >= 0x80
      {
        assert t[n] == w[n - k];
      }
      HighBytes(s, i, t, k, k + |w|);
      assert t[k..k + |w|] == w;
      j := i + |w|;
      Utf8Complete(cp);
    }
  }

  lemma OneByte(cp: nat)
    requires cp < 0x80
    ensures Utf8(cp) == [cp]
  {
  }

  lemma EscapeStep(t: Text, k: nat)
    requires k < |t|
    ensures EscapeFrom(t, k) == EscapeByte(t[k]) + EscapeFrom(t, k + 1)
  {
    hide EscapeByte;
  }

  lemma {:induction false} PrintedRest(s: Text, i: nat, before: Text, cps: seq<nat>) returns (j: nat)
    requires Characters(cps) && StartsAt(s, i, EscapeFrom(before + Utf8Text(cps), |before|))
    ensures i <= j < |s| && s[j] == QUOTE && WritesAll(s, i, j, cps)
    ensures j + 1 == i + |EscapeFrom(before + Utf8Text(cps), |before|)|
    decreases |cps|
  {
    hide Utf8, EscapeByte, Writes;
    if |cps| == 0 {
      ByteAt(s, i, [QUOTE], 0);
      j := i;
    } else {
      var w, rest := Utf8(cps[0]), Utf8Text(cps[1..]);
      assert before + Utf8Text(cps) == before + w + rest;
      var k := PrintedCharacter(s, i, before, cps[0], rest);
      j := PrintedRest(s, k, before + w, cps[1..]);
    }
  }

  /** Quoting a text writes its characters between two quotes. */
  lemma QuotedMeans(cps: seq<nat>)
    requires Characters(cps)
    ensures var s := Quoted(Utf8Text(cps));
            && |s| >= 2 && s[0] == '"' as int && s[|s| - 1] == '"' as int
            && WritesAll(s, 1, |s| - 1, cps)
  {
    hide Utf8Text, EscapeFrom, WritesAll;
    var t, s := Utf8Text(cps), Quoted(Utf8Text(cps));
    assert [] + t == t && s[1..] == EscapeFrom(t, 0);
    var j := PrintedRest(s, 1, [], cps);
  }

  // ---- the characters of the grammar -----------------------------------------------------------------------

  predicate IsWord(t: Text, word: string) {
    |t| == |word| && forall k :: 0 <= k < |t| ==> t[k] == word[k] as int
  }

  /** The bytes the printer writes and the parser looks for are the characters of section 2 of RFC 8259. */
  lemma Signs()
    ensures OPEN_LIST == '[' as int && CLOSE_LIST == ']' as int && OPEN_OBJECT == '{' as int
    ensures CLOSE_OBJECT == '}' as int && COLON == ':' as int && COMMA == ',' as int && QUOTE == '"' as int
    ensures MINUS == '-' as int && PLUS == '+' as int && DOT == '.' as int
    ensures IsWord(NULL_WORD, "null") && IsWord(TRUE_WORD, "true") && IsWord(FALSE_WORD, "false")
    ensures forall c: u8 :: IsSpace(c) <==> c == ' ' as int || c == '\t' as int || c == '\n' as int || c == '\r' as int
    ensures forall c: u8 :: IsDigit(c) <==> '0' as int <= c <= '9' as int
    ensures MAX_DEPTH == 64
    ensures forall c: u8 :: IsRealMark(c) <==> c == '.' as int || c == 'e' as int || c == 'E' as int
  {
  }
}

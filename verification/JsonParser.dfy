/** The recursive-descent parser of agent/src/json.cpp: a cursor that moves over the text, and the
    grammar it follows. */
module JsonParser {
  import opened Bytes
  import opened Json
  import opened Wrappers

  /** What a parsing step finds: nothing it accepts, or a value and where the text goes on. */
  datatype Parsed<T> = Fail | Good(value: T, next: nat)

  // ---- the grammar --------------------------------------------------------------------------------------------

  predicate IsSpace(c: u8) { c == SPACE || c == TAB || c == NEWLINE || c == RETURN }

  function SkipSpace(s: Text, i: nat): (j: nat)
    requires i <= |s|
    ensures i <= j <= |s|
    decreases |s| - i
  {
    if i < |s| && IsSpace(s[i]) then SkipSpace(s, i + 1) else i
  }

  predicate StartsAt(s: Text, i: nat, word: Text) { i + |word| <= |s| && s[i..i + |word|] == word }

  function HexValue(c: u8): int {
    if ZERO <= c <= ZERO + 9 then c - ZERO
    else if 97 <= c <= 102 then c - 97 + 10
    else if 65 <= c <= 70 then c - 65 + 10
    else -1
  }

  function Hex4(s: Text, i: nat): (r: Parsed<nat>)
    requires i <= |s|
    ensures r.Good? ==> r.next == i + 4 <= |s| && r.value < 0x1_0000
  {
    if i + 4 > |s| then Fail
    else
      var a, b, c, d := HexValue(s[i]), HexValue(s[i + 1]), HexValue(s[i + 2]), HexValue(s[i + 3]);
      if a < 0 || b < 0 || c < 0 || d < 0 then Fail else Good(4096 * a + 256 * b + 16 * c + d, i + 4)
  }

  /** The UTF-8 form of a code point. */
  function Utf8(cp: nat): Text
    requires cp < 0x11_0000
  {
    if cp < 0x80 then [cp]
    else if cp < 0x800 then [0xC0 + cp / 64, 0x80 + cp % 64]
    else if cp < 0x1_0000 then [0xE0 + cp / 4096, 0x80 + cp / 64 % 64, 0x80 + cp % 64]
    else [0xF0 + cp / 262144, 0x80 + cp / 4096 % 64, 0x80 + cp / 64 % 64, 0x80 + cp % 64]
  }

  /** The single-letter escapes. */
  function PlainEscape(e: u8): int {
    if e == QUOTE || e == BACKSLASH || e == SLASH then e
    else if e == 98 then 8
    else if e == 102 then 12
    else if e == 110 then NEWLINE
    else if e == 114 then RETURN
    else if e == 116 then TAB
    else -1
  }

  /** The code point behind `\u`; a high surrogate takes the low one after it, if there is one. */
  function CodePoint(s: Text, i: nat): (r: Parsed<nat>)
    requires i <= |s|
    ensures r.Good? ==> i < r.next <= |s| && r.value < 0x11_0000
  {
    match Hex4(s, i)
    case Fail => Fail
    case Good(hi, j) =>
      if 0xD800 <= hi <= 0xDBFF && j + 1 < |s| && s[j] == BACKSLASH && s[j + 1] == 117 then
        match Hex4(s, j + 2)
        case Fail => Fail
        case Good(lo, k) =>
          if 0xDC00 <= lo <= 0xDFFF then Good(0x1_0000 + (hi - 0xD800) * 1024 + (lo - 0xDC00), k) else Good(hi, j)
      else Good(hi, j)
  }

  /** One byte or escape of a string's inside. */
  function StringPart(s: Text, i: nat): (r: Parsed<Text>)
    requires i < |s|
    ensures r.Good? ==> i < r.next <= |s|
  {
    if s[i] != BACKSLASH then (if s[i] < 32 then Fail else Good([s[i]], i + 1))
    else if i + 1 >= |s| then Fail
    else if PlainEscape(s[i + 1]) >= 0 then Good([PlainEscape(s[i + 1])], i + 2)
    else if s[i + 1] == 117 then
      match CodePoint(s, i + 2)
      case Fail => Fail
      case Good(cp, j) => Good(Utf8(cp), j)
    else Fail
  }

  /** The rest of a string after its opening quote. */
  function StringRest(s: Text, i: nat, out: Text): (r: Parsed<Text>)
    requires i <= |s|
    ensures r.Good? ==> i < r.next <= |s|
    decreases |s| - i
  {
    if i >= |s| then Fail
    else if s[i] == QUOTE then Good(out, i + 1)
    else
      match StringPart(s, i)
      case Fail => Fail
      case Good(part, j) => StringRest(s, j, out + part)
  }

  function String(s: Text, i: nat): (r: Parsed<Text>)
    requires i <= |s|
    ensures r.Good? ==> i < r.next <= |s|
  {
    if i >= |s| || s[i] != QUOTE then Fail else StringRest(s, i + 1, [])
  }

  predicate IsDigit(c: u8) { ZERO <= c <= ZERO + 9 }

  predicate IsRealMark(c: u8) { c == DOT || c == 101 || c == 69 }

  predicate IsSign(c: u8) { c == MINUS || c == PLUS }

  /** Does byte `i` belong to the number scanned so far? */
  predicate InNumber(s: Text, i: nat)
    requires 0 < i < |s|
  {
    IsDigit(s[i]) || IsRealMark(s[i]) || (IsSign(s[i]) && (s[i - 1] == 101 || s[i - 1] == 69))
  }

  function NumberEnd(s: Text, i: nat): (j: nat)
    requires 0 < i <= |s|
    ensures i <= j <= |s|
    decreases |s| - i
  {
    if i < |s| && InNumber(s, i) then NumberEnd(s, i + 1) else i
  }

  predicate AnyDigit(t: Text) { exists k :: 0 <= k < |t| && IsDigit(t[k]) }

  predicate AnyReal(t: Text) { exists k :: 0 <= k < |t| && IsRealMark(t[k]) }

  /** `strtoll` on the text the scanner lets through: a sign and digits. */
  function DigitsValue(t: Text): nat
  {
    if |t| == 0 then 0 else 10 * DigitsValue(t[..|t| - 1]) + if IsDigit(t[|t| - 1]) then t[|t| - 1] - ZERO else 0
  }

  function IntValue(t: Text): int
    requires |t| > 0
  {
    if t[0] == MINUS then 0 - DigitsValue(t[1..]) else if t[0] == PLUS then DigitsValue(t[1..]) else DigitsValue(t)
  }

  predicate FitsI64(i: int) { -0x8000_0000_0000_0000 <= i < 0x8000_0000_0000_0000 }

  /** What a number's text means. */
  function NumberOf(lib: Library, t: Text): Option<Number> {
    if !AnyDigit(t) then None
    else if !AnyReal(t) && FitsI64(IntValue(t)) then Some(Integer(IntValue(t)))
    else match lib.strtod(t) case None => None case Some(bits) => Some(Double(bits))
  }

  /** The first byte is taken whether it is a sign or belongs to the number; the rest as long as it does. */
  function NumberStop(s: Text, i: nat): (j: nat)
    requires i <= |s|
    ensures i <= j <= |s|
  {
    if i < |s| && (IsSign(s[i]) || IsDigit(s[i]) || IsRealMark(s[i])) then NumberEnd(s, i + 1) else i
  }

  function Word(s: Text, i: nat, word: Text, v: Json): (r: Parsed<Json>)
    requires i <= |s| && |word| > 0
    ensures r.Good? ==> i < r.next <= |s|
  {
    if StartsAt(s, i, word) then Good(v, i + |word|) else Fail
  }

  function NumberAt(lib: Library, s: Text, i: nat): (r: Parsed<Json>)
    requires i <= |s|
    ensures r.Good? ==> i < r.next <= |s|
  {
    var j := NumberStop(s, i);
    match NumberOf(lib, s[i..j])
    case None => Fail
    case Some(n) => if i < j then Good(Num(n), j) else Fail
  }

  /** A value at byte `i`, `depth` levels down. */
  function Value(lib: Library, s: Text, i: nat, depth: nat): (r: Parsed<Json>)
    requires i <= |s|
    ensures r.Good? ==> i < r.next <= |s|
    decreases |s| - i, 1
  {
    if depth > MAX_DEPTH || i >= |s| then Fail
    else if s[i] == OPEN_OBJECT then
      var j := SkipSpace(s, i + 1);
      if j < |s| && s[j] == CLOSE_OBJECT then Good(Obj([]), j + 1) else Members(lib, s, j, depth, [])
    else if s[i] == OPEN_LIST then
      var j := SkipSpace(s, i + 1);
      if j < |s| && s[j] == CLOSE_LIST then Good(Arr([]), j + 1) else Items(lib, s, j, depth, [])
    else if s[i] == QUOTE then
      match String(s, i) case Fail => Fail case Good(t, j) => Good(Str(t), j)
    else if s[i] == TRUE_WORD[0] then Word(s, i, TRUE_WORD, Bool(true))
    else if s[i] == FALSE_WORD[0] then Word(s, i, FALSE_WORD, Bool(false))
    else if s[i] == NULL_WORD[0] then Word(s, i, NULL_WORD, Null)
    else NumberAt(lib, s, i)
  }

  /** The items of a list from byte `i` on, after those already read. */
  function Items(lib: Library, s: Text, i: nat, depth: nat, items: seq<Json>): (r: Parsed<Json>)
    requires i <= |s|
    ensures r.Good? ==> i < r.next <= |s|
    decreases |s| - i, 2
  {
    match Value(lib, s, SkipSpace(s, i), depth + 1)
    case Fail => Fail
    case Good(v, j) =>
      var k := SkipSpace(s, j);
      if k >= |s| then Fail
      else if s[k] == COMMA then Items(lib, s, k + 1, depth, items + [v])
      else if s[k] == CLOSE_LIST then Good(Arr(items + [v]), k + 1)
      else Fail
  }

  /** A key with its colon. */
  function Key(s: Text, i: nat): (r: Parsed<Text>)
    requires i <= |s|
    ensures r.Good? ==> i < r.next <= |s|
  {
    match String(s, SkipSpace(s, i))
    case Fail => Fail
    case Good(key, j) =>
      var k := SkipSpace(s, j);
      if k >= |s| || s[k] != COLON then Fail else Good(key, k + 1)
  }

  function Members(lib: Library, s: Text, i: nat, depth: nat, ms: seq<Member>): (r: Parsed<Json>)
    requires i <= |s|
    ensures r.Good? ==> i < r.next <= |s|
    decreases |s| - i, 2
  {
    match Key(s, i)
    case Fail => Fail
    case Good(key, h) =>
      match Value(lib, s, SkipSpace(s, h), depth + 1)
      case Fail => Fail
      case Good(v, j) =>
        var k := SkipSpace(s, j);
        if k >= |s| then Fail
        else if s[k] == COMMA then Members(lib, s, k + 1, depth, SetMember(ms, key, v))
        else if s[k] == CLOSE_OBJECT then Good(Obj(SetMember(ms, key, v)), k + 1)
        else Fail
  }

  lemma MembersStep(lib: Library, s: Text, i: nat, depth: nat, ms: seq<Member>, key: Text, h: nat)
    requires i <= |s| && Key(s, i) == Good(key, h)
    ensures var r := Value(lib, s, SkipSpace(s, h), depth + 1);
            match r
            case Fail => Members(lib, s, i, depth, ms) == Fail
            case Good(v, j) =>
              var k, more := SkipSpace(s, j), SetMember(ms, key, v);
              Members(lib, s, i, depth, ms) ==
                if k >= |s| then Fail else if s[k] == COMMA then Members(lib, s, k + 1, depth, more)
                else if s[k] == CLOSE_OBJECT then Good(Obj(more), k + 1) else Fail
  {
    hide Value, SkipSpace, Key, SetMember, DistinctKeys;
  }

  lemma MembersFail(lib: Library, s: Text, i: nat, depth: nat, ms: seq<Member>)
    requires i <= |s| && Key(s, i).Fail?
    ensures Members(lib, s, i, depth, ms).Fail?
  {
    hide Value, SkipSpace, Key, SetMember, DistinctKeys;
  }

  lemma ObjectValue(lib: Library, s: Text, i: nat, depth: nat)
    requires i < |s| && s[i] == OPEN_OBJECT && depth <= MAX_DEPTH
    ensures var j := SkipSpace(s, i + 1);
            Value(lib, s, i, depth) == if j < |s| && s[j] == CLOSE_OBJECT then Good(Obj([]), j + 1)
              else Members(lib, s, j, depth, [])
  {
    hide SkipSpace, Members;
  }

  lemma ListValue(lib: Library, s: Text, i: nat, depth: nat)
    requires i < |s| && s[i] == OPEN_LIST && depth <= MAX_DEPTH
    ensures var j := SkipSpace(s, i + 1);
            Value(lib, s, i, depth) == if j < |s| && s[j] == CLOSE_LIST then Good(Arr([]), j + 1)
              else Items(lib, s, j, depth, [])
  {
    hide SkipSpace, Items;
  }

  /** `Json::parse`: nothing may follow the value. */
  function Parse(lib: Library, s: Text): Option<Json> {
    match Value(lib, s, SkipSpace(s, 0), 0)
    case Fail => None
    case Good(v, j) => if SkipSpace(s, j) == |s| then Some(v) else None
  }

  // ---- the parser ----------------------------------------------------------------------------------------------

  /** What a parser call must answer, and where it leaves the cursor. */
  predicate Follows<T(==)>(r: Option<T>, i: nat, p: Parsed<T>) {
    match p case Fail => r.None? case Good(v, j) => r == Some(v) && i == j
  }

  class Parser {
    const s: Text
    const lib: Library
    var i: nat

    constructor (lib: Library, text: Text)
      ensures this.s == text && this.lib == lib && i == 0
    {
      this.s, this.lib, i := text, lib, 0;
    }

    method Skip()
      requires i <= |s|
      modifies this
      ensures i == SkipSpace(s, old(i))
    {
      while i < |s| && IsSpace(s[i])
        invariant old(i) <= i <= |s| && SkipSpace(s, i) == SkipSpace(s, old(i))
      {
        i := i + 1;
      }
    }

    method ParseHex4() returns (r: Option<nat>)
      requires i <= |s|
      modifies this
      ensures i <= |s| && Follows(r, i, Hex4(s, old(i)))
    {
      if i + 4 > |s| { return None; }
      var h := s[i..i + 4];
      var v: nat := 0;
      var k := 0;
      while k < 4
        invariant 0 <= k <= 4 && i == old(i)
        invariant forall m :: 0 <= m < k ==> HexValue(h[m]) >= 0
        invariant v == if k == 0 then 0 else if k == 1 then HexValue(h[0])
                  else if k == 2 then 16 * HexValue(h[0]) + HexValue(h[1])
                       else if k == 3 then 256 * HexValue(h[0]) + 16 * HexValue(h[1]) + HexValue(h[2])
                       else 4096 * HexValue(h[0]) + 256 * HexValue(h[1]) + 16 * HexValue(h[2]) + HexValue(h[3])
      {
        var d := HexValue(h[k]);
        if d < 0 { return None; }
        v := 16 * v + d;
        k := k + 1;
      }
      i := i + 4;
      r := Some(v);
    }

    /** The `\u` case of `parseString`. */
    method ParseCodePoint() returns (r: Option<nat>)
      requires i <= |s|
      modifies this
      ensures i <= |s| && Follows(r, i, CodePoint(s, old(i)))
    {
      hide Hex4;
      var hi := ParseHex4();
      if hi.None? { return None; }
      var cp := hi.value;
      if 0xD800 <= cp <= 0xDBFF && i + 1 < |s| && s[i] == BACKSLASH && s[i + 1] == 117 {
        var save := i;
        i := i + 2;
        var lo := ParseHex4();
        if lo.None? { return None; }
        if 0xDC00 <= lo.value <= 0xDFFF {
          cp := 0x1_0000 + (cp - 0xD800) * 1024 + (lo.value - 0xDC00);
        } else {
          i := save;
        }
      }
      r := Some(cp);
    }

    method ParsePart() returns (r: Option<Text>)
      requires i < |s|
      modifies this
      ensures i <= |s| && Follows(r, i, StringPart(s, old(i)))
    {
      hide Utf8;
      var c := s[i];
      i := i + 1;
      if c != BACKSLASH { return if c < 32 then None else Some([c]); }
      if i >= |s| { return None; }
      var e := s[i];
      i := i + 1;
      var p := PlainEscape(e);
      if p >= 0 { return Some([p]); }
      if e != 117 { return None; }
      var cp := ParseCodePoint();
      if cp.None? { return None; }
      assert CodePoint(s, old(i) + 2).Good?;
      r := Some(Utf8(cp.value));
    }

    method ParseString() returns (r: Option<Text>)
      requires i <= |s|
      modifies this
      ensures i <= |s| && Follows(r, i, String(s, old(i)))
    {
      hide StringPart;
      if i >= |s| || s[i] != QUOTE { return None; }
      i := i + 1;
      var out: Text := [];
      while true
        invariant old(i) < i <= |s| && StringRest(s, i, out) == StringRest(s, old(i) + 1, [])
        decreases |s| - i
      {
        if i >= |s| { return None; }
        if s[i] == QUOTE {
          i := i + 1;
          return Some(out);
        }
        var part := ParsePart();
        if part.None? { return None; }
        out := out + part.value;
      }
    }

    method ParseNumber() returns (r: Option<Json>)
      requires i < |s|
      modifies this
      ensures i <= |s| && Follows(r, i, NumberAt(lib, s, old(i)))
    {
      hide NumberOf;
      var start := i;
      if IsSign(s[i]) || IsDigit(s[i]) || IsRealMark(s[i]) {
        i := i + 1;
        while i < |s| && InNumber(s, i)
          invariant start < i <= |s| && NumberEnd(s, i) == NumberEnd(s, start + 1)
        {
          i := i + 1;
        }
      }
      var n := NumberOf(lib, s[start..i]);
      if n.None? || i == start { return None; }
      r := Some(Num(n.value));
    }

    method ParseWord(word: Text, v: Json) returns (r: Option<Json>)
      requires i <= |s| && |word| > 0
      modifies this
      ensures i <= |s| && Follows(r, i, Word(s, old(i), word, v))
    {
      if !StartsAt(s, i, word) { return None; }
      i := i + |word|;
      r := Some(v);
    }

    method ParseValue(depth: nat) returns (r: Option<Json>)
      requires i <= |s|
      modifies this
      ensures i <= |s| && Follows(r, i, Value(lib, s, old(i), depth))
      decreases |s| - i, 1
    {
      hide String, NumberAt, Word, SkipSpace;
      if depth > MAX_DEPTH { return None; }
      if i >= |s| { return None; }
      if s[i] == OPEN_OBJECT {
        r := ParseObject(depth);
      } else if s[i] == OPEN_LIST {
        r := ParseArray(depth);
      } else if s[i] == QUOTE {
        var t := ParseString();
        if t.None? { return None; }
        r := Some(Str(t.value));
      } else if s[i] == TRUE_WORD[0] {
        r := ParseWord(TRUE_WORD, Bool(true));
      } else if s[i] == FALSE_WORD[0] {
        r := ParseWord(FALSE_WORD, Bool(false));
      } else if s[i] == NULL_WORD[0] {
        r := ParseWord(NULL_WORD, Null);
      } else {
        r := ParseNumber();
      }
    }

    method ParseArray(depth: nat) returns (r: Option<Json>)
      requires i < |s| && s[i] == OPEN_LIST && depth <= MAX_DEPTH
      modifies this
      ensures i <= |s| && Follows(r, i, Value(lib, s, old(i), depth))
      decreases |s| - i, 0
    {
      hide Value, SkipSpace;
      ListValue(lib, s, i, depth);
      i := i + 1;
      Skip();
      if i < |s| && s[i] == CLOSE_LIST {
        i := i + 1;
        return Some(Arr([]));
      }
      ghost var first := i;
      var items: seq<Json> := [];
      while true
        invariant old(i) < i <= |s| && Items(lib, s, i, depth, items) == Items(lib, s, first, depth, [])
        decreases |s| - i
      {
        Skip();
        var v := ParseValue(depth + 1);
        if v.None? { return None; }
        items := items + [v.value];
        Skip();
        if i >= |s| { return None; }
        if s[i] == COMMA {
          i := i + 1;
        } else if s[i] == CLOSE_LIST {
          i := i + 1;
          return Some(Arr(items));
        } else {
          return None;
        }
      }
    }

    method ParseKey() returns (r: Option<Text>)
      requires i <= |s|
      modifies this
      ensures i <= |s| && Follows(r, i, Key(s, old(i)))
    {
      hide String, SkipSpace;
      Skip();
      var key := ParseString();
      if key.None? { return None; }
      Skip();
      if i >= |s| || s[i] != COLON { return None; }
      i := i + 1;
      r := key;
    }

    method ParseObject(depth: nat) returns (r: Option<Json>)
      requires i < |s| && s[i] == OPEN_OBJECT && depth <= MAX_DEPTH
      modifies this
      ensures i <= |s| && Follows(r, i, Value(lib, s, old(i), depth))
      decreases |s| - i, 0
    {
      hide Value, SkipSpace, Key, SetMember, DistinctKeys, Members;
      ObjectValue(lib, s, i, depth);
      i := i + 1;
      Skip();
      if i < |s| && s[i] == CLOSE_OBJECT {
        i := i + 1;
        return Some(Obj([]));
      }
      ghost var first := i;
      var o := Obj([]);
      while true
        invariant old(i) < i <= |s| && o.Obj?
                  && Members(lib, s, i, depth, o.members) == Members(lib, s, first, depth, [])
        decreases |s| - i
      {
        ghost var at := i;
        var key := ParseKey();
        if key.None? {
          MembersFail(lib, s, at, depth, o.members);
          return None;
        }
        MembersStep(lib, s, at, depth, o.members, key.value, i);
        Skip();
        var v := ParseValue(depth + 1);
        if v.None? { return None; }
        o := Set(o, key.value, v.value);
        Skip();
        if i >= |s| { return None; }
        if s[i] == COMMA {
          i := i + 1;
        } else if s[i] == CLOSE_OBJECT {
          i := i + 1;
          return Some(o);
        } else {
          return None;
        }
      }
    }

    method ParseDocument() returns (r: Option<Json>)
      requires i == 0
      modifies this
      ensures r == Parse(lib, s)
    {
      hide Value, SkipSpace;
      Skip();
      r := ParseValue(0);
      if r.None? { return; }
      Skip();
      if i != |s| { return None; }
    }
  }
}

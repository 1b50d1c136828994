/** JSON values and their text (agent/src/json.cpp; sections 3 to 7 and 9 of RFC 8259). Text is a
    sequence of bytes. */
module Json {
  import opened Bytes
  import opened Wrappers

  type Text = seq<u8>

  const MAX_DEPTH := 64

  /** Only integers are printed exactly; other numbers are known by the bits of their double. */
  datatype Number = Integer(i: int) | Double(bits: nat)

  datatype Json =
    | Null
    | Bool(b: bool)
    | Num(n: Number)
    | Str(s: Text)
    | Arr(items: seq<Json>)
    | Obj(members: seq<Member>)

  datatype Member = Member(key: Text, value: Json)

  /** The C library's part: reading and printing doubles. */
  datatype Library = Library(strtod: Text -> Option<nat>, printDouble: nat -> Text)

  // ---- characters ----------------------------------------------------------------------------------------

  const TAB: u8 := 9
  const NEWLINE: u8 := 10
  const RETURN: u8 := 13
  const SPACE: u8 := 32
  const QUOTE: u8 := 34
  const PLUS: u8 := 43
  const COMMA: u8 := 44
  const MINUS: u8 := 45
  const DOT: u8 := 46
  const SLASH: u8 := 47
  const ZERO: u8 := 48
  const COLON: u8 := 58
  const OPEN_LIST: u8 := 91
  const BACKSLASH: u8 := 92
  const CLOSE_LIST: u8 := 93
  const OPEN_OBJECT: u8 := 123
  const CLOSE_OBJECT: u8 := 125

  const NULL_WORD: Text := [110, 117, 108, 108]
  const TRUE_WORD: Text := [116, 114, 117, 101]
  const FALSE_WORD: Text := [102, 97, 108, 115, 101]

  // ---- building ---------------------------------------------------------------------------------------------

  /** Position of a key, or the number of members. */
  function Find(ms: seq<Member>, key: Text): (k: nat)
    ensures k <= |ms| && (k < |ms| ==> ms[k].key == key) && forall j :: 0 <= j < k ==> ms[j].key != key
  {
    if |ms| == 0 || ms[0].key == key then 0 else 1 + Find(ms[1..], key)
  }

  function SetMember(ms: seq<Member>, key: Text, v: Json): seq<Member> {
    var k := Find(ms, key);
    if k < |ms| then ms[k := Member(key, v)] else ms + [Member(key, v)]
  }

  ghost predicate DistinctKeys(ms: seq<Member>) {
    forall i, j :: 0 <= i < j < |ms| ==> ms[i].key != ms[j].key
  }

  /** `Json::set`: an existing key keeps its place; a value that is no object becomes one. */
  method Set(o: Json, key: Text, v: Json) returns (r: Json)
    ensures r == Obj(SetMember(if o.Obj? then o.members else [], key, v))
    ensures o.Obj? && DistinctKeys(o.members) ==> DistinctKeys(r.members)
  {
    var ms := if o.Obj? then o.members else [];
    var i := 0;
    while i < |ms|
      invariant 0 <= i <= |ms| && forall j :: 0 <= j < i ==> ms[j].key != key
    {
      if ms[i].key == key {
        assert Find(ms, key) == i;
        return Obj(ms[i := Member(key, v)]);
      }
      i := i + 1;
    }
    r := Obj(ms + [Member(key, v)]);
  }

  /** What the building functions can produce with integral numbers: distinct keys and 64-bit integers. */
  ghost predicate Built(v: Json)
    decreases v
  {
    match v
    case Num(n) => n.Integer? && -0x8000_0000_0000_0000 <= n.i < 0x8000_0000_0000_0000
    case Arr(items) => forall i :: 0 <= i < |items| ==> Built(items[i])
    case Obj(members) => DistinctKeys(members) && forall i :: 0 <= i < |members| ==> Built(members[i].value)
    case _ => true
  }

  function Max(a: nat, b: nat): nat { if a < b then b else a }

  /** Levels of nesting below a value; an empty list or object nests nothing. */
  function Height(v: Json): nat
    decreases v
  {
    match v
    case Arr(items) => if items == [] then 0 else 1 + ItemsHeight(items)
    case Obj(members) => if members == [] then 0 else 1 + MembersHeight(members)
    case _ => 0
  }

  function ItemsHeight(items: seq<Json>): nat
    decreases items
  {
    if |items| == 0 then 0 else Max(Height(items[0]), ItemsHeight(items[1..]))
  }

  function MembersHeight(ms: seq<Member>): nat
    decreases ms
  {
    if |ms| == 0 then 0 else Max(Height(ms[0].value), MembersHeight(ms[1..]))
  }

  // ---- printing ---------------------------------------------------------------------------------------------

  function HexDigit(d: nat): u8
    requires d < 16
  {
    if d < 10 then ZERO + d else 97 + (d - 10)
  }

  /** One byte of a string; only quotes, backslashes and control characters are escaped. */
  function EscapeByte(c: u8): Text {
    if c == QUOTE then [BACKSLASH, QUOTE]
    else if c == BACKSLASH then [BACKSLASH, BACKSLASH]
    else if c == NEWLINE then [BACKSLASH, 110]
    else if c == RETURN then [BACKSLASH, 114]
    else if c == TAB then [BACKSLASH, 116]
    else if c == 8 then [BACKSLASH, 98]
    else if c == 12 then [BACKSLASH, 102]
    else if c < 32 then [BACKSLASH, 117, ZERO, ZERO, HexDigit(c / 16), HexDigit(c % 16)]
    else [c]
  }

  function EscapeFrom(s: Text, i: nat): Text
    requires i <= |s|
    decreases |s| - i
  {
    if i == |s| then [QUOTE] else EscapeByte(s[i]) + EscapeFrom(s, i + 1)
  }

  function Quoted(s: Text): Text { [QUOTE] + EscapeFrom(s, 0) }

  method EscapeInto(out: Text, s: Text) returns (r: Text)
    ensures r == out + Quoted(s)
  {
    hide EscapeByte;
    r := out + [QUOTE];
    var i := 0;
    while i < |s|
      invariant 0 <= i <= |s| && r + EscapeFrom(s, i) == out + Quoted(s)
    {
      assert (r + EscapeByte(s[i])) + EscapeFrom(s, i + 1) == r + (EscapeByte(s[i]) + EscapeFrom(s, i + 1));
      r := r + EscapeByte(s[i]);
      i := i + 1;
    }
    r := r + [QUOTE];
  }

  function Digits(n: nat): (t: Text)
    ensures |t| > 0 && forall i :: 0 <= i < |t| ==> ZERO <= t[i] <= ZERO + 9
  {
    if n < 10 then [ZERO + n] else Digits(n / 10) + [ZERO + n % 10]
  }

  /** `std::to_string`. */
  function IntText(i: int): Text { if i < 0 then [MINUS] + Digits(-i) else Digits(i) }

  function Spaces(n: nat): (t: Text)
    ensures |t| == n && forall i :: 0 <= i < n ==> t[i] == SPACE
  {
    seq(n, i => SPACE)
  }

  function Indent(indent: int, depth: nat): Text {
    if indent <= 0 then [] else [NEWLINE] + Spaces(indent * depth)
  }

  function Comma(i: nat): Text { if i == 0 then [] else [COMMA] }

  function NumberText(lib: Library, n: Number): Text {
    match n case Integer(i) => IntText(i) case Double(bits) => lib.printDouble(bits)
  }

  /** `appendTo`: what is printed for a value at a depth. Below the depth limit the content is cut. */
  function Print(lib: Library, v: Json, indent: int, depth: nat): Text
    decreases v, 0
  {
    match v
    case Null => NULL_WORD
    case Bool(b) => if b then TRUE_WORD else FALSE_WORD
    case Num(n) => NumberText(lib, n)
    case Str(s) => Quoted(s)
    case Arr(items) =>
      if items == [] then [OPEN_LIST, CLOSE_LIST] else [OPEN_LIST] + PrintItems(lib, items, 0, indent, depth)
    case Obj(members) =>
      if members == [] then [OPEN_OBJECT, CLOSE_OBJECT]
          else [OPEN_OBJECT] + PrintMembers(lib, members, 0, indent, depth)
  }

  /** A value one level down, unless that is too deep. */
  function PrintChild(lib: Library, v: Json, indent: int, depth: nat): Text
    decreases v, 1
  {
    if depth + 1 > MAX_DEPTH then NULL_WORD else Print(lib, v, indent, depth + 1)
  }

  /** The items from `i` on and the closing bracket. */
  function PrintItems(lib: Library, items: seq<Json>, i: nat, indent: int, depth: nat): Text
    requires i <= |items|
    decreases items, |items| - i
  {
    if i == |items| then Indent(indent, depth) + [CLOSE_LIST]
    else Comma(i) + Indent(indent, depth + 1) + PrintChild(lib, items[i], indent, depth) +
         PrintItems(lib, items, i + 1, indent, depth)
  }

  function KeyText(key: Text, indent: int): Text {
    Quoted(key) + [COLON] + if indent > 0 then [SPACE] else []
  }

  function PrintMembers(lib: Library, ms: seq<Member>, i: nat, indent: int, depth: nat): Text
    requires i <= |ms|
    decreases ms, |ms| - i
  {
    if i == |ms| then Indent(indent, depth) + [CLOSE_OBJECT]
    else Comma(i) + Indent(indent, depth + 1) + KeyText(ms[i].key, indent) +
         PrintChild(lib, ms[i].value, indent, depth) + PrintMembers(lib, ms, i + 1, indent, depth)
  }

  method IndentInto(out: Text, indent: int, depth: nat) returns (r: Text)
    ensures r == out + Indent(indent, depth)
  {
    if indent <= 0 { return out; }
    r := out + [NEWLINE] + Spaces(indent * depth);
  }

  method AppendChild(lib: Library, v: Json, out: Text, indent: int, depth: nat) returns (r: Text)
    ensures r == out + PrintChild(lib, v, indent, depth)
    decreases v, 1
  {
    if depth + 1 > MAX_DEPTH {
      r := out + NULL_WORD;
    } else {
      r := AppendTo(lib, v, out, indent, depth + 1);
    }
  }

  method AppendTo(lib: Library, v: Json, out: Text, indent: int, depth: nat) returns (r: Text)
    ensures r == out + Print(lib, v, indent, depth)
    decreases v, 0
  {
    hide Quoted, Indent, Comma, PrintChild, IntText;
    match v {
      case Null => r := out + NULL_WORD;
      case Bool(b) => r := out + if b then TRUE_WORD else FALSE_WORD;
      case Num(n) => r := out + NumberText(lib, n);
      case Str(s) => r := EscapeInto(out, s);
      case Arr(items) =>
        if items == [] { return out + [OPEN_LIST, CLOSE_LIST]; }
        r := out + [OPEN_LIST];
        var i := 0;
        while i < |items|
          invariant 0 <= i <= |items| && r + PrintItems(lib, items, i, indent, depth)
                    == out + Print(lib, v, indent, depth)
        {
          ghost var was := r;
          if i != 0 { r := r + [COMMA]; }
          assert r == was + Comma(i) by { CommaIs(was, i); }
          r := IndentInto(r, indent, depth + 1);
          r := AppendChild(lib, items[i], r, indent, depth);
          Joined(was, Comma(i), Indent(indent, depth + 1), PrintChild(lib, items[i], indent, depth),
            PrintItems(lib, items, i + 1, indent, depth));
          i := i + 1;
        }
        r := IndentInto(r, indent, depth);
        r := r + [CLOSE_LIST];
      case Obj(members) =>
        if members == [] { return out + [OPEN_OBJECT, CLOSE_OBJECT]; }
        r := out + [OPEN_OBJECT];
        var i := 0;
        while i < |members|
          invariant 0 <= i <= |members|
                    && r + PrintMembers(lib, members, i, indent, depth) == out + Print(lib, v, indent, depth)
        {
          ghost var was := r;
          r := AppendMember(lib, members, i, r, indent, depth);
          i := i + 1;
        }
        r := IndentInto(r, indent, depth);
        r := r + [CLOSE_OBJECT];
    }
  }

  method AppendKey(out: Text, key: Text, indent: int) returns (r: Text)
    ensures r == out + KeyText(key, indent)
  {
    hide Quoted;
    r := EscapeInto(out, key);
    r := r + [COLON];
    if indent > 0 { r := r + [SPACE]; }
    assert r == out + KeyText(key, indent);
  }

  method AppendMember(lib: Library, ms: seq<Member>, i: nat, out: Text, indent: int, depth: nat) returns (r: Text)
    requires i < |ms|
    ensures r + PrintMembers(lib, ms, i + 1, indent, depth) == out + PrintMembers(lib, ms, i, indent, depth)
    decreases ms
  {
    hide Indent, Comma, PrintChild, KeyText;
    r := out;
    if i != 0 { r := r + [COMMA]; }
    assert r == out + Comma(i) by { CommaIs(out, i); }
    r := IndentInto(r, indent, depth + 1);
    r := AppendKey(r, ms[i].key, indent);
    r := AppendChild(lib, ms[i].value, r, indent, depth);
    Joined5(out, Comma(i), Indent(indent, depth + 1), KeyText(ms[i].key, indent),
      PrintChild(lib, ms[i].value, indent, depth), PrintMembers(lib, ms, i + 1, indent, depth));
  }

  lemma Joined5(a: Text, b: Text, c: Text, d: Text, e: Text, f: Text)
    ensures ((((a + b) + c) + d) + e) + f == a + ((((b + c) + d) + e) + f)
  {
  }

  lemma CommaIs(out: Text, i: nat)
    ensures out + Comma(i) == if i != 0 then out + [COMMA] else out
  {
  }

  lemma Joined(a: Text, b: Text, c: Text, d: Text, e: Text)
    ensures (((a + b) + c) + d) + e == a + (((b + c) + d) + e)
  {
  }

  method Dump(lib: Library, v: Json, indent: int) returns (t: Text)
    ensures t == Print(lib, v, indent, 0)
  {
    t := AppendTo(lib, v, [], indent, 0);
  }
}

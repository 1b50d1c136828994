/** Parsing undoes printing, and exactly how deep a value may nest for that. */
module JsonRoundTrip {
  import opened Bytes
  import opened Json
  import opened JsonParser
  import opened Wrappers

  // ---- reading text that starts somewhere ---------------------------------------------------------------

  lemma Split(s: Text, i: nat, a: Text, b: Text)
    requires StartsAt(s, i, a + b)
    ensures StartsAt(s, i, a) && StartsAt(s, i + |a|, b)
  {
    assert s[i..i + |a|] == s[i..i + |a + b|][..|a|];
    assert s[i + |a|..i + |a| + |b|] == s[i..i + |a + b|][|a|..];
  }

  lemma ByteAt(s: Text, i: nat, w: Text, k: nat)
    requires StartsAt(s, i, w) && k < |w|
    ensures i + k < |s| && s[i + k] == w[k]
  {
    assert s[i..i + |w|][k] == w[k];
  }

  /** Where a value may end: the text ends, or a comma, a bracket or a line break follows. */
  predicate Stop(s: Text, j: nat) {
    j == |s| || (j < |s| && (s[j] == COMMA || s[j] == CLOSE_LIST || s[j] == CLOSE_OBJECT || s[j] == NEWLINE))
  }

  lemma {:induction false} SkipSpaces(s: Text, i: nat, n: nat)
    requires i + n < |s| && (forall k :: i <= k < i + n ==> s[k] == SPACE) && !IsSpace(s[i + n])
    ensures SkipSpace(s, i) == i + n
    decreases n
  {
    if n > 0 { SkipSpaces(s, i + 1, n - 1); }
  }

  lemma SkipIndent(s: Text, i: nat, indent: int, depth: nat)
    requires StartsAt(s, i, Indent(indent, depth))
    requires var j := i + |Indent(indent, depth)|; j < |s| && !IsSpace(s[j])
    ensures SkipSpace(s, i) == i + |Indent(indent, depth)|
  {
    if indent > 0 {
      var n := indent * depth;
      var w := Indent(indent, depth);
      ByteAt(s, i, w, 0);
      forall k | i + 1 <= k < i + 1 + n ensures s[k] == SPACE {
        ByteAt(s, i, w, k - i);
      }
      SkipSpaces(s, i + 1, n);
    }
  }

  lemma {:induction false} SkipTwice(s: Text, i: nat)
    requires i <= |s|
    ensures SkipSpace(s, SkipSpace(s, i)) == SkipSpace(s, i)
    decreases |s| - i
  {
    if i < |s| && IsSpace(s[i]) { SkipTwice(s, i + 1); }
  }

  // ---- strings --------------------------------------------------------------------------------------------

  lemma HexBack(d: nat)
    requires d < 16
    ensures HexValue(HexDigit(d)) == d
  {
  }

  lemma ControlBack(s: Text, i: nat, c: u8)
    requires c < 32 && StartsAt(s, i, [BACKSLASH, 117, ZERO, ZERO, HexDigit(c / 16), HexDigit(c % 16)])
    ensures StringPart(s, i) == Good([c], i + 6)
  {
    hide HexDigit, HexValue;
    var w := [BACKSLASH, 117, ZERO, ZERO, HexDigit(c / 16), HexDigit(c % 16)];
    ByteAt(s, i, w, 0);
    ByteAt(s, i, w, 1);
    ByteAt(s, i, w, 2);
    ByteAt(s, i, w, 3);
    ByteAt(s, i, w, 4);
    ByteAt(s, i, w, 5);
    HexBack(c / 16);
    HexBack(c % 16);
    assert HexValue(ZERO) == 0 by { HexZero(); }
    assert Hex4(s, i + 2) == Good(16 * (c / 16) + c % 16, i + 6);
    assert CodePoint(s, i + 2) == Good(c, i + 6);
    assert Utf8(c) == [c];
  }

  lemma HexZero()
    ensures HexValue(ZERO) == 0
  {
  }

  /** Every byte comes back from its escape, control characters and raw high bytes included. */
  lemma EscapeBack(s: Text, i: nat, c: u8)
    requires StartsAt(s, i, EscapeByte(c))
    ensures i < |s| && s[i] != QUOTE && StringPart(s, i) == Good([c], i + |EscapeByte(c)|)
  {
    hide Hex4, CodePoint, HexDigit;
    ByteAt(s, i, EscapeByte(c), 0);
    if |EscapeByte(c)| == 2 {
      ByteAt(s, i, EscapeByte(c), 1);
    } else if |EscapeByte(c)| == 6 {
      ControlBack(s, i, c);
    }
  }

  lemma {:induction false} RestBack(s: Text, i: nat, t: Text, k: nat)
    requires k <= |t| && StartsAt(s, i, EscapeFrom(t, k))
    ensures StringRest(s, i, t[..k]) == Good(t, i + |EscapeFrom(t, k)|)
    decreases |t| - k
  {
    hide EscapeByte, StringPart;
    if k == |t| {
      ByteAt(s, i, [QUOTE], 0);
      assert t[..k] == t;
    } else {
      Split(s, i, EscapeByte(t[k]), EscapeFrom(t, k + 1));
      EscapeBack(s, i, t[k]);
      assert t[..k] + [t[k]] == t[..k + 1];
      RestBack(s, i + |EscapeByte(t[k])|, t, k + 1);
    }
  }

  /** Any byte string survives quoting. */
  lemma StringBack(s: Text, i: nat, t: Text)
    requires StartsAt(s, i, Quoted(t))
    ensures String(s, i) == Good(t, i + |Quoted(t)|)
  {
    hide EscapeFrom, StringRest;
    Split(s, i, [QUOTE], EscapeFrom(t, 0));
    ByteAt(s, i, [QUOTE], 0);
    assert t[..0] == [];
    RestBack(s, i + 1, t, 0);
  }

  // ---- integers ----------------------------------------------------------------------------------------------

  lemma {:induction false} DigitsBack(n: nat)
    ensures DigitsValue(Digits(n)) == n
  {
    if n >= 10 {
      DigitsBack(n / 10);
      assert Digits(n)[..|Digits(n)| - 1] == Digits(n / 10);
    } else {
      assert Digits(n)[..0] == [];
    }
  }

  lemma {:induction false} NumberEnds(s: Text, i: nat, j: nat)
    requires 0 < i <= j <= |s| && (forall k :: i <= k < j ==> IsDigit(s[k])) && Stop(s, j)
    ensures NumberEnd(s, i) == j
    decreases j - i
  {
    if i < j { NumberEnds(s, i + 1, j); }
  }

  lemma IntBack(lib: Library, i: int)
    requires FitsI64(i)
    ensures NumberOf(lib, IntText(i)) == Some(Integer(i))
  {
    hide Digits, DigitsValue;
    var d := Digits(if i < 0 then -i else i);
    DigitsBack(if i < 0 then -i else i);
    var t := IntText(i);
    assert i < 0 ==> t[1..] == d;
    assert IsDigit(t[|t| - 1]);
    forall k | 0 <= k < |t| ensures !IsRealMark(t[k]) {
      assert t[k] == MINUS || IsDigit(t[k]);
    }
  }

  lemma NumberBack(lib: Library, s: Text, at: nat, i: int)
    requires FitsI64(i) && StartsAt(s, at, IntText(i)) && Stop(s, at + |IntText(i)|)
    ensures NumberAt(lib, s, at) == Good(Num(Integer(i)), at + |IntText(i)|)
  {
    hide Digits, NumberOf, NumberEnd;
    var t := IntText(i);
    ByteAt(s, at, t, 0);
    forall k | at + 1 <= k < at + |t| ensures IsDigit(s[k]) {
      ByteAt(s, at, t, k - at);
    }
    NumberEnds(s, at + 1, at + |t|);
    IntBack(lib, i);
  }

  // ---- how printed values begin and end ---------------------------------------------------------------------

  /** A printed value starts with a byte that is no space, no closing bracket and no comma. */
  lemma FirstByte(lib: Library, v: Json, indent: int, d: nat)
    requires Built(v)
    ensures |Print(lib, v, indent, d)| > 0
    ensures var c := Print(lib, v, indent, d)[0]; !IsSpace(c) && c != CLOSE_LIST && c != CLOSE_OBJECT
  {
    hide PrintItems, PrintMembers, EscapeFrom, Digits;
    match v {
      case Num(n) => assert IntText(n.i)[0] == MINUS || IsDigit(IntText(n.i)[0]);
      case _ =>
    }
  }

  lemma ChildFirstByte(lib: Library, v: Json, indent: int, d: nat)
    requires Built(v)
    ensures |PrintChild(lib, v, indent, d)| > 0
    ensures var c := PrintChild(lib, v, indent, d)[0]; !IsSpace(c) && c != CLOSE_LIST && c != CLOSE_OBJECT
  {
    hide Print;
    if d + 1 <= MAX_DEPTH { FirstByte(lib, v, indent, d + 1); }
  }

  /** What follows an item is a place to stop. */
  lemma ItemsStop(lib: Library, items: seq<Json>, k: nat, indent: int, d: nat, s: Text, i: nat)
    requires 0 < k <= |items| && StartsAt(s, i, PrintItems(lib, items, k, indent, d))
    ensures Stop(s, i) && i < |s|
  {
    hide PrintChild;
    var w := PrintItems(lib, items, k, indent, d);
    ByteAt(s, i, w, 0);
  }

  lemma MembersStop(lib: Library, ms: seq<Member>, k: nat, indent: int, d: nat, s: Text, i: nat)
    requires 0 < k <= |ms| && StartsAt(s, i, PrintMembers(lib, ms, k, indent, d))
    ensures Stop(s, i) && i < |s|
  {
    hide PrintChild, KeyText;
    var w := PrintMembers(lib, ms, k, indent, d);
    ByteAt(s, i, w, 0);
  }

  // ---- heights ---------------------------------------------------------------------------------------------

  lemma {:induction false} ItemHeight(items: seq<Json>, k: nat)
    requires k < |items|
    ensures Height(items[k]) <= ItemsHeight(items)
  {
    if k > 0 { ItemHeight(items[1..], k - 1); }
  }

  lemma {:induction false} HighestItem(items: seq<Json>) returns (k: nat)
    requires |items| > 0
    ensures k < |items| && Height(items[k]) == ItemsHeight(items)
  {
    if |items| == 1 || Height(items[0]) >= ItemsHeight(items[1..]) {
      k := 0;
    } else {
      k := HighestItem(items[1..]);
      k := k + 1;
    }
  }

  lemma {:induction false} MemberHeight(ms: seq<Member>, k: nat)
    requires k < |ms|
    ensures Height(ms[k].value) <= MembersHeight(ms)
  {
    if k > 0 { MemberHeight(ms[1..], k - 1); }
  }

  lemma {:induction false} HighestMember(ms: seq<Member>) returns (k: nat)
    requires |ms| > 0
    ensures k < |ms| && Height(ms[k].value) == MembersHeight(ms)
  {
    if |ms| == 1 || Height(ms[0].value) >= MembersHeight(ms[1..]) {
      k := 0;
    } else {
      k := HighestMember(ms[1..]);
      k := k + 1;
    }
  }

  // ---- lists -------------------------------------------------------------------------------------------------

  /** The items from `k` on, without the comma before. */
  function ItemsTail(lib: Library, items: seq<Json>, k: nat, indent: int, d: nat): Text
    requires k < |items|
  {
    Indent(indent, d + 1) + (PrintChild(lib, items[k], indent, d) + PrintItems(lib, items, k + 1, indent, d))
  }

  lemma ItemsSplit(lib: Library, items: seq<Json>, k: nat, indent: int, d: nat)
    requires k < |items|
    ensures PrintItems(lib, items, k, indent, d) == Comma(k) + ItemsTail(lib, items, k, indent, d)
  {
    hide PrintChild, Indent, Comma;
    assert Comma(k) + Indent(indent, d + 1) + PrintChild(lib, items[k], indent, d)
           + PrintItems(lib, items, k + 1, indent, d)
        == Comma(k) + (Indent(indent, d + 1)
          + (PrintChild(lib, items[k], indent, d) + PrintItems(lib, items, k + 1, indent, d)));
  }

  lemma ItemsSkip(lib: Library, s: Text, i: nat, d: nat, items: seq<Json>)
    requires i <= |s|
    ensures Items(lib, s, SkipSpace(s, i), d, items) == Items(lib, s, i, d, items)
  {
    hide SkipSpace, Value;
    SkipTwice(s, i);
  }

  /** Item `k` starts behind its indentation and is followed by a stop. */
  lemma ItemPlace(lib: Library, items: seq<Json>, k: nat, indent: int, d: nat, s: Text, i: nat)
    requires k < |items| && Built(items[k]) && StartsAt(s, i, ItemsTail(lib, items, k, indent, d))
    ensures var i1 := i + |Indent(indent, d + 1)|; var j := i1 + |PrintChild(lib, items[k], indent, d)|;
            && SkipSpace(s, i) == i1 && i1 < |s| && s[i1] != CLOSE_LIST
               && StartsAt(s, i1, PrintChild(lib, items[k], indent, d))
            && StartsAt(s, j, PrintItems(lib, items, k + 1, indent, d)) && Stop(s, j)
            && i + |ItemsTail(lib, items, k, indent, d)| == j + |PrintItems(lib, items, k + 1, indent, d)|
  {
    hide PrintChild, Indent, PrintItems, Stop, Built, StartsAt;
    var w := PrintChild(lib, items[k], indent, d);
    var i1 := i + |Indent(indent, d + 1)|;
    Split(s, i, Indent(indent, d + 1), w + PrintItems(lib, items, k + 1, indent, d));
    Split(s, i1, w, PrintItems(lib, items, k + 1, indent, d));
    ChildFirstByte(lib, items[k], indent, d);
    ByteAt(s, i1, w, 0);
    SkipIndent(s, i, indent, d + 1);
    ItemsStop(lib, items, k + 1, indent, d, s, i1 + |w|);
  }

  /** Behind the last item comes the closing bracket. */
  lemma LastItem(lib: Library, items: seq<Json>, indent: int, d: nat, s: Text, j: nat)
    requires StartsAt(s, j, PrintItems(lib, items, |items|, indent, d))
    ensures var k := j + |Indent(indent, d)|; SkipSpace(s, j) == k && k < |s| && s[k] == CLOSE_LIST
    ensures |PrintItems(lib, items, |items|, indent, d)| == |Indent(indent, d)| + 1
  {
    hide Indent;
    Split(s, j, Indent(indent, d), [CLOSE_LIST]);
    ByteAt(s, j + |Indent(indent, d)|, [CLOSE_LIST], 0);
    SkipIndent(s, j, indent, d);
  }

  /** Between items comes a comma. */
  lemma NextItem(lib: Library, items: seq<Json>, k: nat, indent: int, d: nat, s: Text, j: nat)
    requires 0 < k < |items| && StartsAt(s, j, PrintItems(lib, items, k, indent, d))
    ensures SkipSpace(s, j) == j && j < |s| && s[j] == COMMA && StartsAt(s, j + 1, ItemsTail(lib, items, k, indent, d))
    ensures |PrintItems(lib, items, k, indent, d)| == 1 + |ItemsTail(lib, items, k, indent, d)|
  {
    hide ItemsTail, PrintItems;
    ItemsSplit(lib, items, k, indent, d);
    Split(s, j, [COMMA], ItemsTail(lib, items, k, indent, d));
    ByteAt(s, j, [COMMA], 0);
  }

  lemma ItemsStep(lib: Library, s: Text, i: nat, d: nat, items: seq<Json>)
    requires i <= |s|
    ensures match Value(lib, s, SkipSpace(s, i), d + 1)
            case Fail => Items(lib, s, i, d, items) == Fail
            case Good(v, j) =>
              var k := SkipSpace(s, j);
              && (k < |s| && s[k] == CLOSE_LIST ==> Items(lib, s, i, d, items) == Good(Arr(items + [v]), k + 1))
              && (k < |s| && s[k] == COMMA ==> Items(lib, s, i, d, items) == Items(lib, s, k + 1, d, items + [v]))
  {
    hide Value, SkipSpace;
  }

  lemma {:induction false} ItemsBack(lib: Library, items: seq<Json>, k: nat, indent: int, d: nat, s: Text, i: nat)
    requires k < |items| && (forall j :: 0 <= j < |items| ==> Built(items[j]) && d + 1 + Height(items[j]) <= MAX_DEPTH)
    requires StartsAt(s, i, ItemsTail(lib, items, k, indent, d))
    ensures Items(lib, s, i, d, items[..k]) == Good(Arr(items), i + |ItemsTail(lib, items, k, indent, d)|)
    decreases items, |items| - k
  {
    hide Indent, Height, Built, Value, SkipSpace, PrintItems, Print, Items, ItemsTail, StartsAt, Stop;
    ItemPlace(lib, items, k, indent, d, s, i);
    ItemsStep(lib, s, i, d, items[..k]);
    var i1 := i + |Indent(indent, d + 1)|;
    var j := i1 + |PrintChild(lib, items[k], indent, d)|;
    ValueBack(lib, items[k], indent, d + 1, s, i1);
    assert items[..k] + [items[k]] == items[..k + 1];
    if k + 1 == |items| {
      LastItem(lib, items, indent, d, s, j);
      assert items[..k + 1] == items;
    } else {
      NextItem(lib, items, k + 1, indent, d, s, j);
      ItemsBack(lib, items, k + 1, indent, d, s, j + 1);
    }
  }

  /** A printed value reads back, wherever in a text it stands. */
  lemma {:induction false} ValueBack(lib: Library, v: Json, indent: int, d: nat, s: Text, i: nat)
    requires Built(v) && d + Height(v) <= MAX_DEPTH && StartsAt(s, i, Print(lib, v, indent, d))
             && Stop(s, i + |Print(lib, v, indent, d)|)
    ensures Value(lib, s, i, d) == Good(v, i + |Print(lib, v, indent, d)|)
    decreases v
  {
    match v {
      case Null => WordBack(s, i, NULL_WORD);
      case Bool(b) => WordBack(s, i, if b then TRUE_WORD else FALSE_WORD);
      case Num(n) => NumberValueBack(lib, n.i, d, s, i);
      case Str(t) => StringValueBack(lib, t, d, s, i);
      case Arr(items) =>
        if items == [] {
          EmptyListBack(lib, d, s, i);
        } else {
          forall j | 0 <= j < |items|
            ensures Built(items[j]) && d + 1 + Height(items[j]) <= MAX_DEPTH
          {
            ItemHeight(items, j);
          }
          ListPlace(lib, items, indent, d, s, i);
          ItemsBack(lib, items, 0, indent, d, s, i + 1);
          assert items[..0] == [];
        }
      case Obj(members) =>
        if members == [] {
          EmptyObjectBack(lib, d, s, i);
        } else {
          forall j | 0 <= j < |members|
            ensures Built(members[j].value) && d + 1 + Height(members[j].value) <= MAX_DEPTH
          {
            MemberHeight(members, j);
          }
          ObjectPlace(lib, members, indent, d, s, i);
          MembersBack(lib, members, 0, indent, d, s, i + 1);
          assert members[..0] == [];
        }
    }
  }

  lemma WordBack(s: Text, i: nat, word: Text)
    requires StartsAt(s, i, word) && |word| > 0
    ensures i < |s| && s[i] == word[0]
  {
    ByteAt(s, i, word, 0);
  }

  lemma NumberValueBack(lib: Library, n: int, d: nat, s: Text, i: nat)
    requires FitsI64(n) && d <= MAX_DEPTH && StartsAt(s, i, IntText(n)) && Stop(s, i + |IntText(n)|)
    ensures Value(lib, s, i, d) == Good(Num(Integer(n)), i + |IntText(n)|)
  {
    hide Digits, NumberAt;
    ByteAt(s, i, IntText(n), 0);
    NumberBack(lib, s, i, n);
  }

  lemma StringValueBack(lib: Library, t: Text, d: nat, s: Text, i: nat)
    requires d <= MAX_DEPTH && StartsAt(s, i, Quoted(t))
    ensures Value(lib, s, i, d) == Good(Str(t), i + |Quoted(t)|)
  {
    hide EscapeFrom, String;
    ByteAt(s, i, Quoted(t), 0);
    StringBack(s, i, t);
  }

  lemma EmptyListBack(lib: Library, d: nat, s: Text, i: nat)
    requires d <= MAX_DEPTH && StartsAt(s, i, [OPEN_LIST, CLOSE_LIST])
    ensures Value(lib, s, i, d) == Good(Arr([]), i + 2)
  {
    ByteAt(s, i, [OPEN_LIST, CLOSE_LIST], 0);
    ByteAt(s, i, [OPEN_LIST, CLOSE_LIST], 1);
  }

  lemma EmptyObjectBack(lib: Library, d: nat, s: Text, i: nat)
    requires d <= MAX_DEPTH && StartsAt(s, i, [OPEN_OBJECT, CLOSE_OBJECT])
    ensures Value(lib, s, i, d) == Good(Obj([]), i + 2)
  {
    ByteAt(s, i, [OPEN_OBJECT, CLOSE_OBJECT], 0);
    ByteAt(s, i, [OPEN_OBJECT, CLOSE_OBJECT], 1);
  }

  /** A list that is not empty reads as its items. */
  lemma ListPlace(lib: Library, items: seq<Json>, indent: int, d: nat, s: Text, i: nat)
    requires |items| > 0 && Built(items[0]) && d <= MAX_DEPTH && StartsAt(s, i, Print(lib, Arr(items), indent, d))
    ensures StartsAt(s, i + 1, ItemsTail(lib, items, 0, indent, d))
    ensures |Print(lib, Arr(items), indent, d)| == 1 + |ItemsTail(lib, items, 0, indent, d)|
    ensures Value(lib, s, i, d) == Items(lib, s, i + 1, d, [])
  {
    hide PrintItems, Items, ItemsTail, Built, SkipSpace, StartsAt, Stop, PrintChild, Indent;
    ItemsSplit(lib, items, 0, indent, d);
    var w := ItemsTail(lib, items, 0, indent, d);
    assert Print(lib, Arr(items), indent, d) == [OPEN_LIST] + w;
    Split(s, i, [OPEN_LIST], w);
    ByteAt(s, i, [OPEN_LIST], 0);
    ItemPlace(lib, items, 0, indent, d, s, i + 1);
    ItemsSkip(lib, s, i + 1, d, []);
  }

  // ---- objects -----------------------------------------------------------------------------------------------

  /** The members from `k` on, without the comma before. */
  function MembersTail(lib: Library, ms: seq<Member>, k: nat, indent: int, d: nat): Text
    requires k < |ms|
  {
    Indent(indent, d + 1)
      + (KeyText(ms[k].key, indent)
        + (PrintChild(lib, ms[k].value, indent, d) + PrintMembers(lib, ms, k + 1, indent, d)))
  }

  lemma MembersSplit(lib: Library, ms: seq<Member>, k: nat, indent: int, d: nat)
    requires k < |ms|
    ensures PrintMembers(lib, ms, k, indent, d) == Comma(k) + MembersTail(lib, ms, k, indent, d)
  {
    hide PrintChild, Indent, Comma, KeyText;
    assert Comma(k) + Indent(indent, d + 1) + KeyText(ms[k].key, indent) + PrintChild(lib, ms[k].value, indent, d)
           + PrintMembers(lib, ms, k + 1, indent, d)
        == Comma(k) + (Indent(indent, d + 1)
          + (KeyText(ms[k].key, indent)
            + (PrintChild(lib, ms[k].value, indent, d) + PrintMembers(lib, ms, k + 1, indent, d))));
  }

  lemma MembersSkip(lib: Library, s: Text, i: nat, d: nat, ms: seq<Member>)
    requires i <= |s|
    ensures Members(lib, s, SkipSpace(s, i), d, ms) == Members(lib, s, i, d, ms)
  {
    hide SkipSpace, Value, String;
    SkipTwice(s, i);
  }

  /** A key reads back up to its colon, and the value starts behind the blank that may follow. */
  lemma KeyBack(s: Text, i: nat, key: Text, indent: int, d: nat, rest: Text)
    requires StartsAt(s, i, Indent(indent, d + 1) + (KeyText(key, indent) + rest)) && |rest| > 0 && !IsSpace(rest[0])
    ensures var i1 := i + |Indent(indent, d + 1)|; var h := i1 + |Quoted(key)| + 1;
            && SkipSpace(s, i) == i1 && i1 < |s| && s[i1] == QUOTE && Key(s, i) == Good(key, h)
            && SkipSpace(s, h) == i1 + |KeyText(key, indent)| && StartsAt(s, i1 + |KeyText(key, indent)|, rest)
  {
    hide Indent, String, StartsAt, Quoted, SkipSpace;
    var i1 := i + |Indent(indent, d + 1)|;
    var h := i1 + |Quoted(key)| + 1;
    var blank: Text := if indent > 0 then [SPACE] else [];
    Split(s, i, Indent(indent, d + 1), KeyText(key, indent) + rest);
    Split(s, i1, KeyText(key, indent), rest);
    ByteAt(s, i1 + |KeyText(key, indent)|, rest, 0);
    assert KeyText(key, indent) == Quoted(key) + ([COLON] + blank);
    Split(s, i1, Quoted(key), [COLON] + blank);
    Split(s, h - 1, [COLON], blank);
    ByteAt(s, h - 1, [COLON], 0);
    QuoteFirst(s, i1, key);
    SkipIndent(s, i, indent, d + 1);
    StringBack(s, i1, key);
    NoSkip(s, h - 1);
    if indent > 0 { ByteAt(s, h, blank, 0); }
    SkipSpaces(s, h, |blank|);
  }

  lemma QuoteFirst(s: Text, i: nat, key: Text)
    requires StartsAt(s, i, Quoted(key))
    ensures i < |s| && s[i] == QUOTE
  {
    hide EscapeFrom;
    ByteAt(s, i, Quoted(key), 0);
  }

  lemma NoSkip(s: Text, i: nat)
    requires i < |s| && !IsSpace(s[i])
    ensures SkipSpace(s, i) == i
  {
  }

  lemma MemberPlace(lib: Library, ms: seq<Member>, k: nat, indent: int, d: nat, s: Text, i: nat)
    requires k < |ms| && Built(ms[k].value) && StartsAt(s, i, MembersTail(lib, ms, k, indent, d))
    ensures var i1 := i + |Indent(indent, d + 1)|;
            var h, i2 := i1 + |Quoted(ms[k].key)| + 1, i1 + |KeyText(ms[k].key, indent)|;
            var j := i2 + |PrintChild(lib, ms[k].value, indent, d)|;
            && SkipSpace(s, i) == i1 && i1 < |s| && s[i1] == QUOTE && Key(s, i) == Good(ms[k].key, h)
               && SkipSpace(s, h) == i2
            && StartsAt(s, i2, PrintChild(lib, ms[k].value, indent, d))
            && StartsAt(s, j, PrintMembers(lib, ms, k + 1, indent, d)) && Stop(s, j)
            && i + |MembersTail(lib, ms, k, indent, d)| == j + |PrintMembers(lib, ms, k + 1, indent, d)|
  {
    hide PrintChild, Indent, PrintMembers, Stop, Built, KeyText, Quoted, Key, StartsAt;
    var w := PrintChild(lib, ms[k].value, indent, d);
    var rest := w + PrintMembers(lib, ms, k + 1, indent, d);
    ChildFirstByte(lib, ms[k].value, indent, d);
    KeyBack(s, i, ms[k].key, indent, d, rest);
    var i2 := i + |Indent(indent, d + 1)| + |KeyText(ms[k].key, indent)|;
    Split(s, i2, w, PrintMembers(lib, ms, k + 1, indent, d));
    MembersStop(lib, ms, k + 1, indent, d, s, i2 + |w|);
  }

  lemma LastMember(lib: Library, ms: seq<Member>, indent: int, d: nat, s: Text, j: nat)
    requires StartsAt(s, j, PrintMembers(lib, ms, |ms|, indent, d))
    ensures var k := j + |Indent(indent, d)|; SkipSpace(s, j) == k && k < |s| && s[k] == CLOSE_OBJECT
    ensures |PrintMembers(lib, ms, |ms|, indent, d)| == |Indent(indent, d)| + 1
  {
    hide Indent;
    Split(s, j, Indent(indent, d), [CLOSE_OBJECT]);
    ByteAt(s, j + |Indent(indent, d)|, [CLOSE_OBJECT], 0);
    SkipIndent(s, j, indent, d);
  }

  lemma NextMember(lib: Library, ms: seq<Member>, k: nat, indent: int, d: nat, s: Text, j: nat)
    requires 0 < k < |ms| && StartsAt(s, j, PrintMembers(lib, ms, k, indent, d))
    ensures SkipSpace(s, j) == j && j < |s| && s[j] == COMMA && StartsAt(s, j + 1, MembersTail(lib, ms, k, indent, d))
    ensures |PrintMembers(lib, ms, k, indent, d)| == 1 + |MembersTail(lib, ms, k, indent, d)|
  {
    hide MembersTail, PrintMembers;
    MembersSplit(lib, ms, k, indent, d);
    Split(s, j, [COMMA], MembersTail(lib, ms, k, indent, d));
    ByteAt(s, j, [COMMA], 0);
  }

  /** A new key goes to the end. */
  lemma SetNew(ms: seq<Member>, k: nat)
    requires k < |ms| && DistinctKeys(ms)
    ensures SetMember(ms[..k], ms[k].key, ms[k].value) == ms[..k + 1]
  {
    var m := ms[k];
    assert ms[..k] + [Member(m.key, m.value)] == ms[..k + 1];
    assert forall j :: 0 <= j < k ==> ms[..k][j].key != m.key;
  }

  lemma MembersStep(lib: Library, s: Text, i: nat, d: nat, ms: seq<Member>)
    requires i <= |s|
    ensures match Key(s, i)
            case Fail => true
            case Good(key, h) =>
              match Value(lib, s, SkipSpace(s, h), d + 1)
              case Fail => Members(lib, s, i, d, ms) == Fail
              case Good(v, j) =>
                var k := SkipSpace(s, j);
                && (k < |s| && s[k] == CLOSE_OBJECT ==>
                   Members(lib, s, i, d, ms) == Good(Obj(SetMember(ms, key, v)), k + 1))
                && (k < |s| && s[k] == COMMA ==>
                   Members(lib, s, i, d, ms) == Members(lib, s, k + 1, d, SetMember(ms, key, v)))
  {
    hide Value, SkipSpace, Key, SetMember;
  }

  lemma {:induction false} MembersBack(lib: Library, ms: seq<Member>, k: nat, indent: int, d: nat, s: Text, i: nat)
    requires k < |ms| && DistinctKeys(ms)
    requires forall j :: 0 <= j < |ms| ==> Built(ms[j].value) && d + 1 + Height(ms[j].value) <= MAX_DEPTH
    requires StartsAt(s, i, MembersTail(lib, ms, k, indent, d))
    ensures Members(lib, s, i, d, ms[..k]) == Good(Obj(ms), i + |MembersTail(lib, ms, k, indent, d)|)
    decreases ms, |ms| - k
  {
    hide Indent, Height, Built, Value, SkipSpace, PrintMembers, Print, KeyText, Quoted, Key, SetMember, DistinctKeys,
         Members, MembersTail, StartsAt, Stop;
    MemberPlace(lib, ms, k, indent, d, s, i);
    MembersStep(lib, s, i, d, ms[..k]);
    var i2 := i + |Indent(indent, d + 1)| + |KeyText(ms[k].key, indent)|;
    var j := i2 + |PrintChild(lib, ms[k].value, indent, d)|;
    ValueBack(lib, ms[k].value, indent, d + 1, s, i2);
    SetNew(ms, k);
    if k + 1 == |ms| {
      LastMember(lib, ms, indent, d, s, j);
      assert ms[..k + 1] == ms;
    } else {
      NextMember(lib, ms, k + 1, indent, d, s, j);
      MembersBack(lib, ms, k + 1, indent, d, s, j + 1);
    }
  }

  lemma ObjectPlace(lib: Library, ms: seq<Member>, indent: int, d: nat, s: Text, i: nat)
    requires |ms| > 0 && Built(ms[0].value) && d <= MAX_DEPTH && StartsAt(s, i, Print(lib, Obj(ms), indent, d))
    ensures StartsAt(s, i + 1, MembersTail(lib, ms, 0, indent, d))
    ensures |Print(lib, Obj(ms), indent, d)| == 1 + |MembersTail(lib, ms, 0, indent, d)|
    ensures Value(lib, s, i, d) == Members(lib, s, i + 1, d, [])
  {
    hide PrintMembers, Members, MembersTail, Built, SkipSpace, Key, KeyText, Quoted, StartsAt, Stop, PrintChild, Indent;
    MembersSplit(lib, ms, 0, indent, d);
    var w := MembersTail(lib, ms, 0, indent, d);
    assert Print(lib, Obj(ms), indent, d) == [OPEN_OBJECT] + w;
    Split(s, i, [OPEN_OBJECT], w);
    ByteAt(s, i, [OPEN_OBJECT], 0);
    MemberPlace(lib, ms, 0, indent, d, s, i + 1);
    MembersSkip(lib, s, i + 1, d, []);
  }

  // ---- too deep ----------------------------------------------------------------------------------------------

  lemma BelowLimit(lib: Library, s: Text, i: nat, d: nat)
    requires i <= |s| && d > MAX_DEPTH
    ensures Value(lib, s, i, d) == Fail
  {
  }

  lemma {:induction false} ItemsTooDeep(lib: Library, items: seq<Json>, k: nat, m: nat, indent: int, d: nat, s: Text,
          i: nat)
    requires k <= m < |items| && d <= MAX_DEPTH && d + 1 + Height(items[m]) > MAX_DEPTH
    requires forall j :: 0 <= j < |items| ==> Built(items[j])
    requires StartsAt(s, i, ItemsTail(lib, items, k, indent, d))
    ensures Items(lib, s, i, d, items[..k]) == Fail
    decreases items, |items| - k
  {
    hide Indent, Height, Built, SkipSpace, PrintItems, Print, Items, ItemsTail, StartsAt, Stop, Value;
    ItemPlace(lib, items, k, indent, d, s, i);
    ItemsStep(lib, s, i, d, items[..k]);
    if d == MAX_DEPTH {
      BelowLimit(lib, s, SkipSpace(s, i), d + 1);
    } else {
      var i1 := i + |Indent(indent, d + 1)|;
      var j := i1 + |PrintChild(lib, items[k], indent, d)|;
      if d + 1 + Height(items[k]) > MAX_DEPTH {
        ValueTooDeep(lib, items[k], indent, d + 1, s, i1);
      } else {
        ValueBack(lib, items[k], indent, d + 1, s, i1);
        assert items[..k] + [items[k]] == items[..k + 1];
        NextItem(lib, items, k + 1, indent, d, s, j);
        ItemsTooDeep(lib, items, k + 1, m, indent, d, s, j + 1);
      }
    }
  }

  lemma {:induction false} MembersTooDeep(lib: Library, ms: seq<Member>, k: nat, m: nat, indent: int, d: nat, s: Text,
          i: nat)
    requires k <= m < |ms| && d <= MAX_DEPTH && d + 1 + Height(ms[m].value) > MAX_DEPTH && DistinctKeys(ms)
    requires forall j :: 0 <= j < |ms| ==> Built(ms[j].value)
    requires StartsAt(s, i, MembersTail(lib, ms, k, indent, d))
    ensures Members(lib, s, i, d, ms[..k]) == Fail
    decreases ms, |ms| - k
  {
    hide Indent, Height, Built, SkipSpace, PrintMembers, Print, KeyText, Quoted, Key, SetMember, DistinctKeys, Members,
         MembersTail, StartsAt, Stop, Value;
    MemberPlace(lib, ms, k, indent, d, s, i);
    MembersStep(lib, s, i, d, ms[..k]);
    if d == MAX_DEPTH {
      BelowLimit(lib, s, SkipSpace(s, i + |Indent(indent, d + 1)| + |Quoted(ms[k].key)| + 1), d + 1);
    } else {
      var i2 := i + |Indent(indent, d + 1)| + |KeyText(ms[k].key, indent)|;
      var j := i2 + |PrintChild(lib, ms[k].value, indent, d)|;
      if d + 1 + Height(ms[k].value) > MAX_DEPTH {
        ValueTooDeep(lib, ms[k].value, indent, d + 1, s, i2);
      } else {
        ValueBack(lib, ms[k].value, indent, d + 1, s, i2);
        SetNew(ms, k);
        NextMember(lib, ms, k + 1, indent, d, s, j);
        MembersTooDeep(lib, ms, k + 1, m, indent, d, s, j + 1);
      }
    }
  }

  /** A value that nests below the limit is printed cut short, and the parser refuses the text. */
  lemma {:induction false} ValueTooDeep(lib: Library, v: Json, indent: int, d: nat, s: Text, i: nat)
    requires Built(v) && d <= MAX_DEPTH && d + Height(v) > MAX_DEPTH && StartsAt(s, i, Print(lib, v, indent, d))
    ensures Value(lib, s, i, d) == Fail
    decreases v
  {
    match v {
      case Arr(items) =>
        ListPlace(lib, items, indent, d, s, i);
        var m := HighestItem(items);
        ItemsTooDeep(lib, items, 0, m, indent, d, s, i + 1);
        assert items[..0] == [];
      case Obj(members) =>
        ObjectPlace(lib, members, indent, d, s, i);
        var m := HighestMember(members);
        MembersTooDeep(lib, members, 0, m, indent, d, s, i + 1);
        assert members[..0] == [];
      case _ =>
    }
  }

  /** The round trip, for every value the building functions make from integral numbers and for every
      indentation: parsing the dump gives the value back exactly when it nests at most 64 levels deep,
      and fails otherwise. */
  lemma RoundTrip(lib: Library, v: Json, indent: int)
    requires Built(v)
    ensures Parse(lib, Print(lib, v, indent, 0)) == if Height(v) <= MAX_DEPTH then Some(v) else None
  {
    hide Print, Value, Built, Height;
    var s := Print(lib, v, indent, 0);
    assert s[0..0 + |s|] == s;
    FirstByte(lib, v, indent, 0);
    assert SkipSpace(s, 0) == 0;
    if Height(v) <= MAX_DEPTH {
      ValueBack(lib, v, indent, 0, s, 0);
    } else {
      ValueTooDeep(lib, v, indent, 0, s, 0);
    }
  }

  /** The same for the methods that print and parse. */
  method DumpAndParse(lib: Library, v: Json, indent: int) returns (r: Option<Json>)
    requires Built(v)
    ensures r == if Height(v) <= MAX_DEPTH then Some(v) else None
  {
    hide Print, Parse, Built, Height;
    var text := Dump(lib, v, indent);
    var parser := new Parser(lib, text);
    r := parser.ParseDocument();
    RoundTrip(lib, v, indent);
  }
}

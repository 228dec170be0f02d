/** What a Lua string body is made of, as a grammar: its items, how each is written, and the byte each stands for. The
    reader and the printer of `LuaLiteral` are held against it. */
module LuaEscapes {
  import opened Collections
  import opened LuaLiteral

  // ---------------------------------------------------------------- the grammar

  /** One item of a string body. */
  datatype Item =
    | Plain(u: Unit)
    | LastBackslash
    | Named(b: Byte)
    | Itself(u: Unit)
    | DecimalEscape(digits: seq<nat>)
    | HexEscape(b: Byte, x: Unit, highUpper: bool, lowUpper: bool)
    | BareX(x: Unit)
    | SkipSpaces(spaces: Text)

  function CodeOf(c: char): Unit {
    if c as int < 0x80 then c as int else 0
  }

  /** `\s` in ECMAScript: white space and line terminators. */
  const SPACES: Text := [
    9, 10, 11, 12, 13, 32, 0xA0, 0x1680, 0x2000, 0x2001, 0x2002, 0x2003, 0x2004, 0x2005, 0x2006, 0x2007, 0x2008, 0x2009,
    0x200A, 0x2028, 0x2029, 0x202F, 0x205F, 0x3000, 0xFEFF]

  function DigitOf(v: nat): Unit
    requires v < 10
  {
    CodeOf("0123456789"[v])
  }

  function HexDigitOf(v: nat, upper: bool): Unit
    requires v < 16
  {
    CodeOf(if upper then "0123456789ABCDEF"[v] else "0123456789abcdef"[v])
  }

  /** The letters of the bytes 7 to 13. */
  function LetterOf(b: Byte): Unit
    requires 7 <= b <= 13
  {
    CodeOf("abtnvfr"[b - 7])
  }

  ghost predicate IsLetter(u: Unit) {
    exists b: Byte :: 7 <= b <= 13 && LetterOf(b) == u
  }

  ghost predicate IsDecimalDigit(u: Unit) {
    exists v: nat :: v < 10 && DigitOf(v) == u
  }

  ghost predicate IsHexDigit(u: Unit) {
    exists v: nat, upper :: v < 16 && HexDigitOf(v, upper) == u
  }

  predicate IsX(u: Unit) {
    u == CodeOf('x') || u == CodeOf('X')
  }

  predicate AreDigits(digits: seq<nat>) {
    forall i :: 0 <= i < |digits| ==> digits[i] < 10
  }

  ghost predicate WellFormed(item: Item) {
    match item
    case Plain(u) => u != BACKSLASH
    case LastBackslash => true
    case Named(b) => 7 <= b <= 13
    case Itself(u) => !IsLetter(u) && !IsDecimalDigit(u) && !IsX(u) && u != CodeOf('z')
    case DecimalEscape(digits) => 1 <= |digits| <= 3 && AreDigits(digits)
    case HexEscape(b, x, _, _) => IsX(x)
    case BareX(x) => IsX(x)
    case SkipSpaces(spaces) => forall i :: 0 <= i < |spaces| ==> spaces[i] in SPACES
  }

  function DigitText(digits: seq<nat>): Text
    requires AreDigits(digits)
  {
    seq(|digits|, i requires 0 <= i < |digits| => DigitOf(digits[i]))
  }

  /** The number that decimal digits stand for. */
  function NumberOf(digits: seq<nat>): nat {
    if digits == [] then 0 else 10 * NumberOf(digits[..|digits| - 1]) + digits[|digits| - 1]
  }

  /** How an item is written. */
  ghost function TextOf(item: Item): Text
    requires WellFormed(item)
  {
    match item
    case Plain(u) => [u]
    case LastBackslash => [BACKSLASH]
    case Named(b) => [BACKSLASH, LetterOf(b)]
    case Itself(u) => [BACKSLASH, u]
    case DecimalEscape(digits) => [BACKSLASH] + DigitText(digits)
    case HexEscape(b, x, highUpper, lowUpper) => [BACKSLASH, x, HexDigitOf(b / 16, highUpper), HexDigitOf(b % 16, lowUpper)]
    case BareX(x) => [BACKSLASH, x]
    case SkipSpaces(spaces) => [BACKSLASH, CodeOf('z')] + spaces
  }

  /** The bytes it stands for. */
  function BytesOf(item: Item): seq<Byte> {
    match item
    case Plain(u) => [u % 0x100]
    case LastBackslash => [BACKSLASH]
    case Named(b) => [b]
    case Itself(u) => [u % 0x100]
    case DecimalEscape(digits) => [NumberOf(digits) % 0x100]
    case HexEscape(b, _, _, _) => [b]
    case BareX(_) => [CodeOf('x')]
    case SkipSpaces(_) => []
  }

  /** The item does not run into the text behind it. */
  ghost predicate EndsBefore(item: Item, rest: Text) {
    match item
    case LastBackslash => rest == []
    case DecimalEscape(digits) => |digits| == 3 || rest == [] || !IsDecimalDigit(rest[0])
    case BareX(_) => |rest| < 2 || !IsHexDigit(rest[0]) || !IsHexDigit(rest[1])
    case SkipSpaces(_) => rest == [] || rest[0] !in SPACES
    case _ => true
  }

  ghost predicate AllWellFormed(items: seq<Item>) {
    forall i :: 0 <= i < |items| ==> WellFormed(items[i])
  }

  ghost function Written(items: seq<Item>): Text
    requires AllWellFormed(items)
  {
    if items == [] then [] else TextOf(items[0]) + Written(items[1..])
  }

  ghost predicate Apart(items: seq<Item>)
    requires AllWellFormed(items)
  {
    items == [] || (EndsBefore(items[0], Written(items[1..])) && Apart(items[1..]))
  }

  function Meant(items: seq<Item>): seq<Byte> {
    if items == [] then [] else BytesOf(items[0]) + Meant(items[1..])
  }

  // ---------------------------------------------------------------- the character classes

  lemma DigitsAre(u: Unit)
    ensures IsDecimalDigit(u) <==> IsDigit(u)
  {
    if IsDigit(u) { assert DigitOf(u - ZERO) == u; }
  }

  lemma HexDigitsAre(u: Unit)
    ensures IsHexDigit(u) <==> IsHex(u)
  {
    if IsDigit(u) { assert HexDigitOf(u - ZERO, false) == u; }
    if 65 <= u <= 70 { assert HexDigitOf(u - 55, true) == u; }
    if 97 <= u <= 102 { assert HexDigitOf(u - 87, false) == u; }
  }

  lemma SpacesAre(u: Unit)
    ensures u in SPACES <==> IsSpace(u)
  {
    if IsSpace(u) {
      var i := if u <= 13 then u - 9 else if u == 32 then 5 else if u == 0xA0 then 6 else if u == 0x1680 then 7
               else if u <= 0x200A then u - 0x2000 + 8 else if u == 0x2028 then 19 else if u == 0x2029 then 20
               else if u == 0x202F then 21 else if u == 0x205F then 22 else if u == 0x3000 then 23 else 24;
      assert SPACES[i] == u;
    }
  }

  // ---------------------------------------------------------------- reading

  lemma DigitIs(v: nat)
    requires v < 10
    ensures DigitOf(v) == ZERO + v
  {}

  lemma DigitsFollow(digits: Text, rest: Text)
    requires |digits| <= 2 && forall i :: 0 <= i < |digits| ==> IsDigit(digits[i])
    requires |digits| == 2 || rest == [] || !IsDigit(rest[0])
    ensures DigitRun(digits + rest) == |digits|
  {
    var s := digits + rest;
    assert |digits| >= 1 ==> s[0] == digits[0];
    assert |digits| == 2 ==> s[1] == digits[1];
    assert |digits| < 2 && rest != [] ==> s[|digits|] == rest[0];
  }

  lemma SmallNumbers(digits: seq<nat>)
    ensures |digits| == 1 ==> NumberOf(digits) == digits[0]
    ensures |digits| == 2 ==> NumberOf(digits) == 10 * digits[0] + digits[1]
    ensures |digits| == 3 ==> NumberOf(digits) == 100 * digits[0] + 10 * digits[1] + digits[2]
  {
    if |digits| == 3 {
      SmallNumbers(digits[..2]);
    } else if |digits| == 2 {
      SmallNumbers(digits[..1]);
    } else if |digits| == 1 {
      assert digits[..0] == [];
    }
  }

  /** The characters of the digits. */
  ghost predicate Spells(text: Text, digits: seq<nat>) {
    |text| == |digits| && forall i :: 0 <= i < |digits| ==> digits[i] < 10 && text[i] == ZERO + digits[i]
  }

  lemma DigitsSpell(digits: seq<nat>)
    requires AreDigits(digits)
    ensures Spells(DigitText(digits), digits)
  {
    forall i | 0 <= i < |digits| ensures DigitText(digits)[i] == ZERO + digits[i] { DigitIs(digits[i]); }
  }

  lemma DecimalIs(text: Text, digits: seq<nat>, rest: Text)
    requires Spells(text, digits) && 1 <= |digits| <= 3
    requires |digits| == 3 || rest == [] || !IsDigit(rest[0])
    ensures IsDigit(text[0]) && DigitRun(text[1..] + rest) == |digits| - 1
    ensures Decimal(text[0], text[1..] + rest) == NumberOf(digits)
  {
    SmallNumbers(digits);
    hide NumberOf;
    DigitsFollow(text[1..], rest);
    var more := text[1..] + rest;
    hide DigitRun;
    if |digits| > 1 { assert more[0] == text[1]; }
    if |digits| > 2 { assert more[1] == text[2]; }
  }

  lemma NextDecimal(text: Text, digits: seq<nat>, rest: Text)
    requires Spells(text, digits) && 1 <= |digits| <= 3
    requires |digits| == 3 || rest == [] || !IsDigit(rest[0])
    ensures var s := [BACKSLASH] + text + rest; Next(s) == ([NumberOf(digits) % 0x100], 1 + |digits|) && s[1 + |digits|..] == rest
  {
    DecimalIs(text, digits, rest);
    assert |text| == |digits|;
    hide Spells, Decimal, NumberOf, DigitRun, IsDigit, IsSpace;
    var s := [BACKSLASH] + text + rest;
    assert s[0] == BACKSLASH && s[1] == text[0] && s[2..] == text[1..] + rest && s[1 + |digits|..] == rest;
  }

  lemma ReadsDecimal(digits: seq<nat>, rest: Text)
    requires WellFormed(DecimalEscape(digits)) && EndsBefore(DecimalEscape(digits), rest)
    ensures var s := TextOf(DecimalEscape(digits)) + rest;
      Next(s) == ([NumberOf(digits) % 0x100], 1 + |digits|) && s[1 + |digits|..] == rest
  {
    DigitsSpell(digits);
    if rest != [] { DigitsAre(rest[0]); }
    assert |digits| == 3 || rest == [] || !IsDigit(rest[0]);
    hide EndsBefore, Spells, DigitText, Next, IsDecimalDigit, IsDigit;
    NextDecimal(DigitText(digits), digits, rest);
  }

  lemma NextHex(x: Unit, high: Unit, low: Unit, rest: Text)
    requires IsX(x) && IsHex(high) && IsHex(low)
    ensures var s := [BACKSLASH, x, high, low] + rest; Next(s) == ([16 * HexValue(high) + HexValue(low)], 4) && s[4..] == rest
  {
    var s := [BACKSLASH, x, high, low] + rest;
    hide HexValue, IsHex;
  }

  lemma ReadsHex(b: Byte, x: Unit, highUpper: bool, lowUpper: bool, rest: Text)
    requires IsX(x)
    ensures var s := TextOf(HexEscape(b, x, highUpper, lowUpper)) + rest; Next(s) == ([b], 4) && s[4..] == rest
  {
    HexValueIs(b / 16, highUpper);
    HexValueIs(b % 16, lowUpper);
    hide HexDigitOf, HexValue, IsHex, Next, IsX;
    NextHex(x, HexDigitOf(b / 16, highUpper), HexDigitOf(b % 16, lowUpper), rest);
  }

  lemma HexValueIs(v: nat, upper: bool)
    requires v < 16
    ensures IsHex(HexDigitOf(v, upper)) && HexValue(HexDigitOf(v, upper)) == v
  {}

  lemma ReadsBareX(x: Unit, rest: Text)
    requires IsX(x) && EndsBefore(BareX(x), rest)
    ensures var s := TextOf(BareX(x)) + rest; Next(s) == ([120], 2) && s[2..] == rest
  {
    var s := TextOf(BareX(x)) + rest;
    if |rest| >= 2 {
      HexDigitsAre(rest[0]);
      HexDigitsAre(rest[1]);
      assert s[2] == rest[0] && s[3] == rest[1];
    }
  }

  lemma {:induction false} SpacesLead(spaces: Text, rest: Text)
    requires forall i :: 0 <= i < |spaces| ==> spaces[i] in SPACES
    requires rest == [] || rest[0] !in SPACES
    ensures LeadingSpaces(spaces + rest) == |spaces|
    decreases |spaces|
  {
    hide IsSpace;
    if spaces == [] {
      assert spaces + rest == rest;
      if rest != [] { SpacesAre(rest[0]); }
    } else {
      SpacesAre(spaces[0]);
      assert (spaces + rest)[1..] == spaces[1..] + rest;
      SpacesLead(spaces[1..], rest);
    }
  }

  lemma ReadsSkip(spaces: Text, rest: Text)
    requires WellFormed(SkipSpaces(spaces)) && EndsBefore(SkipSpaces(spaces), rest)
    ensures var s := TextOf(SkipSpaces(spaces)) + rest; Next(s) == ([], 2 + |spaces|) && s[2 + |spaces|..] == rest
  {
    var s := TextOf(SkipSpaces(spaces)) + rest;
    assert s[2..] == spaces + rest;
    SpacesLead(spaces, rest);
    hide LeadingSpaces, IsSpace;
  }

  lemma ReadsNamed(b: Byte, rest: Text)
    requires 7 <= b <= 13
    ensures var s := TextOf(Named(b)) + rest; Next(s) == ([b], 2) && s[2..] == rest
  {}

  lemma ReadsItself(u: Unit, rest: Text)
    requires WellFormed(Itself(u))
    ensures var s := TextOf(Itself(u)) + rest; Next(s) == ([u % 0x100], 2) && s[2..] == rest
  {
    DigitsAre(u);
    LettersAre(u);
  }

  lemma LettersAre(u: Unit)
    ensures IsLetter(u) <==> u in {97, 98, 116, 110, 118, 102, 114}
  {
    assert LetterOf(7) == 97 && LetterOf(8) == 98 && LetterOf(9) == 116 && LetterOf(10) == 110;
    assert LetterOf(11) == 118 && LetterOf(12) == 102 && LetterOf(13) == 114;
  }

  /** The reader takes one item off the text and yields its bytes, whatever follows that the item does not run into. */
  lemma ReadsItem(item: Item, rest: Text)
    requires WellFormed(item) && EndsBefore(item, rest)
    ensures Unescape(TextOf(item) + rest) == BytesOf(item) + Unescape(rest)
  {
    var s := TextOf(item) + rest;
    hide Next, LeadingSpaces;
    match item
    case DecimalEscape(digits) => ReadsDecimal(digits, rest);
    case HexEscape(b, x, highUpper, lowUpper) => ReadsHex(b, x, highUpper, lowUpper, rest);
    case BareX(x) => ReadsBareX(x, rest);
    case SkipSpaces(spaces) => ReadsSkip(spaces, rest);
    case Named(b) => ReadsNamed(b, rest);
    case Itself(u) => ReadsItself(u, rest);
    case Plain(u) => ReadsPlain(u, rest);
    case LastBackslash => ReadsPlain(BACKSLASH, rest);
  }

  lemma ReadsPlain(u: Unit, rest: Text)
    requires u == BACKSLASH ==> rest == []
    ensures var s := [u] + rest; Next(s) == ([u % 0x100], 1) && s[1..] == rest
  {}

  /** A written body, whatever its items, is read as exactly the bytes they stand for. */
  lemma {:induction false} ReadsWhatIsMeant(items: seq<Item>)
    requires AllWellFormed(items) && Apart(items)
    ensures Unescape(Written(items)) == Meant(items)
  {
    if items != [] {
      hide Unescape, EndsBefore, TextOf, BytesOf, WellFormed;
      ReadsItem(items[0], Written(items[1..]));
      ReadsWhatIsMeant(items[1..]);
    } else {
      assert Unescape([]) == [];
    }
  }

  // ---------------------------------------------------------------- every text is written so

  /** The first item of a text. */
  lemma SplitsItem(s: Text) returns (item: Item, rest: Text)
    requires s != []
    ensures WellFormed(item) && EndsBefore(item, rest) && s == TextOf(item) + rest && |rest| < |s|
  {
    if s[0] != BACKSLASH || |s| == 1 {
      item, rest := if s[0] != BACKSLASH then Plain(s[0]) else LastBackslash, s[1..];
      return;
    }
    var u := s[1];
    assert s == [BACKSLASH, u] + s[2..];
    DigitsAre(u);
    LettersAre(u);
    hide IsDecimalDigit, IsLetter, IsHexDigit;
    if IsDigit(u) {
      item, rest := SplitsDecimal(s);
    } else if IsX(u) {
      item, rest := SplitsHex(s);
    } else if u == 122 {
      item, rest := SplitsSkip(s[2..]);
      assert s == TextOf(item) + rest;
    } else if u in {97, 98, 116, 110, 118, 102, 114} {
      item, rest := Named(if u == 97 then 7 else if u == 98 then 8 else if u == 116 then 9 else if u == 110 then 10
                          else if u == 118 then 11 else if u == 102 then 12 else 13), s[2..];
    } else {
      item, rest := Itself(u), s[2..];
    }
  }

  lemma SplitsDecimal(s: Text) returns (item: Item, rest: Text)
    requires |s| > 1 && s[0] == BACKSLASH && IsDigit(s[1])
    ensures WellFormed(item) && EndsBefore(item, rest) && s == TextOf(item) + rest && |rest| < |s|
  {
    var n := 1 + DigitRun(s[2..]);
    DigitsOfRun(s, n);
    rest := s[1 + n..];
    if rest != [] { DigitsAre(rest[0]); }
    hide DigitRun;
    var digits := ValuesOf(s[1..1 + n]);
    item := DecimalEscape(digits);
    assert s == [s[0]] + s[1..1 + n] + rest;
    hide IsDecimalDigit, IsDigit, DigitText;
  }

  lemma DigitsOfRun(s: Text, n: nat)
    requires |s| > 1 && IsDigit(s[1]) && n == 1 + DigitRun(s[2..])
    ensures n <= 3 && 1 + n <= |s| && var run := s[1..1 + n]; forall i :: 0 <= i < n ==> IsDigit(run[i])
    ensures n == 3 || 1 + n == |s| || !IsDigit(s[1 + n])
  {
    if |s| > 2 { assert s[2..][0] == s[2]; }
    if |s| > 3 { assert s[2..][1] == s[3]; }
  }

  lemma ValuesOf(text: Text) returns (digits: seq<nat>)
    requires forall i :: 0 <= i < |text| ==> IsDigit(text[i])
    ensures |digits| == |text| && AreDigits(digits) && DigitText(digits) == text
  {
    digits := seq(|text|, i requires 0 <= i < |text| => text[i] - ZERO);
    forall i | 0 <= i < |text| ensures digits[i] < 10 && DigitOf(digits[i]) == text[i] { DigitIs(digits[i]); }
    hide DigitOf;
  }

  lemma IsHexDigitOf(u: Unit) returns (v: nat, upper: bool)
    requires IsHex(u)
    ensures v < 16 && HexDigitOf(v, upper) == u
  {
    HexDigitsAre(u);
    v, upper :| v < 16 && HexDigitOf(v, upper) == u;
  }

  lemma SplitsTwoHex(s: Text) returns (item: Item)
    requires |s| > 3 && s[0] == BACKSLASH && IsX(s[1]) && IsHex(s[2]) && IsHex(s[3])
    ensures WellFormed(item) && EndsBefore(item, s[4..]) && TextOf(item) == [s[0], s[1], s[2], s[3]]
  {
    var high, highUpper := IsHexDigitOf(s[2]);
    var low, lowUpper := IsHexDigitOf(s[3]);
    hide HexDigitOf, IsHex, IsX, IsHexDigit, IsLetter, IsDecimalDigit;
    var b := 16 * high + low;
    assert b / 16 == high && b % 16 == low;
    item := HexEscape(b, s[1], highUpper, lowUpper);
  }

  lemma SplitsHex(s: Text) returns (item: Item, rest: Text)
    requires |s| > 1 && s[0] == BACKSLASH && IsX(s[1])
    ensures WellFormed(item) && EndsBefore(item, rest) && s == TextOf(item) + rest && |rest| < |s|
  {
    if |s| > 3 && IsHex(s[2]) && IsHex(s[3]) {
      item := SplitsTwoHex(s);
      rest := s[4..];
      hide TextOf, WellFormed, EndsBefore;
      assert s == [s[0], s[1], s[2], s[3]] + s[4..];
    } else {
      item, rest := BareX(s[1]), s[2..];
      assert s == [s[0], s[1]] + s[2..];
      if |rest| >= 2 {
        HexDigitsAre(rest[0]);
        HexDigitsAre(rest[1]);
        assert rest[0] == s[2] && rest[1] == s[3];
      }
      hide IsHexDigit, IsX, IsHex;
    }
  }

  lemma {:induction false} SplitsSpaces(s: Text)
    ensures var k := LeadingSpaces(s);
      && (forall i :: 0 <= i < k ==> s[i] in SPACES)
      && (k == |s| || s[k] !in SPACES)
    decreases |s|
  {
    hide IsSpace;
    if s != [] {
      SpacesAre(s[0]);
      if s[0] in SPACES {
        SplitsSpaces(s[1..]);
        assert forall i :: 0 < i < |s| ==> s[i] == s[1..][i - 1];
      }
    }
  }

  lemma SplitsSkip(s: Text) returns (item: Item, rest: Text)
    ensures WellFormed(item) && EndsBefore(item, rest) && [BACKSLASH, 122] + s == TextOf(item) + rest && |rest| <= |s|
  {
    var k := LeadingSpaces(s);
    SplitsSpaces(s);
    item, rest := SkipSpaces(s[..k]), s[k..];
    assert s == s[..k] + s[k..];
  }

  /** The grammar leaves nothing out: every text is written by items that stay apart. */
  lemma {:induction false} EveryTextIsWritten(s: Text) returns (items: seq<Item>)
    ensures AllWellFormed(items) && Apart(items) && Written(items) == s
    decreases |s|
  {
    if s == [] {
      return [];
    }
    var item, rest := SplitsItem(s);
    var others := EveryTextIsWritten(rest);
    items := [item] + others;
    assert items[1..] == others;
  }

  // ---------------------------------------------------------------- literals

  ghost predicate IsQuoted(s: Text) {
    exists quote, inside: Text :: IsQuote(quote) && s == [quote] + inside + [quote]
  }

  ghost predicate IsLongBracket(s: Text) {
    exists level, content :: s == LongBracket(level, content)
  }

  /** A quoted body is read as what its items stand for. */
  lemma QuotedReadsItems(items: seq<Item>, quote: Unit)
    requires AllWellFormed(items) && Apart(items) && IsQuote(quote)
    ensures FromLua([quote] + Written(items) + [quote]) == Meant(items)
  {
    var s := [quote] + Written(items) + [quote];
    ReadsWhatIsMeant(items);
    assert Inside(s) == Written(items);
    hide Unescape, Written, Meant, LongContent;
  }

  lemma QuotesOfText(s: Text, quote: Unit)
    requires StartsAndEnds(s, quote, quote) && IsQuote(quote)
    ensures s == [quote] || IsQuoted(s)
  {
    if |s| > 1 {
      assert s == [quote] + s[1..|s| - 1] + [quote];
    }
  }

  lemma BareText(s: Text)
    requires !IsQuoted(s) && !IsLongBracket(s)
    ensures FromLua(s) == if s == [QUOTE] || s == [APOSTROPHE] then [] else Unescape(s)
  {
    if StartsAndEnds(s, QUOTE, QUOTE) { QuotesOfText(s, QUOTE); }
    if StartsAndEnds(s, APOSTROPHE, APOSTROPHE) { QuotesOfText(s, APOSTROPHE); }
    if StartsAndEnds(s, OPEN, CLOSE) && LongContent(s).Some? { ContentIsOfBracket(s); }
    hide IsQuoted, IsLongBracket, LongContent;
    assert Unescape([]) == [];
  }

  /** So is a text in neither quotes nor a long bracket; a lone quote is read as nothing. */
  lemma BareReadsItems(items: seq<Item>)
    requires AllWellFormed(items) && Apart(items) && !IsQuoted(Written(items)) && !IsLongBracket(Written(items))
    ensures var s := Written(items); FromLua(s) == if s == [QUOTE] || s == [APOSTROPHE] then [] else Meant(items)
  {
    ReadsWhatIsMeant(items);
    BareText(Written(items));
    hide FromLua, Written, Meant, AllWellFormed, Apart, IsQuoted, IsLongBracket, Unescape;
  }

  lemma ContentIsOfBracket(s: Text)
    requires StartsAndEnds(s, OPEN, CLOSE) && LongContent(s).Some?
    ensures IsLongBracket(s)
  {
    var n, content := LeadingEquals(s[1..]), LongContent(s).value;
    assert s[1..n + 1] == Equals(n);
    assert s == [s[0]] + s[1..n + 1] + [s[n + 1]] + s[n + 2..|s| - n - 2] + s[|s| - n - 2..];
    assert s == LongBracket(n, content);
  }

  // ---------------------------------------------------------------- printing

  /** The item by which the printer writes a byte: itself when it is printable, a letter or a backslash where one exists,
      and its number otherwise. */
  function PrintedItem(b: Byte, quote: Unit): Item {
    if b == quote || b == BACKSLASH then Itself(b)
    else if 7 <= b <= 13 then Named(b)
    else if b == 0 then DecimalEscape([0])
    else if 32 <= b < 127 then Plain(b)
    else DecimalEscape([b / 100, b / 10 % 10, b % 10])
  }

  lemma ThreeDigitsAdd(b: Byte)
    ensures b / 100 < 10 && b / 10 % 10 < 10 && b % 10 < 10 && 100 * (b / 100) + 10 * (b / 10 % 10) + b % 10 == b
  {}

  lemma ThreeDigitsSpell(b: Byte)
    ensures var digits := [b / 100, b / 10 % 10, b % 10];
      AreDigits(digits) && DigitText(digits) == ThreeDigits(b) && NumberOf(digits) == b
  {
    ThreeDigitsAdd(b);
    var high, mid, low := b / 100, b / 10 % 10, b % 10;
    var digits := [high, mid, low];
    assert AreDigits(digits);
    DigitsSpell(digits);
    SmallNumbers(digits);
    hide DigitText, NumberOf;
    assert DigitText(digits) == [ZERO + high, ZERO + mid, ZERO + low];
  }

  lemma PrintedNumberIsEscape(b: Byte, quote: Unit)
    requires IsQuote(quote) && (b == 0 || 0 < b < 7 || 13 < b < 32 || b >= 127)
    ensures WellFormed(PrintedItem(b, quote)) && TextOf(PrintedItem(b, quote)) == Escape(b, quote)
    ensures BytesOf(PrintedItem(b, quote)) == [b]
  {
    hide DigitText, NumberOf, ThreeDigits;
    if b == 0 {
      assert AreDigits([0]);
      DigitsSpell([0]);
      SmallNumbers([0]);
      assert DigitText([0]) == [ZERO];
    } else {
      ThreeDigitsSpell(b);
      hide AreDigits;
    }
  }

  lemma PrintedItemIsEscape(b: Byte, quote: Unit)
    requires IsQuote(quote)
    ensures WellFormed(PrintedItem(b, quote)) && TextOf(PrintedItem(b, quote)) == Escape(b, quote)
    ensures BytesOf(PrintedItem(b, quote)) == [b]
  {
    if b == 0 || 0 < b < 7 || 13 < b < 32 || b >= 127 {
      PrintedNumberIsEscape(b, quote);
      hide PrintedItem, TextOf, Escape, WellFormed;
    } else if b == quote || b == BACKSLASH {
      DigitsAre(b);
      LettersAre(b);
      hide IsDecimalDigit, IsLetter;
    }
  }

  function PrintedItems(bytes: seq<Byte>, quote: Unit): (items: seq<Item>)
    ensures |items| == |bytes| && forall i :: 0 <= i < |bytes| ==> items[i] == PrintedItem(bytes[i], quote)
  {
    seq(|bytes|, i requires 0 <= i < |bytes| => PrintedItem(bytes[i], quote))
  }

  /** The printer writes every byte by its item, between the quotes. */
  lemma {:induction false} PrintsItems(bytes: seq<Byte>, quote: Unit)
    requires IsQuote(quote)
    ensures var items := PrintedItems(bytes, quote);
      AllWellFormed(items) && ToLua(bytes, quote) == [quote] + Written(items) + [quote]
  {
    BodyIsWritten(bytes, quote);
  }

  lemma {:induction false} BodyIsWritten(bytes: seq<Byte>, quote: Unit)
    requires IsQuote(quote)
    ensures AllWellFormed(PrintedItems(bytes, quote)) && Body(bytes, quote) == Written(PrintedItems(bytes, quote))
    decreases |bytes|
  {
    hide PrintedItem, TextOf, WellFormed, Escape;
    if bytes != [] {
      var rest := bytes[1..];
      PrintedItemIsEscape(bytes[0], quote);
      BodyIsWritten(rest, quote);
      assert PrintedItems(bytes, quote)[1..] == PrintedItems(rest, quote);
      hide PrintedItems;
      assert PrintedItems(bytes, quote) == [PrintedItem(bytes[0], quote)] + PrintedItems(rest, quote);
    }
  }

  // ---------------------------------------------------------------- the lexer

  predicate IsBreak(u: Unit) {
    u == NEWLINE || u == RETURN
  }

  /** The item may stand in a string between these quotes on one line. */
  predicate FitsInLine(item: Item, quote: Unit) {
    match item
    case Plain(u) => u != quote && !IsBreak(u)
    case SkipSpaces(spaces) => forall i :: 0 <= i < |spaces| ==> !IsBreak(spaces[i])
    case LastBackslash => false
    case _ => true
  }

  predicate AllFit(items: seq<Item>, quote: Unit) {
    forall i :: 0 <= i < |items| ==> FitsInLine(items[i], quote)
  }

  lemma {:induction false} ScanPastPlain(text: Text, rest: Text, quote: Unit)
    requires forall i :: 0 <= i < |text| ==> text[i] != BACKSLASH && text[i] != quote && !IsBreak(text[i])
    ensures ScanString(text + rest, quote) == Longer(ScanString(rest, quote), |text|)
    decreases |text|
  {
    if text == [] {
      assert text + rest == rest;
    } else {
      assert (text + rest)[1..] == text[1..] + rest;
      ScanPastPlain(text[1..], rest, quote);
    }
  }

  lemma ScanPastTwo(u: Unit, text: Text, rest: Text, quote: Unit)
    requires IsQuote(quote) && forall i :: 0 <= i < |text| ==> text[i] != BACKSLASH && text[i] != quote && !IsBreak(text[i])
    ensures ScanString([BACKSLASH, u] + text + rest, quote) == Longer(ScanString(rest, quote), 2 + |text|)
  {
    ScanPastPlain(text, rest, quote);
    assert ([BACKSLASH, u] + text + rest)[2..] == text + rest;
  }

  lemma PlainDigits(digits: seq<nat>, quote: Unit)
    requires AreDigits(digits) && IsQuote(quote)
    ensures var text := DigitText(digits);
      |text| == |digits| && forall i :: 0 <= i < |text| ==> text[i] != BACKSLASH && text[i] != quote && !IsBreak(text[i])
  {
    DigitsSpell(digits);
  }

  lemma PlainHex(v: nat, upper: bool, quote: Unit)
    requires v < 16 && IsQuote(quote)
    ensures var u := HexDigitOf(v, upper); u != BACKSLASH && u != quote && !IsBreak(u)
  {}

  lemma PlainSpaces(spaces: Text, quote: Unit)
    requires WellFormed(SkipSpaces(spaces)) && FitsInLine(SkipSpaces(spaces), quote) && IsQuote(quote)
    ensures forall i :: 0 <= i < |spaces| ==> spaces[i] != BACKSLASH && spaces[i] != quote && !IsBreak(spaces[i])
  {
    forall i | 0 <= i < |spaces| ensures IsSpace(spaces[i]) { SpacesAre(spaces[i]); }
  }

  lemma ScanPastItem(item: Item, rest: Text, quote: Unit)
    requires WellFormed(item) && FitsInLine(item, quote) && IsQuote(quote)
    ensures ScanString(TextOf(item) + rest, quote) == Longer(ScanString(rest, quote), |TextOf(item)|)
  {
    hide HexDigitOf, DigitText, IsLetter, IsDecimalDigit;
    match item
    case Plain(u) =>
      assert ([u] + rest)[1..] == rest;
    case DecimalEscape(digits) =>
      var text := DigitText(digits);
      PlainDigits(digits, quote);
      assert [BACKSLASH] + text == [BACKSLASH, text[0]] + text[1..];
      ScanPastTwo(text[0], text[1..], rest, quote);
    case HexEscape(b, x, highUpper, lowUpper) =>
      PlainHex(b / 16, highUpper, quote);
      PlainHex(b % 16, lowUpper, quote);
      var text := [HexDigitOf(b / 16, highUpper), HexDigitOf(b % 16, lowUpper)];
      assert TextOf(item) == [BACKSLASH, x] + text;
      ScanPastTwo(x, text, rest, quote);
    case SkipSpaces(spaces) =>
      PlainSpaces(spaces, quote);
      ScanPastTwo(122, spaces, rest, quote);
    case Named(b) => ScanPastEscape2(LetterOf(b), rest, quote);
    case Itself(u) => ScanPastEscape2(u, rest, quote);
    case BareX(x) => ScanPastEscape2(x, rest, quote);
  }

  lemma ScanPastEscape2(u: Unit, rest: Text, quote: Unit)
    requires IsQuote(quote)
    ensures ScanString([BACKSLASH, u] + rest, quote) == Longer(ScanString(rest, quote), 2)
  {
    assert [BACKSLASH, u] + [] == [BACKSLASH, u];
    ScanPastTwo(u, [], rest, quote);
  }

  lemma {:induction false} ScanPastItems(items: seq<Item>, rest: Text, quote: Unit)
    requires AllWellFormed(items) && AllFit(items, quote) && IsQuote(quote)
    ensures ScanString(Written(items) + rest, quote) == Longer(ScanString(rest, quote), |Written(items)|)
  {
    hide ScanString, TextOf, WellFormed, FitsInLine;
    if items == [] {
      assert Written(items) + rest == rest;
    } else {
      var more := Written(items[1..]) + rest;
      ScanPastItems(items[1..], rest, quote);
      ScanPastItem(items[0], more, quote);
      assert Written(items) + rest == TextOf(items[0]) + more;
    }
  }

  lemma RawIsHead(body: Text, following: Text, quote: Unit)
    ensures var raw := [quote] + body + [quote];
      (raw + following)[1..] == body + ([quote] + following) && (raw + following)[..|body| + 2] == raw
  {}

  lemma ClosedBody(body: Text, following: Text, quote: Unit)
    requires ScanString(body + ([quote] + following), quote) == Closed(|body| + 1)
    ensures var raw := [quote] + body + [quote]; Lexed(raw + following, quote) == StringToken(FromLua(raw), raw)
  {
    hide FromLua, ScanString;
    RawIsHead(body, following, quote);
    var s := [quote] + body + [quote] + following;
    assert ScanString(s[1..], quote) == Closed(|body| + 1);
  }

  lemma OpenBody(body: Text, tail: Text, quote: Unit)
    requires !ScanString(body + tail, quote).Closed?
    ensures Lexed([quote] + body + tail, quote) == LexError
  {
    hide FromLua, ScanString;
    assert ([quote] + body + tail)[1..] == body + tail;
  }

  lemma ClosedToken(items: seq<Item>, quote: Unit, following: Text)
    requires AllWellFormed(items) && Apart(items) && AllFit(items, quote) && IsQuote(quote)
    ensures var raw := [quote] + Written(items) + [quote]; Lexed(raw + following, quote) == StringToken(Meant(items), raw)
  {
    QuotedReadsItems(items, quote);
    ScanPastItems(items, [quote] + following, quote);
    assert ScanString([quote] + following, quote) == Closed(1);
    hide Written, Meant, AllWellFormed, Apart, AllFit, FromLua, Lexed, ScanString;
    ClosedBody(Written(items), following, quote);
  }

  lemma OpenToken(items: seq<Item>, quote: Unit, tail: Text)
    requires AllWellFormed(items) && AllFit(items, quote) && IsQuote(quote) && !ScanString(tail, quote).Closed?
    ensures Lexed([quote] + Written(items) + tail, quote) == LexError
  {
    ScanPastItems(items, tail, quote);
    hide Written, AllWellFormed, AllFit, FromLua, Lexed, ScanString;
    OpenBody(Written(items), tail, quote);
  }

  /** The token of a string literal in a source text: items that fit in the line up to a quote are one token with the bytes
      they stand for, whatever follows; up to a line break, the end of the text or a last backslash, they are an error. */
  lemma TokenOfItems(items: seq<Item>, quote: Unit, end: Unit, following: Text)
    requires AllWellFormed(items) && Apart(items) && AllFit(items, quote) && IsQuote(quote)
    ensures var raw := [quote] + Written(items) + [quote]; Lexed(raw + following, quote) == StringToken(Meant(items), raw)
    ensures IsBreak(end) ==> Lexed([quote] + Written(items) + ([end] + following), quote) == LexError
    ensures Lexed([quote] + Written(items) + [], quote) == LexError
    ensures Lexed([quote] + Written(items) + [BACKSLASH], quote) == LexError
  {
    hide Lexed, Written, Meant, AllWellFormed, Apart, AllFit;
    ClosedToken(items, quote, following);
    if IsBreak(end) { OpenToken(items, quote, [end] + following); }
    OpenToken(items, quote, []);
    OpenToken(items, quote, [BACKSLASH]);
  }
}

/** Printing and reading Lua string literals: packages/shared/src/bytestring.js, and the lexer's string scan of
    packages/core/src/lexer/lexer.js. Text is a sequence of UTF-16 code units, as in JavaScript. */
module LuaLiteral {
  import opened Collections

  type Byte = n: nat | n < 0x100
  type Unit = n: nat | n < 0x10000
  type Text = seq<Unit>

  const NEWLINE: Unit := 10
  const RETURN: Unit := 13
  const QUOTE: Unit := 34
  const APOSTROPHE: Unit := 39
  const ZERO: Unit := 48
  const EQUALS: Unit := 61
  const OPEN: Unit := 91
  const BACKSLASH: Unit := 92
  const CLOSE: Unit := 93
  const LOWER_X: Unit := 120

  predicate IsQuote(q: Unit) {
    q == QUOTE || q == APOSTROPHE
  }

  predicate IsDigit(u: Unit) {
    ZERO <= u <= 57
  }

  predicate IsHex(u: Unit) {
    IsDigit(u) || 65 <= u <= 70 || 97 <= u <= 102
  }

  function HexValue(u: Unit): nat
    requires IsHex(u)
  {
    if u <= 57 then u - ZERO else if u <= 70 then u - 55 else u - 87
  }

  /** The `\s` of a JavaScript regular expression. */
  predicate IsSpace(u: Unit) {
    9 <= u <= 13 || u == 32 || u == 0xA0 || u == 0x1680 || 0x2000 <= u <= 0x200A
    || u == 0x2028 || u == 0x2029 || u == 0x202F || u == 0x205F || u == 0x3000 || u == 0xFEFF
  }

  // ---------------------------------------------------------------- printing

  /** `a b t n v f r` for the bytes 7 to 13. */
  function ControlLetter(b: Byte): Unit
    requires 7 <= b <= 13
  {
    [97, 98, 116, 110, 118, 102, 114][b - 7]
  }

  function ThreeDigits(b: Byte): Text {
    [ZERO + b / 100, ZERO + b / 10 % 10, ZERO + b % 10]
  }

  function Escape(b: Byte, quote: Unit): Text {
    if b == 0 then [BACKSLASH, ZERO]
    else if 7 <= b <= 13 then [BACKSLASH, ControlLetter(b)]
    else if b == BACKSLASH then [BACKSLASH, BACKSLASH]
    else if b == quote then [BACKSLASH, quote]
    else if 32 <= b <= 126 then [b]
    else [BACKSLASH] + ThreeDigits(b)
  }

  function Body(bytes: seq<Byte>, quote: Unit): Text {
    if bytes == [] then [] else Escape(bytes[0], quote) + Body(bytes[1..], quote)
  }

  function ToLua(bytes: seq<Byte>, quote: Unit): Text {
    [quote] + Body(bytes, quote) + [quote]
  }

  lemma {:induction false} BodyConcat(a: seq<Byte>, b: seq<Byte>, quote: Unit)
    ensures Body(a + b, quote) == Body(a, quote) + Body(b, quote)
  {
    if a == [] {
      assert a + b == b;
    } else {
      assert (a + b)[1..] == a[1..] + b;
      BodyConcat(a[1..], b, quote);
    }
  }

  lemma BodySnoc(bytes: seq<Byte>, i: nat, quote: Unit)
    requires i < |bytes|
    ensures Body(bytes[..i + 1], quote) == Body(bytes[..i], quote) + Escape(bytes[i], quote)
  {
    assert bytes[..i + 1] == bytes[..i] + [bytes[i]];
    BodyConcat(bytes[..i], [bytes[i]], quote);
    assert Body([bytes[i]], quote) == Escape(bytes[i], quote) + [];
    hide Escape;
  }

  method ToLuaLiteral(buffer: seq<Byte>, quote: Unit) returns (out: Text)
    requires IsQuote(quote)
    ensures out == ToLua(buffer, quote)
  {
    out := [quote];
    for i := 0 to |buffer|
      invariant out == [quote] + Body(buffer[..i], quote)
    {
      BodySnoc(buffer, i, quote);
      hide Body;
      var b := buffer[i];
      ghost var before := out;
      if b == 0 {
        out := out + [BACKSLASH, ZERO];
      } else if 7 <= b <= 13 {
        out := out + [BACKSLASH, ControlLetter(b)];
      } else if b == BACKSLASH {
        out := out + [BACKSLASH, BACKSLASH];
      } else if b == quote {
        out := out + [BACKSLASH, quote];
      } else if 32 <= b <= 126 {
        out := out + [b];
      } else {
        out := out + ([BACKSLASH] + ThreeDigits(b));
      }
      assert out == before + Escape(b, quote) by { hide ThreeDigits, ControlLetter; }
      hide Escape;
      ConcatAssoc([quote], Body(buffer[..i], quote), Escape(b, quote));
    }
    assert buffer[..|buffer|] == buffer;
    out := out + [quote];
  }

  // ---------------------------------------------------------------- reading

  /** How many of the first two characters of `s` are leading digits. */
  function DigitRun(s: Text): (k: nat)
    ensures k <= |s| && k <= 2
  {
    if |s| < 1 || !IsDigit(s[0]) then 0 else if |s| < 2 || !IsDigit(s[1]) then 1 else 2
  }

  /** The decimal number of digit `u` and the digit run after it. */
  function Decimal(u: Unit, s: Text): nat
    requires IsDigit(u)
  {
    match DigitRun(s)
    case 0 => u - ZERO
    case 1 => 10 * (u - ZERO) + (s[0] - ZERO)
    case _ => 100 * (u - ZERO) + 10 * (s[0] - ZERO) + (s[1] - ZERO)
  }

  function LeadingSpaces(s: Text): (k: nat)
    ensures k <= |s|
  {
    if s == [] || !IsSpace(s[0]) then 0 else 1 + LeadingSpaces(s[1..])
  }

  /** The bytes of the escape with letter `u`; other characters stand for themselves. */
  function LetterByte(u: Unit): Byte {
    if u == 97 then 7
    else if u == 98 then 8
    else if u == 102 then 12
    else if u == 110 then 10
    else if u == 114 then 13
    else if u == 116 then 9
    else if u == 118 then 11
    else u % 0x100
  }

  /** The bytes that the first item of `s` stands for, and the length of that item. */
  function Next(s: Text): (r: (seq<Byte>, nat))
    requires s != []
    ensures 1 <= r.1 <= |s|
  {
    if s[0] == BACKSLASH && |s| > 1 then
      var u := s[1];
      if IsDigit(u) then ([Decimal(u, s[2..]) % 0x100], 2 + DigitRun(s[2..]))
      else if u == LOWER_X || u == 88 then
        if |s| > 3 && IsHex(s[2]) && IsHex(s[3]) then ([16 * HexValue(s[2]) + HexValue(s[3])], 4) else ([LOWER_X], 2)
      else if u == 122 then ([], 2 + LeadingSpaces(s[2..]))
      else ([LetterByte(u)], 2)
    else ([s[0] % 0x100], 1)
  }

  function Unescape(s: Text): seq<Byte>
    decreases |s|
  {
    if s == [] then [] else Next(s).0 + Unescape(s[Next(s).1..])
  }

  predicate StartsAndEnds(s: Text, first: Unit, last: Unit) {
    |s| > 0 && s[0] == first && s[|s| - 1] == last
  }

  /** `slice(1, -1)` */
  function Inside(s: Text): Text {
    if |s| < 2 then [] else s[1..|s| - 1]
  }

  function LeadingEquals(s: Text): (k: nat)
    ensures k <= |s| && forall i :: 0 <= i < k ==> s[i] == EQUALS
    ensures k < |s| ==> s[k] != EQUALS
  {
    if s == [] || s[0] != EQUALS then 0 else 1 + LeadingEquals(s[1..])
  }

  function Equals(n: nat): (s: Text)
    ensures |s| == n && forall i :: 0 <= i < n ==> s[i] == EQUALS
  {
    seq(n, _ => EQUALS)
  }

  /** The content of a long bracket `[==[ ... ]==]`, if `s` is one. */
  function LongContent(s: Text): Option<Text>
    requires StartsAndEnds(s, OPEN, CLOSE)
  {
    var n := LeadingEquals(s[1..]);
    if |s| >= 2 * n + 4 && s[n + 1] == OPEN && s[|s| - n - 2..] == [CLOSE] + Equals(n) + [CLOSE]
    then Some(s[n + 2..|s| - n - 2])
    else None
  }

  function Latin1(s: Text): (r: seq<Byte>)
    ensures |r| == |s|
  {
    seq(|s|, i requires 0 <= i < |s| => s[i] % 0x100)
  }

  function FromLua(s: Text): seq<Byte> {
    if StartsAndEnds(s, QUOTE, QUOTE) || StartsAndEnds(s, APOSTROPHE, APOSTROPHE) then Unescape(Inside(s))
    else if StartsAndEnds(s, OPEN, CLOSE) && LongContent(s).Some? then
      var content := LongContent(s).value;
      Latin1(if content != [] && content[0] == NEWLINE then content[1..] else content)
    else Unescape(s)
  }

  /** The decimal escape whose first digit is at `i`; `last` is the position of its last digit. */
  method ReadDecimal(str: Text, i: nat) returns (value: nat, last: nat)
    requires i < |str| && IsDigit(str[i])
    ensures last == i + DigitRun(str[i + 1..]) && value == Decimal(str[i], str[i + 1..])
  {
    last := i;
    value := str[i] - ZERO;
    if last + 1 < |str| && IsDigit(str[last + 1]) {
      last := last + 1;
      value := 10 * value + (str[last] - ZERO);
      if last + 1 < |str| && IsDigit(str[last + 1]) {
        last := last + 1;
        value := 10 * value + (str[last] - ZERO);
      }
    }
  }

  /** One turn of the reader's loop at position `i`. */
  method ReadItem(str: Text, i: nat) returns (pushed: seq<Byte>, next: nat)
    requires i < |str|
    ensures (pushed, next - i) == Next(str[i..]) && next > i
  {
    ghost var s := str[i..];
    next := i;
    if str[next] == BACKSLASH && next + 1 < |str| {
      next := next + 1;
      var u := str[next];
      assert s[1] == u && s[2..] == str[i + 2..];
      if IsDigit(u) {
        var value;
        value, next := ReadDecimal(str, next);
        hide Decimal, DigitRun;
        pushed := [value % 0x100];
      } else if u == LOWER_X || u == 88 {
        if next + 2 < |str| && IsHex(str[next + 1]) && IsHex(str[next + 2]) {
          pushed := [16 * HexValue(str[next + 1]) + HexValue(str[next + 2])];
          next := next + 2;
        } else {
          pushed := [LOWER_X];
        }
      } else if u == 122 {
        while next + 1 < |str| && IsSpace(str[next + 1])
          invariant i + 1 <= next < |str|
          invariant next - i - 1 + LeadingSpaces(str[next + 1..]) == LeadingSpaces(str[i + 2..])
        {
          assert str[next + 1..][1..] == str[next + 2..];
          next := next + 1;
        }
        pushed := [];
      } else {
        pushed := [LetterByte(u)];
      }
    } else {
      pushed := [str[next] % 0x100];
    }
    next := next + 1;
  }

  method FromLuaLiteral(raw: Text) returns (bytes: seq<Byte>)
    ensures bytes == FromLua(raw)
  {
    var str := raw;
    if StartsAndEnds(str, QUOTE, QUOTE) || StartsAndEnds(str, APOSTROPHE, APOSTROPHE) {
      str := Inside(str);
    } else if StartsAndEnds(str, OPEN, CLOSE) {
      var found := LongContent(str);
      if found.Some? {
        var content := found.value;
        if content != [] && content[0] == NEWLINE { content := content[1..]; }
        return Latin1(content);
      }
    }
    bytes := [];
    var i := 0;
    while i < |str|
      invariant 0 <= i <= |str|
      invariant bytes + Unescape(str[i..]) == Unescape(str)
    {
      ghost var before, s := bytes, str[i..];
      var pushed, next := ReadItem(str, i);
      assert s[next - i..] == str[next..];
      ConcatAssoc(before, pushed, Unescape(str[next..]));
      bytes := bytes + pushed;
      i := next;
    }
  }

  // ---------------------------------------------------------------- what comes back

  /** What reading back yields: a printed zero takes up to two digits that follow it. */
  function Absorbed(bytes: seq<Byte>): (r: seq<Byte>)
    decreases |bytes|
  {
    if bytes == [] then []
    else if bytes[0] == 0 then
      [Decimal(ZERO, bytes[1..])] + Absorbed(bytes[1 + DigitRun(bytes[1..])..])
    else [bytes[0]] + Absorbed(bytes[1..])
  }

  ghost predicate NoDigitAfterZero(bytes: seq<Byte>) {
    forall i :: 0 <= i < |bytes| - 1 && bytes[i] == 0 ==> !IsDigit(bytes[i + 1])
  }

  lemma NextOfEscape(b: Byte, quote: Unit, rest: Text)
    requires IsQuote(quote) && b != 0
    ensures Next(Escape(b, quote) + rest) == ([b], |Escape(b, quote)|)
  {
    var s := Escape(b, quote) + rest;
    if !(7 <= b <= 13 || b == BACKSLASH || b == quote || 32 <= b <= 126) {
      ThreeDigitsRead(b, rest);
      assert s == [BACKSLASH] + ThreeDigits(b) + rest;
    }
  }

  lemma DigitsOfByte(b: Byte)
    ensures b / 100 <= 2 && b / 10 % 10 <= 9 && b % 10 <= 9
    ensures 100 * (b / 100) + 10 * (b / 10 % 10) + b % 10 == b
  {}

  lemma ThreeDigitsRead(b: Byte, rest: Text)
    ensures Next([BACKSLASH] + ThreeDigits(b) + rest) == ([b], 4)
  {
    var d, s := ThreeDigits(b), [BACKSLASH] + ThreeDigits(b) + rest;
    DigitsOfByte(b);
    assert IsDigit(d[0]) && IsDigit(d[1]) && IsDigit(d[2]);
    assert 100 * (d[0] - ZERO) + 10 * (d[1] - ZERO) + (d[2] - ZERO) == b;
    hide ThreeDigits;
    assert s[1] == d[0] && s[2..][0] == d[1] && s[2..][1] == d[2];
    assert DigitRun(s[2..]) == 2 && Decimal(d[0], s[2..]) == b;
    hide DigitRun, Decimal, IsDigit;
  }

  lemma HeadOfBody(bytes: seq<Byte>, quote: Unit)
    requires IsQuote(quote) && bytes != []
    ensures var s := Body(bytes, quote);
      s != [] && (IsDigit(s[0]) <==> IsDigit(bytes[0])) && (IsDigit(s[0]) ==> s == [bytes[0]] + Body(bytes[1..], quote))
  {
    hide Body;
    assert Body(bytes, quote) == Escape(bytes[0], quote) + Body(bytes[1..], quote) by { BodyUnfolds(bytes, quote); }
  }

  lemma BodyUnfolds(bytes: seq<Byte>, quote: Unit)
    requires bytes != []
    ensures Body(bytes, quote) == Escape(bytes[0], quote) + Body(bytes[1..], quote)
  {
    hide Escape;
  }

  /** The digit run of the printed text is that of the bytes. */
  lemma BodyDigits(bytes: seq<Byte>, quote: Unit)
    requires IsQuote(quote)
    ensures var s, k := Body(bytes, quote), DigitRun(bytes);
      DigitRun(s) == k && s[k..] == Body(bytes[k..], quote) && Decimal(ZERO, s) == Decimal(ZERO, bytes)
  {
    if bytes != [] {
      HeadOfBody(bytes, quote);
      if |bytes| > 1 {
        HeadOfBody(bytes[1..], quote);
        assert bytes[1..][1..] == bytes[2..];
      }
      hide Escape;
    }
  }

  lemma {:induction false} BodyReadsBack(bytes: seq<Byte>, quote: Unit)
    requires IsQuote(quote)
    ensures Unescape(Body(bytes, quote)) == Absorbed(bytes)
    decreases |bytes|
  {
    if bytes != [] {
      var s, b, rest := Body(bytes, quote), bytes[0], bytes[1..];
      BodyUnfolds(bytes, quote);
      if b == 0 {
        var k := DigitRun(rest);
        BodyDigits(rest, quote);
        assert s == [BACKSLASH, ZERO] + Body(rest, quote);
        assert s[2..] == Body(rest, quote) && s[2 + k..] == Body(rest, quote)[k..];
        assert Next(s) == ([Decimal(ZERO, rest)], 2 + k);
        assert rest[k..] == bytes[1 + k..];
        BodyReadsBack(rest[k..], quote);
        hide Next, Body, Escape, Decimal, DigitRun;
      } else {
        NextOfEscape(b, quote, Body(rest, quote));
        DropPrefix(Escape(b, quote), Body(rest, quote));
        BodyReadsBack(rest, quote);
        hide Next, Body, Escape, Decimal, DigitRun;
      }
    }
  }

  /** Reading a printed literal yields the bytes with every zero merged with the digits after it. */
  lemma ReadsBackAbsorbed(bytes: seq<Byte>, quote: Unit)
    requires IsQuote(quote)
    ensures FromLua(ToLua(bytes, quote)) == Absorbed(bytes)
  {
    var s := ToLua(bytes, quote);
    assert s[|s| - 1] == quote && Inside(s) == Body(bytes, quote);
    BodyReadsBack(bytes, quote);
    hide Body, Unescape;
  }

  lemma {:induction false} AbsorbedShrinks(bytes: seq<Byte>)
    ensures |Absorbed(bytes)| <= |bytes|
    ensures |Absorbed(bytes)| == |bytes| ==> NoDigitAfterZero(bytes)
    decreases |bytes|
  {
    if bytes != [] {
      var rest := bytes[1..];
      var k := if bytes[0] == 0 then DigitRun(rest) else 0;
      AbsorbedShrinks(bytes[1 + k..]);
      if |Absorbed(bytes)| == |bytes| {
        assert k == 0 && NoDigitAfterZero(rest);
        forall i | 0 <= i < |bytes| - 1 && bytes[i] == 0 ensures !IsDigit(bytes[i + 1]) {
          if i > 0 { assert rest[i - 1] == bytes[i] && rest[i] == bytes[i + 1]; }
        }
      }
      hide Decimal;
    }
  }

  lemma {:induction false} NothingAbsorbed(bytes: seq<Byte>)
    requires NoDigitAfterZero(bytes)
    ensures Absorbed(bytes) == bytes
    decreases |bytes|
  {
    if bytes != [] {
      var rest := bytes[1..];
      assert forall i :: 0 <= i < |rest| ==> rest[i] == bytes[i + 1];
      NothingAbsorbed(rest);
      assert bytes[0] == 0 ==> DigitRun(rest) == 0 && Decimal(ZERO, rest) == 0;
      assert bytes == [bytes[0]] + rest;
    }
  }

  /** The round trip holds for exactly the byte strings without a zero directly followed by a digit. */
  lemma RoundTripIff(bytes: seq<Byte>, quote: Unit)
    requires IsQuote(quote)
    ensures FromLua(ToLua(bytes, quote)) == bytes <==> NoDigitAfterZero(bytes)
  {
    ReadsBackAbsorbed(bytes, quote);
    AbsorbedShrinks(bytes);
    if NoDigitAfterZero(bytes) { NothingAbsorbed(bytes); }
    hide FromLua, ToLua, Absorbed;
  }

  /** Two different strings with the same text. */
  lemma DigitsAreAbsorbed(quote: Unit)
    requires IsQuote(quote)
    ensures FromLua(ToLua([0, 48, 49], quote)) == [1] == FromLua(ToLua([1], quote))
  {
    ReadsBackAbsorbed([0, 48, 49], quote);
    ReadsBackAbsorbed([1], quote);
    var b: seq<Byte> := [0, 48, 49];
    hide FromLua, ToLua;
    assert b[1..] == [48, 49] && b[3..] == [];
    assert DigitRun(b[1..]) == 2 && Decimal(ZERO, b[1..]) == 1;
  }

  // ---------------------------------------------------------------- the text in a source file

  ghost predicate Printable(s: Text) {
    forall i :: 0 <= i < |s| ==> 32 <= s[i] <= 126
  }

  /** The printed text is printable ASCII and at most four times as long as the bytes, plus the quotes. */
  lemma {:induction false} BodyIsPrintable(bytes: seq<Byte>, quote: Unit)
    requires IsQuote(quote)
    ensures Printable(Body(bytes, quote)) && |bytes| <= |Body(bytes, quote)| <= 4 * |bytes|
  {
    if bytes != [] {
      BodyIsPrintable(bytes[1..], quote);
    }
  }

  lemma LiteralIsPrintable(bytes: seq<Byte>, quote: Unit)
    requires IsQuote(quote)
    ensures Printable(ToLua(bytes, quote)) && |bytes| + 2 <= |ToLua(bytes, quote)| <= 4 * |bytes| + 2
  {
    BodyIsPrintable(bytes, quote);
  }

  /** The lexer's scan for the end of a string: the length up to and including the closing quote. */
  datatype Scan = Closed(length: nat) | BrokenByNewline | Unterminated

  function Longer(s: Scan, extra: nat): Scan {
    if s.Closed? then Closed(s.length + extra) else s
  }

  /** Scans the text behind the opening quote. */
  function ScanString(s: Text, quote: Unit): (r: Scan)
    ensures r.Closed? ==> 1 <= r.length <= |s|
    decreases |s|
  {
    if s == [] then Unterminated
    else if s[0] == BACKSLASH then if |s| == 1 then Unterminated else Longer(ScanString(s[2..], quote), 2)
    else if s[0] == quote then Closed(1)
    else if s[0] == NEWLINE || s[0] == RETURN then BrokenByNewline
    else Longer(ScanString(s[1..], quote), 1)
  }

  datatype Token = StringToken(value: seq<Byte>, raw: Text) | LexError

  /** The token the lexer makes of the string that starts with the quote at the head of `s`. */
  function Lexed(s: Text, quote: Unit): Token
    requires s != []
  {
    var scan := ScanString(s[1..], quote);
    if scan.Closed? then StringToken(FromLua(s[..1 + scan.length]), s[..1 + scan.length]) else LexError
  }

  lemma ScanNext(source: Text, end: nat, quote: Unit)
    requires end < |source|
    ensures var scan, ch := ScanString(source[end..], quote), source[end];
      && (ch == BACKSLASH && end + 1 == |source| ==> scan == Unterminated)
      && (ch == BACKSLASH && end + 1 < |source| ==> scan == Longer(ScanString(source[end + 2..], quote), 2))
      && (ch != BACKSLASH && ch == quote ==> scan == Closed(1))
      && (ch != BACKSLASH && ch != quote && (ch == NEWLINE || ch == RETURN) ==> scan == BrokenByNewline)
      && (ch != BACKSLASH && ch != quote && ch != NEWLINE && ch != RETURN ==>
            scan == Longer(ScanString(source[end + 1..], quote), 1))
  {
    var s := source[end..];
    assert s[0] == source[end] && s[1..] == source[end + 1..];
    if |s| > 1 { assert s[2..] == source[end + 2..]; }
  }

  method ReadString(source: Text, start: nat) returns (token: Token, end: nat)
    requires start < |source| && IsQuote(source[start])
    ensures token == Lexed(source[start..], source[start])
    ensures token.StringToken? ==> end == start + |token.raw|
  {
    hide FromLua, ScanString;
    var quote := source[start];
    ghost var s := source[start..];
    assert s[1..] == source[start + 1..];
    end := start + 1;
    while end < |source|
      invariant start + 1 <= end <= |source|
      invariant ScanString(s[1..], quote) == Longer(ScanString(source[end..], quote), end - start - 1)
    {
      var ch := source[end];
      ScanNext(source, end, quote);
      if ch == BACKSLASH {
        end := end + 1;
        if end < |source| {
          end := end + 1;
        } else {
          assert source[end..] == [];
          NothingToScan(quote);
        }
      } else if ch == quote {
        end := end + 1;
        assert source[start..end] == s[..end - start];
        var value := FromLuaLiteral(source[start..end]);
        return StringToken(value, source[start..end]), end;
      } else if ch == NEWLINE || ch == RETURN {
        return LexError, end;
      } else {
        end := end + 1;
      }
    }
    assert source[end..] == [];
    NothingToScan(quote);
    return LexError, end;
  }

  lemma NothingToScan(quote: Unit)
    ensures ScanString([], quote) == Unterminated
  {}

  lemma ScanPastEscape(b: Byte, quote: Unit, rest: Text)
    requires IsQuote(quote)
    ensures ScanString(Escape(b, quote) + rest, quote) == Longer(ScanString(rest, quote), |Escape(b, quote)|)
  {
    var s := Escape(b, quote) + rest;
    if |Escape(b, quote)| == 1 {
      assert s[1..] == rest;
    } else if |Escape(b, quote)| == 2 {
      assert s[2..] == rest;
    } else {
      var d := ThreeDigits(b);
      assert s[2..] == [d[1], d[2]] + rest && s[2..][1..] == [d[2]] + rest && s[2..][1..][1..] == rest;
      assert ScanString([d[2]] + rest, quote) == Longer(ScanString(rest, quote), 1);
      assert ScanString(s[2..], quote) == Longer(ScanString(rest, quote), 2);
    }
  }

  lemma {:induction false} ScanPastBody(bytes: seq<Byte>, quote: Unit, rest: Text)
    requires IsQuote(quote)
    ensures ScanString(Body(bytes, quote) + [quote] + rest, quote) == Closed(|Body(bytes, quote)| + 1)
  {
    if bytes == [] {
      assert Body(bytes, quote) + [quote] + rest == [quote] + rest;
    } else {
      var first, others := Escape(bytes[0], quote), Body(bytes[1..], quote);
      ScanPastBody(bytes[1..], quote, rest);
      ScanPastEscape(bytes[0], quote, others + [quote] + rest);
      assert Body(bytes, quote) + [quote] + rest == first + (others + [quote] + rest);
    }
  }

  /** A generated literal is a single token wherever it stands: the lexer ends the string at its last quote,
      whatever text follows, and reads the printed bytes. */
  lemma PrintedLiteralIsOneToken(bytes: seq<Byte>, quote: Unit, following: Text)
    requires IsQuote(quote)
    ensures Lexed(ToLua(bytes, quote) + following, quote) == StringToken(Absorbed(bytes), ToLua(bytes, quote))
  {
    var s := ToLua(bytes, quote) + following;
    assert s[1..] == Body(bytes, quote) + [quote] + following;
    ScanPastBody(bytes, quote, following);
    assert s[..|ToLua(bytes, quote)|] == ToLua(bytes, quote);
    ReadsBackAbsorbed(bytes, quote);
    hide FromLua, Body, ScanString, Absorbed;
  }

  // ---------------------------------------------------------------- long brackets

  function LongBracket(level: nat, content: Text): Text {
    [OPEN] + Equals(level) + [OPEN] + content + [CLOSE] + Equals(level) + [CLOSE]
  }

  predicate IsBytes(s: Text) {
    forall i :: 0 <= i < |s| ==> s[i] < 0x100
  }

  lemma BytesAreLatin1(s: Text)
    requires IsBytes(s)
    ensures Latin1(s) == s
  {}

  lemma ReadsContent(s: Text, content: Text)
    requires StartsAndEnds(s, OPEN, CLOSE) && LongContent(s) == Some(content)
    ensures FromLua(s) == Latin1(if content != [] && content[0] == NEWLINE then content[1..] else content)
  {
    hide LongContent, Unescape, Latin1;
  }

  /** A long bracket of any level yields its content less one leading newline, each code unit as its low byte, even if
      the content has a closing bracket of that level. */
  lemma LongBracketReadsBack(level: nat, content: Text)
    ensures var kept := if content != [] && content[0] == NEWLINE then content[1..] else content;
      && FromLua(LongBracket(level, content)) == Latin1(kept)
      && (IsBytes(content) ==> FromLua(LongBracket(level, content)) == kept)
  {
    hide FromLua, LongContent, LongBracket, StartsAndEnds, Latin1;
    var kept := if content != [] && content[0] == NEWLINE then content[1..] else content;
    LongContentIs(level, content);
    ReadsContent(LongBracket(level, content), content);
    if IsBytes(content) {
      BytesAreLatin1(kept);
    }
  }

  lemma LongContentIs(level: nat, content: Text)
    ensures var s := LongBracket(level, content); StartsAndEnds(s, OPEN, CLOSE) && LongContent(s) == Some(content)
  {
    var s := LongBracket(level, content);
    assert s[1..] == Equals(level) + ([OPEN] + content + [CLOSE] + Equals(level) + [CLOSE]);
    EqualsLead(level, [OPEN] + content + [CLOSE] + Equals(level) + [CLOSE]);
    hide LeadingEquals;
    assert s == ([OPEN] + Equals(level) + [OPEN] + content) + ([CLOSE] + Equals(level) + [CLOSE]);
    assert s[|s| - level - 2..] == [CLOSE] + Equals(level) + [CLOSE];
    assert s[level + 2..|s| - level - 2] == content;
    hide Equals;
  }

  lemma {:induction false} EqualsLead(level: nat, rest: Text)
    requires rest != [] && rest[0] != EQUALS
    ensures LeadingEquals(Equals(level) + rest) == level
  {
    if level > 0 {
      assert (Equals(level) + rest)[1..] == Equals(level - 1) + rest;
      EqualsLead(level - 1, rest);
    } else {
      assert Equals(level) + rest == rest;
    }
  }
}

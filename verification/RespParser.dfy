/** The incremental RESP2 reply parser of packages/queue/src/redis-queue-adapter.js. */
module RespParser {
  import opened Collections

  // ---------------------------------------------------------------- decimal numbers

  predicate IsDigit(c: char) { '0' <= c <= '9' }

  function DigitValue(c: char): int
    requires IsDigit(c)
  {
    c as int - '0' as int
  }

  function DigitChar(d: int): (c: char)
    requires 0 <= d < 10
    ensures IsDigit(c) && DigitValue(c) == d
  {
    (d + '0' as int) as char
  }

  function NatText(n: nat): (s: string)
    ensures s != "" && forall i :: 0 <= i < |s| ==> IsDigit(s[i])
  {
    if n < 10 then [DigitChar(n)] else NatText(n / 10) + [DigitChar(n % 10)]
  }

  function IntText(n: int): string {
    if n < 0 then "-" + NatText(-n) else NatText(n)
  }

  predicate IsSpace(c: char) { c in " \t\n\r" || c == 11 as char || c == 12 as char }

  /** The digits at the start of a text, read as a number after `acc`. */
  function LeadingDigits(s: string, acc: int): int {
    if s == "" || !IsDigit(s[0]) then acc else LeadingDigits(s[1..], 10 * acc + DigitValue(s[0]))
  }

  /** `parseInt(s, 10)`; `None` is NaN. */
  function ParseInt(s: string): Option<int> {
    if s == "" then None
    else if IsSpace(s[0]) then ParseInt(s[1..])
    else if s[0] == '-' then (if |s| > 1 && IsDigit(s[1]) then Some(-LeadingDigits(s[1..], 0)) else None)
    else if s[0] == '+' then (if |s| > 1 && IsDigit(s[1]) then Some(LeadingDigits(s[1..], 0)) else None)
    else if IsDigit(s[0]) then Some(LeadingDigits(s, 0))
    else None
  }

  lemma {:induction false} LeadingDigitsSnoc(s: string, c: char, acc: int)
    requires IsDigit(c) && forall i :: 0 <= i < |s| ==> IsDigit(s[i])
    ensures LeadingDigits(s + [c], acc) == 10 * LeadingDigits(s, acc) + DigitValue(c)
  {
    if s == "" {
      assert s + [c] == [c];
      assert LeadingDigits([c][1..], 10 * acc + DigitValue(c)) == 10 * acc + DigitValue(c);
    } else {
      assert (s + [c])[1..] == s[1..] + [c];
      LeadingDigitsSnoc(s[1..], c, 10 * acc + DigitValue(s[0]));
    }
  }

  lemma {:induction false} NatTextReads(n: nat)
    ensures LeadingDigits(NatText(n), 0) == n
  {
    if n < 10 {
      assert LeadingDigits([DigitChar(n)][1..], n) == n;
    } else {
      NatTextReads(n / 10);
      LeadingDigitsSnoc(NatText(n / 10), DigitChar(n % 10), 0);
    }
  }

  lemma IntTextParses(n: int)
    ensures ParseInt(IntText(n)) == Some(n)
  {
    if n < 0 {
      NatTextReads(-n);
      assert IntText(n)[1..] == NatText(-n);
    } else {
      NatTextReads(n);
    }
  }

  predicate AllDigits(s: string) {
    forall i :: 0 <= i < |s| ==> IsDigit(s[i])
  }

  predicate AllSpaces(s: string) {
    forall i :: 0 <= i < |s| ==> s[i] in " \t\n\r" || s[i] == 11 as char || s[i] == 12 as char
  }

  /** The number that a run of digits stands for. */
  function DecimalValue(digits: string): int
    requires AllDigits(digits)
  {
    if digits == "" then 0 else 10 * DecimalValue(digits[..|digits| - 1]) + DigitValue(digits[|digits| - 1])
  }

  lemma {:induction false} DigitsLead(digits: string, tail: string)
    requires AllDigits(digits) && (tail == "" || !IsDigit(tail[0]))
    ensures LeadingDigits(digits + tail, 0) == DecimalValue(digits)
  {
    TailIsCut(digits, tail, 0);
    DigitsRead(digits);
  }

  lemma {:induction false} TailIsCut(digits: string, tail: string, acc: int)
    requires AllDigits(digits) && (tail == "" || !IsDigit(tail[0]))
    ensures LeadingDigits(digits + tail, acc) == LeadingDigits(digits, acc)
    decreases |digits|
  {
    if digits == "" {
      assert digits + tail == tail;
    } else {
      assert (digits + tail)[1..] == digits[1..] + tail;
      TailIsCut(digits[1..], tail, 10 * acc + DigitValue(digits[0]));
    }
  }

  lemma {:induction false} DigitsRead(digits: string)
    requires AllDigits(digits)
    ensures LeadingDigits(digits, 0) == DecimalValue(digits)
    decreases |digits|
  {
    if digits != "" {
      var before := digits[..|digits| - 1];
      DigitsRead(before);
      LeadingDigitsSnoc(before, digits[|digits| - 1], 0);
      assert digits == before + [digits[|digits| - 1]];
    }
  }

  /** Spaces, a sign perhaps, digits, and what a number cannot go on with. */
  ghost predicate IsNumeral(s: string, spaces: string, sign: string, digits: string, tail: string) {
    && s == spaces + sign + digits + tail && AllSpaces(spaces) && (sign == "" || sign == "+" || sign == "-")
    && digits != "" && AllDigits(digits) && (tail == "" || !IsDigit(tail[0]))
  }

  lemma {:induction false} SpacesAreSkipped(spaces: string, s: string)
    requires AllSpaces(spaces)
    ensures ParseInt(spaces + s) == ParseInt(s)
    decreases |spaces|
  {
    if spaces == "" {
      assert spaces + s == s;
    } else {
      assert (spaces + s)[1..] == spaces[1..] + s;
      SpacesAreSkipped(spaces[1..], s);
    }
  }

  /** A numeral at the start of the text is read as its value, whatever follows. */
  lemma NumeralReads(s: string, spaces: string, sign: string, digits: string, tail: string)
    requires IsNumeral(s, spaces, sign, digits, tail)
    ensures ParseInt(s) == Some(if sign == "-" then -DecimalValue(digits) else DecimalValue(digits))
  {
    var t := sign + digits + tail;
    assert s == spaces + t;
    SpacesAreSkipped(spaces, t);
    DigitsLead(digits, tail);
    assert IsDigit(digits[0]);
    hide LeadingDigits, DecimalValue;
    if sign == "" {
      assert t == digits + tail;
    } else {
      assert t[0] == sign[0] && t[1..] == digits + tail;
    }
  }

  lemma SplitDigits(s: string) returns (digits: string, tail: string)
    ensures s == digits + tail && AllDigits(digits) && (tail == "" || !IsDigit(tail[0]))
    ensures s != "" && IsDigit(s[0]) ==> digits != ""
  {
    if s == "" || !IsDigit(s[0]) {
      return "", s;
    }
    digits, tail := SplitDigits(s[1..]);
    digits := [s[0]] + digits;
  }

  /** Anything else is no number. */
  lemma {:induction false} OnlyNumeralsRead(s: string) returns (spaces: string, sign: string, digits: string, tail: string)
    requires ParseInt(s).Some?
    ensures IsNumeral(s, spaces, sign, digits, tail)
    decreases |s|
  {
    if IsSpace(s[0]) {
      spaces, sign, digits, tail := OnlyNumeralsRead(s[1..]);
      assert s == [s[0]] + (spaces + sign + digits + tail);
      spaces := [s[0]] + spaces;
      return;
    }
    var n := if s[0] == '-' || s[0] == '+' then 1 else 0;
    digits, tail := SplitDigits(s[n..]);
    spaces, sign := "", s[..n];
    assert s == s[..n] + s[n..];
  }

  // ---------------------------------------------------------------- the parser

  datatype Value = Text(s: string) | Number(n: int) | NotANumber | Null | List(items: seq<Value>)

  function NumberOf(n: Option<int>): Value {
    if n.None? then NotANumber else Number(n.value)
  }

  /** `Incomplete` is the parser's `null`; `Broken` is a bulk string whose length is no number or below -1. */
  datatype Parsed = Incomplete | Broken | Reply(value: Value, isError: bool, consumed: nat)

  datatype ParsedItems = NoItems(why: Parsed) | Items(values: seq<Value>, used: nat)

  /** `buf.indexOf('\r\n')` */
  function FindCrlf(s: string): (r: Option<nat>)
    ensures r.Some? ==> r.value + 2 <= |s| && s[r.value] == '\r' && s[r.value + 1] == '\n'
  {
    if |s| < 2 then None
    else if s[0] == '\r' && s[1] == '\n' then Some(0)
    else match FindCrlf(s[1..]) case None => None case Some(i) => Some(i + 1)
  }

  /** The reply is longer by what precedes it. */
  function Shift(r: Parsed, n: nat): Parsed {
    if r.Reply? then Reply(r.value, r.isError, r.consumed + n) else r
  }

  function Parse(buf: string): (r: Parsed)
    ensures r.Reply? ==> 3 <= r.consumed <= |buf|
    decreases |buf|, 0
  {
    if |buf| < 3 then Incomplete
    else
      var crlf := FindCrlf(buf);
      if crlf.None? || crlf.value == 0 then Incomplete
      else Shift(ParseBody(buf[0], buf[1..crlf.value], buf[crlf.value + 2..]), crlf.value + 2)
  }

  /** What follows the type character: its line, and the text after the line. */
  function ParseBody(kind: char, line: string, rest: string): (r: Parsed)
    ensures r.Reply? ==> r.consumed <= |rest|
    decreases |rest|, 2
  {
    if kind == '+' then Reply(Text(line), false, 0)
    else if kind == '-' then Reply(Text(line), true, 0)
    else if kind == ':' then Reply(NumberOf(ParseInt(line)), false, 0)
    else if kind == '$' then
      var len := ParseInt(line);
      if len.None? || len.value < -1 then Broken
      else if len.value == -1 then Reply(Null, false, 0)
      else if |rest| < len.value + 2 then Incomplete
      else Reply(Text(rest[..len.value]), false, len.value + 2)
    else if kind == '*' then
      var count := ParseInt(line);
      if count == Some(-1) then Reply(Null, false, 0)
      else
        match ParseItems(rest, if count.None? then 0 else count.value)
        case NoItems(why) => why
        case Items(values, used) => Reply(List(values), false, used)
    else Incomplete
  }

  function ParseItems(rest: string, count: int): (r: ParsedItems)
    ensures r.Items? ==> r.used <= |rest|
    ensures r.NoItems? ==> !r.why.Reply?
    decreases |rest|, 1
  {
    if count <= 0 then Items([], 0)
    else
      match Parse(rest)
      case Reply(value, _, consumed) =>
        (match ParseItems(rest[consumed..], count - 1)
         case Items(values, used) => Items([value] + values, consumed + used)
         case NoItems(why) => NoItems(why))
      case why => NoItems(why)
  }

  /** Replies that no server sends: an unknown type is waited on for ever, an array with no count or a negative one other
      than -1 is empty. */
  lemma OddReplies(kind: char, line: string, rest: string)
    requires FindCrlf([kind] + line + "\r\n" + rest) == Some(|line| + 1)
    ensures var r := Parse([kind] + line + "\r\n" + rest);
      && (kind !in "+-:$*" ==> r == Incomplete)
      && (kind == '*' && (ParseInt(line).None? || ParseInt(line).value < -1) ==> r == Reply(List([]), false, |line| + 3))
      && (kind == ':' && ParseInt(line).None? ==> r == Reply(NotANumber, false, |line| + 3))
  {
    var buf := [kind] + line + "\r\n" + rest;
    assert buf[1..|line| + 1] == line && buf[|line| + 3..] == rest && buf[0] == kind;
    assert Parse(buf) == Shift(ParseBody(kind, line, rest), |line| + 3);
    hide ParseInt, FindCrlf, Parse;
    assert ParseItems(rest, 0) == Items([], 0);
    if kind == '*' && ParseInt(line).Some? && ParseInt(line).value < -1 {
      assert ParseItems(rest, ParseInt(line).value) == Items([], 0);
    }
  }

  /** What the loop has collected, followed by what it will still collect. */
  function Prepend(done: seq<Value>, offset: nat, r: ParsedItems): ParsedItems {
    if r.Items? then Items(done + r.values, offset + r.used) else r
  }

  lemma ParseItemsStep(rest: string, count: int)
    ensures count <= 0 ==> ParseItems(rest, count) == Items([], 0)
    ensures count > 0 && !Parse(rest).Reply? ==> ParseItems(rest, count) == NoItems(Parse(rest))
    ensures count > 0 && Parse(rest).Reply? ==>
              ParseItems(rest, count)
                == Prepend([Parse(rest).value], Parse(rest).consumed, ParseItems(rest[Parse(rest).consumed..], count - 1))
  {
    hide Parse;
  }

  lemma PrependTwice(a: seq<Value>, m: nat, b: seq<Value>, n: nat, r: ParsedItems)
    ensures Prepend(a, m, Prepend(b, n, r)) == Prepend(a + b, m + n, r)
  {
    if r.Items? {
      assert a + (b + r.values) == (a + b) + r.values;
    }
  }

  method ParseResp(buf: string) returns (r: Parsed)
    ensures r == Parse(buf)
    decreases |buf|, 1
  {
    if |buf| < 3 {
      return Incomplete;
    }
    var crlf := FindCrlf(buf);
    if crlf.None? || crlf.value == 0 {
      return Incomplete;
    }
    var line, start := buf[1..crlf.value], crlf.value + 2;
    if buf[0] == '+' {
      return Reply(Text(line), false, start);
    }
    if buf[0] == '-' {
      return Reply(Text(line), true, start);
    }
    if buf[0] == ':' {
      return Reply(NumberOf(ParseInt(line)), false, start);
    }
    if buf[0] == '$' {
      var len := ParseInt(line);
      if len.None? || len.value < -1 {
        return Broken;
      }
      if len.value == -1 {
        return Reply(Null, false, start);
      }
      var end := start + len.value;
      if |buf| < end + 2 {
        return Incomplete;
      }
      assert buf[start..][..len.value] == buf[start..end];
      return Reply(Text(buf[start..end]), false, end + 2);
    }
    if buf[0] == '*' {
      var count := ParseInt(line);
      if count == Some(-1) {
        return Reply(Null, false, start);
      }
      r := ParseElements(buf, start, if count.None? then 0 else count.value);
      return;
    }
    return Incomplete;
  }

  /** The loop over the elements of an array. */
  method ParseElements(buf: string, start: nat, count: int) returns (r: Parsed)
    requires 3 <= start <= |buf|
    ensures r == match ParseItems(buf[start..], count)
                 case NoItems(why) => why
                 case Items(values, used) => Reply(List(values), false, start + used)
    decreases |buf|, 0
  {
    hide Parse, ParseItems;
    var offset, arr := start, [];
    var i := 0;
    while i < count
      invariant 0 <= i && start <= offset <= |buf|
      invariant Prepend(arr, offset - start, ParseItems(buf[offset..], count - i)) == ParseItems(buf[start..], count)
      decreases count - i
    {
      ParseItemsStep(buf[offset..], count - i);
      var item := ParseResp(buf[offset..]);
      if !item.Reply? {
        return item;
      }
      assert buf[offset..][item.consumed..] == buf[offset + item.consumed..];
      PrependTwice(arr, offset - start, [item.value], item.consumed, ParseItems(buf[offset + item.consumed..], count - i - 1));
      arr := arr + [item.value];
      offset := offset + item.consumed;
      i := i + 1;
    }
    ParseItemsStep(buf[offset..], count - i);
    assert arr + [] == arr;
    return Reply(List(arr), false, offset);
  }

  // ---------------------------------------------------------------- a parsed reply is not affected by what follows it

  lemma {:induction false} FindCrlfStable(s: string, more: string)
    requires FindCrlf(s).Some?
    ensures FindCrlf(s + more) == FindCrlf(s)
  {
    if !(s[0] == '\r' && s[1] == '\n') {
      assert (s + more)[1..] == s[1..] + more;
      FindCrlfStable(s[1..], more);
    }
  }

  lemma {:induction false} ParseStable(buf: string, more: string)
    requires Parse(buf) != Incomplete
    ensures Parse(buf + more) == Parse(buf)
    decreases |buf|, 0
  {
    FindCrlfStable(buf, more);
    var crlf := FindCrlf(buf).value;
    var all := buf + more;
    assert all[0] == buf[0] && all[1..crlf] == buf[1..crlf] && all[crlf + 2..] == buf[crlf + 2..] + more;
    BodyStable(buf[0], buf[1..crlf], buf[crlf + 2..], more);
  }

  lemma {:induction false} BodyStable(kind: char, line: string, rest: string, more: string)
    requires ParseBody(kind, line, rest) != Incomplete
    ensures ParseBody(kind, line, rest + more) == ParseBody(kind, line, rest)
    decreases |rest|, 2
  {
    if kind == '$' {
      var len := ParseInt(line);
      if len.Some? && len.value >= 0 {
        assert (rest + more)[..len.value] == rest[..len.value];
      }
    } else if kind == '*' {
      var count := ParseInt(line);
      if count != Some(-1) {
        ParseItemsStable(rest, more, if count.None? then 0 else count.value);
      }
    }
  }

  lemma {:induction false} ParseItemsStable(rest: string, more: string, count: int)
    requires ParseItems(rest, count) != NoItems(Incomplete)
    ensures ParseItems(rest + more, count) == ParseItems(rest, count)
    decreases |rest|, 1
  {
    if count > 0 {
      ParseStable(rest, more);
      if Parse(rest).Reply? {
        var n := Parse(rest).consumed;
        assert (rest + more)[n..] == rest[n..] + more;
        ParseItemsStable(rest[n..], more, count - 1);
      }
    }
  }
}

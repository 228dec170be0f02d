/** Replies as the Redis serialization protocol specification (RESP2) encodes them, sections "Simple strings",
    "Simple errors", "Integers", "Bulk strings" and "Arrays", and what the parser makes of them. */
module RespEncoding {
  import opened Collections
  import opened RespParser

  // ---------------------------------------------------------------- replies and their encoding

  datatype Resp =
    | SimpleString(s: string)
    | SimpleError(s: string)
    | Integer(n: int)
    | BulkString(s: string)
    | NullBulk
    | NullArray
    | Array(items: seq<Resp>)

  const CRLF := "\r\n"

  function Utf8Length(c: char): nat {
    if c as int < 0x80 then 1 else if c as int < 0x800 then 2 else if c as int < 0x10000 then 3 else 4
  }

  /** `Buffer.byteLength(str, 'utf8')` */
  function ByteLength(s: string): (n: nat)
    ensures n >= |s|
  {
    if s == "" then 0 else Utf8Length(s[0]) + ByteLength(s[1..])
  }

  predicate IsAscii(s: string) {
    s == "" || (s[0] as int < 0x80 && IsAscii(s[1..]))
  }

  lemma {:induction false} ByteLengthOfAscii(s: string)
    ensures ByteLength(s) == |s| <==> IsAscii(s)
  {
    if s != "" {
      ByteLengthOfAscii(s[1..]);
    }
  }

  /** A bulk string: its length in bytes, and its text. */
  function BulkText(s: string): string {
    "$" + NatText(ByteLength(s)) + CRLF + s + CRLF
  }

  function Encode(r: Resp): string {
    match r
    case SimpleString(s) => "+" + s + CRLF
    case SimpleError(s) => "-" + s + CRLF
    case Integer(n) => ":" + IntText(n) + CRLF
    case BulkString(s) => BulkText(s)
    case NullBulk => "$-1" + CRLF
    case NullArray => "*-1" + CRLF
    case Array(items) => "*" + NatText(|items|) + CRLF + EncodeAll(items)
  }

  function EncodeAll(items: seq<Resp>): string {
    if items == [] then "" else Encode(items[0]) + EncodeAll(items[1..])
  }

  /** Simple strings and errors are lines. */
  predicate WellFormed(r: Resp) {
    match r
    case SimpleString(s) => FindCrlf(s) == None
    case SimpleError(s) => FindCrlf(s) == None
    case Array(items) => AllWellFormed(items)
    case _ => true
  }

  predicate AllWellFormed(items: seq<Resp>) {
    items == [] || (WellFormed(items[0]) && AllWellFormed(items[1..]))
  }

  /** Every bulk string in the reply, nested ones too, is ASCII: as many characters as bytes. */
  predicate BulkAscii(r: Resp) {
    match r
    case BulkString(s) => IsAscii(s)
    case Array(items) => AllBulkAscii(items)
    case _ => true
  }

  predicate AllBulkAscii(items: seq<Resp>) {
    items == [] || (BulkAscii(items[0]) && AllBulkAscii(items[1..]))
  }

  predicate Readable(r: Resp) {
    WellFormed(r) && BulkAscii(r)
  }

  predicate AllReadable(items: seq<Resp>) {
    AllWellFormed(items) && AllBulkAscii(items)
  }

  /** The JavaScript value a reply stands for; an error inside an array is its text. */
  function Meaning(r: Resp): Value {
    match r
    case SimpleString(s) => Text(s)
    case SimpleError(s) => Text(s)
    case Integer(n) => Number(n)
    case BulkString(s) => Text(s)
    case NullBulk => Null
    case NullArray => Null
    case Array(items) => List(Meanings(items))
  }

  function Meanings(items: seq<Resp>): (r: seq<Value>)
    ensures |r| == |items|
  {
    if items == [] then [] else [Meaning(items[0])] + Meanings(items[1..])
  }

  lemma {:induction false} FindCrlfAfterLine(line: string, more: string)
    requires FindCrlf(line) == None
    ensures FindCrlf(line + CRLF + more) == Some(|line|)
  {
    var s := line + CRLF + more;
    if line != "" {
      assert s[1..] == line[1..] + CRLF + more;
      FindCrlfAfterLine(line[1..], more);
      assert |line| > 1 ==> s[0] == line[0] && s[1] == line[1];
      if s[0] == '\r' && s[1] == '\n' { assert false; }
    }
  }

  lemma {:induction false} DigitsHaveNoCrlf(s: string)
    requires forall i :: 0 <= i < |s| ==> s[i] != '\r'
    ensures FindCrlf(s) == None
  {
    if |s| >= 2 {
      DigitsHaveNoCrlf(s[1..]);
    }
  }

  /** How the first line of an encoding is found. */
  lemma FirstLine(kind: char, line: string, more: string)
    requires FindCrlf(line) == None && kind != '\r'
    ensures var buf := [kind] + line + CRLF + more;
      && |buf| >= 3 && FindCrlf(buf) == Some(1 + |line|)
      && buf[0] == kind && buf[1..1 + |line|] == line && buf[3 + |line|..] == more
  {
    var buf := [kind] + line + CRLF + more;
    assert buf[1..] == line + CRLF + more;
    FindCrlfAfterLine(line, more);
  }

  lemma NumberLine(n: int)
    ensures FindCrlf(IntText(n)) == None && ParseInt(IntText(n)) == Some(n)
    ensures n >= 0 ==> IntText(n) == NatText(n)
  {
    IntTextParses(n);
    var s := IntText(n);
    forall i | 0 <= i < |s| ensures s[i] != '\r' {
      if n < 0 && i > 0 { assert s[i] == NatText(-n)[i - 1]; }
    }
    DigitsHaveNoCrlf(s);
  }

  /** A text that starts with a kind and a line parses as its body. */
  lemma ParseLine(kind: char, line: string, more: string)
    requires FindCrlf(line) == None && kind != '\r'
    ensures Parse([kind] + line + CRLF + more) == Shift(ParseBody(kind, line, more), 3 + |line|)
  {
    FirstLine(kind, line, more);
  }

  /** An encoded reply with ASCII bulk strings, followed by any text, parses to its value and uses up exactly itself. */
  lemma {:induction false} RoundTrip(r: Resp, more: string)
    requires Readable(r)
    ensures Parse(Encode(r) + more) == Reply(Meaning(r), r.SimpleError?, |Encode(r)|)
    decreases r, 0
  {
    hide Parse, ParseItems, FindCrlf, IntText;
    match r
    case SimpleString(s) =>
      LineRoundTrip('+', s, more);
      assert Encode(r) + more == ['+'] + s + CRLF + more;
    case SimpleError(s) =>
      LineRoundTrip('-', s, more);
      assert Encode(r) + more == ['-'] + s + CRLF + more;
    case Integer(n) =>
      IntegerRoundTrip(n, more);
      assert Encode(r) + more == [':'] + IntText(n) + CRLF + more;
    case BulkString(s) =>
      ByteLengthOfAscii(s);
      BulkRoundTrip(s, more);
    case NullBulk =>
      NullRoundTrip('$', more);
      assert Encode(r) + more == ['$'] + "-1" + CRLF + more;
    case NullArray =>
      NullRoundTrip('*', more);
      assert Encode(r) + more == ['*'] + "-1" + CRLF + more;
    case Array(items) =>
      ItemsRoundTrip(items, more);
      ArrayRoundTrip(items, more);
  }

  lemma LineRoundTrip(kind: char, line: string, more: string)
    requires FindCrlf(line) == None && (kind == '+' || kind == '-')
    ensures Parse([kind] + line + CRLF + more) == Reply(Text(line), kind == '-', 3 + |line|)
  {
    ParseLine(kind, line, more);
    hide Parse, FindCrlf;
  }

  lemma IntegerRoundTrip(n: int, more: string)
    ensures Parse([':'] + IntText(n) + CRLF + more) == Reply(Number(n), false, 3 + |IntText(n)|)
  {
    NumberLine(n);
    ParseLine(':', IntText(n), more);
    hide Parse, FindCrlf, IntText, ParseInt;
  }

  lemma NullRoundTrip(kind: char, more: string)
    requires kind == '$' || kind == '*'
    ensures Parse([kind] + "-1" + CRLF + more) == Reply(Null, false, 5)
  {
    NumberLine(-1);
    assert IntText(-1) == "-1" by { assert NatText(1) == "1"; }
    ParseLine(kind, "-1", more);
  }

  lemma BulkRoundTrip(s: string, more: string)
    requires ByteLength(s) == |s|
    ensures Parse(BulkText(s) + more) == Reply(Text(s), false, |BulkText(s)|)
  {
    NumberLine(|s|);
    hide Parse, NatText, IntText, ParseInt, FindCrlf;
    var tail := s + CRLF + more;
    ParseLine('$', NatText(|s|), tail);
    assert BulkText(s) + more == ['$'] + NatText(|s|) + CRLF + tail;
    assert tail[..|s|] == s;
  }

  /** A bulk string with a longer byte length is read past its end. */
  lemma WideBulkMisread(s: string, more: string)
    requires ByteLength(s) != |s|
    ensures Parse(BulkText(s) + more).Reply? ==> Parse(BulkText(s) + more).value != Text(s)
    ensures Parse(BulkText(s)) == Incomplete
  {
    var n := ByteLength(s);
    NumberLine(n);
    hide Parse, NatText, IntText, ParseInt, FindCrlf, ByteLength;
    ParseLine('$', NatText(n), s + CRLF + more);
    ParseLine('$', NatText(n), s + CRLF);
    assert BulkText(s) + more == ['$'] + NatText(n) + CRLF + (s + CRLF + more);
    assert BulkText(s) == ['$'] + NatText(n) + CRLF + (s + CRLF);
  }

  lemma ArrayRoundTrip(items: seq<Resp>, more: string)
    requires ParseItems(EncodeAll(items) + more, |items|) == Items(Meanings(items), |EncodeAll(items)|)
    ensures Parse(Encode(Array(items)) + more) == Reply(List(Meanings(items)), false, |Encode(Array(items))|)
  {
    NumberLine(|items|);
    hide Parse, ParseItems, EncodeAll, Meanings, NatText, IntText, ParseInt, FindCrlf;
    var tail := EncodeAll(items) + more;
    ParseLine('*', NatText(|items|), tail);
    assert Encode(Array(items)) + more == ['*'] + NatText(|items|) + CRLF + tail;
    assert ParseBody('*', NatText(|items|), tail) == Reply(List(Meanings(items)), false, |EncodeAll(items)|);
    assert |Encode(Array(items))| == 3 + |NatText(|items|)| + |EncodeAll(items)|;
  }

  lemma {:induction false} ItemsRoundTrip(items: seq<Resp>, more: string)
    requires AllReadable(items)
    ensures ParseItems(EncodeAll(items) + more, |items|) == Items(Meanings(items), |EncodeAll(items)|)
    decreases items, 1
  {
    if items != [] {
      var first, tail := Encode(items[0]), EncodeAll(items[1..]) + more;
      ConcatAssoc(first, EncodeAll(items[1..]), more);
      DropPrefix(first, tail);
      RoundTrip(items[0], tail);
      ItemsRoundTrip(items[1..], more);
      ParseItemsStep(first + tail, |items|);
      hide Parse, ParseItems, Encode, Meaning, FindCrlf;
    }
  }

  lemma PrependIsInjective(v: Value, n: nat, r: ParsedItems, values: seq<Value>, used: nat)
    ensures Prepend([v], n, r) == Items([v] + values, n + used) <==> r == Items(values, used)
  {
    if r.Items? {
      assert ([v] + r.values)[1..] == r.values && ([v] + values)[1..] == values;
    }
  }

  /** A reply with a wider bulk string is never read as what it means. */
  lemma {:induction false} Misread(r: Resp, more: string)
    requires WellFormed(r) && !BulkAscii(r)
    ensures Parse(Encode(r) + more).Reply? ==> Parse(Encode(r) + more).value != Meaning(r)
    decreases r, 0
  {
    hide Parse, ParseItems, FindCrlf, IntText, NatText;
    match r
    case BulkString(s) =>
      ByteLengthOfAscii(s);
      WideBulkMisread(s, more);
    case Array(items) =>
      ItemsMisread(items, more);
      ArrayMisread(items, more);
  }

  lemma ArrayMisread(items: seq<Resp>, more: string)
    requires var r := ParseItems(EncodeAll(items) + more, |items|); r.Items? ==> r.values != Meanings(items)
    ensures var p := Parse(Encode(Array(items)) + more); p.Reply? ==> p.value != List(Meanings(items))
  {
    NumberLine(|items|);
    hide Parse, ParseItems, EncodeAll, Meanings, NatText, IntText, ParseInt, FindCrlf;
    var tail := EncodeAll(items) + more;
    ParseLine('*', NatText(|items|), tail);
    assert Encode(Array(items)) + more == ['*'] + NatText(|items|) + CRLF + tail;
  }

  lemma ConsIsInjective(v: Value, vs: seq<Value>, w: Value, ws: seq<Value>)
    requires [v] + vs == [w] + ws
    ensures v == w && vs == ws
  {
    assert ([v] + vs)[0] == v && ([w] + ws)[0] == w;
    assert ([v] + vs)[1..] == vs && ([w] + ws)[1..] == ws;
  }

  /** Items are read as `v` and `vs` only if the first is read as `v` and the others as `vs`. */
  lemma ItemsReadSplit(text: string, count: int, v: Value, vs: seq<Value>)
    requires count > 0 && ParseItems(text, count).Items? && ParseItems(text, count).values == [v] + vs
    ensures Parse(text).Reply? && Parse(text).value == v
    ensures var rest := ParseItems(text[Parse(text).consumed..], count - 1); rest.Items? && rest.values == vs
  {
    ParseItemsStep(text, count);
    hide Parse, ParseItems;
    var p := Parse(text);
    var rest := ParseItems(text[p.consumed..], count - 1);
    ConsIsInjective(p.value, rest.values, v, vs);
  }

  lemma {:induction false} ItemsMisread(items: seq<Resp>, more: string)
    requires AllWellFormed(items) && !AllBulkAscii(items)
    ensures var r := ParseItems(EncodeAll(items) + more, |items|); r.Items? ==> r.values != Meanings(items)
    decreases items, 1
  {
    var first, tail := Encode(items[0]), EncodeAll(items[1..]) + more;
    var text := EncodeAll(items) + more;
    assert text == first + tail by { ConcatAssoc(first, EncodeAll(items[1..]), more); }
    assert Meanings(items) == [Meaning(items[0])] + Meanings(items[1..]);
    hide Parse, ParseItems, Encode, EncodeAll, Meaning, Meanings;
    var r := ParseItems(text, |items|);
    if r.Items? && r.values == Meanings(items) {
      ItemsReadSplit(text, |items|, Meaning(items[0]), Meanings(items[1..]));
      if BulkAscii(items[0]) {
        RoundTrip(items[0], tail);
        DropPrefix(first, tail);
        ItemsMisread(items[1..], more);
      } else {
        Misread(items[0], tail);
      }
      assert false;
    }
  }

  /** RESP2 round trip: lengths are sent in bytes and read in characters, so an encoded reply, whatever follows it,
      parses to its value and uses up exactly itself exactly when all its bulk strings are ASCII. */
  lemma RoundTripIff(r: Resp, more: string)
    requires WellFormed(r)
    ensures Parse(Encode(r) + more) == Reply(Meaning(r), r.SimpleError?, |Encode(r)|) <==> BulkAscii(r)
  {
    hide Parse, Encode, Meaning, BulkAscii, WellFormed;
    if BulkAscii(r) { RoundTrip(r, more); } else { Misread(r, more); }
  }

  /** No strict prefix of such a reply parses: the client waits for the rest. */
  lemma PrefixIsIncomplete(r: Resp, n: nat)
    requires Readable(r) && n < |Encode(r)|
    ensures Parse(Encode(r)[..n]) == Incomplete
  {
    var prefix, rest := Encode(r)[..n], Encode(r)[n..];
    assert prefix + rest == Encode(r) == Encode(r) + "";
    RoundTrip(r, "");
    if Parse(prefix) != Incomplete {
      ParseStable(prefix, rest);
      assert false;
    }
  }
}

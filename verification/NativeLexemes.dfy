/** What a source text is made of, as a grammar: its lexemes, how each is written, and which are tokens. The scanner of
    `NativeScan` is held against it. */
module NativeLexemes {
  import opened Collections
  import opened NativeScan

  // ---------------------------------------------------------------- the grammar

  /** A character of a quoted string, or a backslash and the character it escapes. */
  datatype Piece = Char(b: Byte) | Escaped(b: Byte)

  /** `closed` is false for what the end of the text leaves unfinished. */
  datatype Lexeme =
    | White(b: Byte)
    | LineComment(text: Bytes)
    | BlockComment(text: Bytes, closed: bool)
    | Quoted(quote: Byte, pieces: seq<Piece>, closed: bool, lastBackslash: bool)
    | Long(text: Bytes, closed: bool)
    | Word(text: Bytes)
    | Number(text: Bytes)
    | Opening(b: Byte)
    | Closing(b: Byte)
    | Other(b: Byte)

  predicate IsLetter(b: Byte) {
    'a' as int <= b <= 'z' as int || 'A' as int <= b <= 'Z' as int
  }

  predicate IsFigure(b: Byte) {
    '0' as int <= b <= '9' as int
  }

  predicate IsWordPart(b: Byte) {
    IsLetter(b) || IsFigure(b) || b == '_' as int
  }

  predicate IsSign(b: Byte) {
    b == '+' as int || b == '-' as int
  }

  predicate IsWhite(b: Byte) {
    b == ' ' as int || b == '\t' as int || b == '\n' as int || b == 11 || b == 12 || b == '\r' as int
  }

  predicate IsAnyQuote(b: Byte) {
    b == '"' as int || b == '\'' as int
  }

  /** Behind an exponent letter, or behind signs that are. */
  predicate AfterExponent(text: Bytes) {
    text != [] &&
    var last := text[|text| - 1];
    last == 'e' as int || last == 'E' as int || last == 'p' as int || last == 'P' as int
    || (IsSign(last) && AfterExponent(text[..|text| - 1]))
  }

  /** The byte may continue the number. */
  predicate Continues(text: Bytes, b: Byte) {
    IsWordPart(b) || b == '.' as int || (IsSign(b) && AfterExponent(text))
  }

  const DASHES: Bytes := ['-' as int, '-' as int]
  const OPENS: Bytes := ['[' as int, '[' as int]
  const CLOSES: Bytes := [']' as int, ']' as int]

  /** `]]` does not begin inside the text. */
  ghost predicate NoClose(text: Bytes, behind: Bytes) {
    forall i :: 0 <= i < |text| ==> !(CLOSES <= (text + behind)[i..])
  }

  predicate PieceOk(piece: Piece, quote: Byte) {
    piece.Char? ==> piece.b != quote && piece.b != '\\' as int
  }

  ghost predicate WellFormed(x: Lexeme) {
    match x
    case White(b) => IsWhite(b)
    case LineComment(text) => '\n' as int !in text && !(OPENS <= text)
    case BlockComment(text, closed) => NoClose(text, if closed then CLOSES else [])
    case Quoted(quote, pieces, closed, lastBackslash) =>
      IsAnyQuote(quote) && (forall i :: 0 <= i < |pieces| ==> PieceOk(pieces[i], quote)) && !(closed && lastBackslash)
    case Long(text, closed) => NoClose(text, if closed then CLOSES else [])
    case Word(text) =>
      text != [] && (IsLetter(text[0]) || text[0] == '_' as int) && forall i :: 0 <= i < |text| ==> IsWordPart(text[i])
    case Number(text) =>
      text != [] && IsFigure(text[0]) && forall i :: 0 <= i < |text| ==> Continues(text[..i], text[i])
    case Opening(b) => b == '(' as int || b == '{' as int || b == '[' as int
    case Closing(b) => b == ')' as int || b == '}' as int || b == ']' as int
    case Other(b) =>
      !IsWhite(b) && !IsAnyQuote(b) && !IsWordPart(b)
      && b != '(' as int && b != '{' as int && b != '[' as int && b != ')' as int && b != '}' as int && b != ']' as int
  }

  function PieceText(piece: Piece): Bytes {
    match piece
    case Char(b) => [b]
    case Escaped(b) => ['\\' as int, b]
  }

  function PiecesText(pieces: seq<Piece>): Bytes {
    if pieces == [] then [] else PieceText(pieces[0]) + PiecesText(pieces[1..])
  }

  function QuotedTail(quote: Byte, closed: bool, lastBackslash: bool): Bytes {
    if closed then [quote] else if lastBackslash then ['\\' as int] else []
  }

  /** How a lexeme is written. */
  function TextOf(x: Lexeme): Bytes {
    match x
    case White(b) => [b]
    case LineComment(text) => DASHES + text
    case BlockComment(text, closed) => DASHES + OPENS + text + (if closed then CLOSES else [])
    case Quoted(quote, pieces, closed, lastBackslash) =>
      [quote] + PiecesText(pieces) + QuotedTail(quote, closed, lastBackslash)
    case Long(text, closed) => OPENS + text + (if closed then CLOSES else [])
    case Word(text) => text
    case Number(text) => text
    case Opening(b) => [b]
    case Closing(b) => [b]
    case Other(b) => [b]
  }

  /** The lexeme does not run into the text behind it. */
  predicate EndsBefore(x: Lexeme, rest: Bytes) {
    match x
    case LineComment(_) => rest == [] || rest[0] == '\n' as int
    case BlockComment(_, closed) => closed || rest == []
    case Quoted(_, _, closed, _) => closed || rest == []
    case Long(_, closed) => closed || rest == []
    case Word(_) => rest == [] || !IsWordPart(rest[0])
    case Number(text) => rest == [] || !Continues(text, rest[0])
    case Opening(b) => b == '[' as int ==> rest == [] || rest[0] != '[' as int
    case Other(b) => b == '-' as int ==> rest == [] || rest[0] != '-' as int
    case _ => true
  }

  predicate IsToken(x: Lexeme) {
    !x.White? && !x.LineComment? && !x.BlockComment?
  }

  ghost predicate AllWellFormed(xs: seq<Lexeme>) {
    forall i :: 0 <= i < |xs| ==> WellFormed(xs[i])
  }

  function Written(xs: seq<Lexeme>): Bytes {
    if xs == [] then [] else TextOf(xs[0]) + Written(xs[1..])
  }

  predicate Apart(xs: seq<Lexeme>) {
    xs == [] || (EndsBefore(xs[0], Written(xs[1..])) && Apart(xs[1..]))
  }

  function TokenCount(xs: seq<Lexeme>): nat {
    if xs == [] then 0 else (if IsToken(xs[0]) then 1 else 0) + TokenCount(xs[1..])
  }

  /** How many brackets are open behind the lexemes; a closing one too many is ignored. */
  function OpenBrackets(xs: seq<Lexeme>): nat {
    if xs == [] then 0
    else
      var before, last := OpenBrackets(xs[..|xs| - 1]), xs[|xs| - 1];
      if last.Opening? then before + 1 else if last.Closing? && before > 0 then before - 1 else before
  }

  // ---------------------------------------------------------------- one lexeme is one item

  lemma ClassesAre(b: Byte)
    ensures IsLetter(b) <==> IsAlpha(b)
    ensures IsFigure(b) <==> IsDigit(b)
    ensures IsWhite(b) <==> IsSpace(b)
    ensures IsWordPart(b) <==> IsIdentifierPart(b)
    ensures IsAnyQuote(b) <==> b == QUOTE || b == APOSTROPHE
    ensures IsSign(b) <==> b == PLUS || b == MINUS
  {}

  lemma PrefixOfTwo(s: Bytes, a: Byte, b: Byte)
    ensures StartsWith(s, a, b) <==> [a, b] <= s
  {}

  lemma {:induction false} LineReads(text: Bytes, rest: Bytes)
    requires '\n' as int !in text && (rest == [] || rest[0] == '\n' as int)
    ensures LineRest(text + rest) == |text|
    decreases |text|
  {
    if text == [] {
      assert text + rest == rest;
    } else {
      assert (text + rest)[1..] == text[1..] + rest;
      assert text[0] in text;
      LineReads(text[1..], rest);
    }
  }

  lemma {:induction false} LongReads(text: Bytes, behind: Bytes)
    requires NoClose(text, behind) && (behind == [] || CLOSES <= behind)
    ensures LongBody(text + behind) == |text|
    decreases |text|
  {
    var s := text + behind;
    PrefixOfTwo(s, CLOSE, CLOSE);
    if text == [] {
      assert s == behind;
    } else {
      assert s[0..] == s && !(CLOSES <= s[0..]);
      assert s[1..] == text[1..] + behind;
      forall i | 0 <= i < |text[1..]| ensures !(CLOSES <= (text[1..] + behind)[i..]) {
        assert (text[1..] + behind)[i..] == s[i + 1..];
      }
      LongReads(text[1..], behind);
    }
  }

  /** A closing bracket behind the text is found where it is, whatever follows. */
  lemma ClosedLongReads(text: Bytes, rest: Bytes)
    requires NoClose(text, CLOSES)
    ensures LongLength(text + CLOSES + rest) == |text| + 2
  {
    var behind := CLOSES + rest;
    forall i | 0 <= i < |text| ensures !(CLOSES <= (text + behind)[i..]) {
      assert (text + CLOSES)[i..] <= (text + behind)[i..];
      assert |(text + CLOSES)[i..]| >= 2;
    }
    LongReads(text, behind);
    assert text + CLOSES + rest == text + behind;
  }

  lemma OpenLongReads(text: Bytes)
    requires NoClose(text, [])
    ensures LongLength(text) == |text|
  {
    LongReads(text, []);
    assert text + [] == text;
  }

  lemma {:induction false} PiecesRead(pieces: seq<Piece>, rest: Bytes, quote: Byte)
    requires IsAnyQuote(quote) && forall i :: 0 <= i < |pieces| ==> PieceOk(pieces[i], quote)
    ensures StringRest(PiecesText(pieces) + rest, quote) == |PiecesText(pieces)| + StringRest(rest, quote)
    decreases |pieces|
  {
    var s := PiecesText(pieces) + rest;
    if pieces == [] {
      assert s == rest;
    } else {
      var more := PiecesText(pieces[1..]) + rest;
      assert PieceOk(pieces[0], quote);
      PiecesRead(pieces[1..], rest, quote);
      assert s == PieceText(pieces[0]) + more;
      assert s[|PieceText(pieces[0])|..] == more;
    }
  }

  lemma {:induction false} WordReads(text: Bytes, rest: Bytes)
    requires forall i :: 0 <= i < |text| ==> IsWordPart(text[i])
    requires rest == [] || !IsWordPart(rest[0])
    ensures IdentifierRest(text + rest) == |text|
    decreases |text|
  {
    if text == [] {
      assert text + rest == rest;
    } else {
      assert (text + rest)[1..] == text[1..] + rest;
      WordReads(text[1..], rest);
    }
  }

  lemma AfterOneMore(text: Bytes, b: Byte)
    ensures AfterExponent(text + [b]) == SeenExponent(b, AfterExponent(text))
  {
    assert (text + [b])[..|text|] == text;
  }

  lemma {:induction false} NumberReads(text: Bytes, k: nat, rest: Bytes)
    requires k <= |text| && forall i :: 0 <= i < |text| ==> Continues(text[..i], text[i])
    requires rest == [] || !Continues(text, rest[0])
    ensures NumberRest(text[k..] + rest, AfterExponent(text[..k])) == |text| - k
    decreases |text| - k
  {
    var s := text[k..] + rest;
    if k == |text| {
      assert s == rest && text[..k] == text;
    } else {
      assert Continues(text[..k], text[k]);
      assert text[..k + 1] == text[..k] + [text[k]];
      AfterOneMore(text[..k], text[k]);
      hide AfterExponent;
      assert s[0] == text[k] && s[1..] == text[k + 1..] + rest;
      NumberReads(text, k + 1, rest);
    }
  }

  function KindOf(x: Lexeme): Kind {
    if !IsToken(x) then Blank else if x.Opening? then Opens else if x.Closing? then Closes else Plain
  }

  lemma StaysLineComment(text: Bytes, rest: Bytes)
    requires !(OPENS <= text) && (rest == [] || rest[0] == '\n' as int)
    ensures !(OPENS <= text + rest)
  {
    var s := text + rest;
    if |text| == 0 {
      assert s == rest;
    } else if |text| == 1 && rest != [] {
      assert s[1] == rest[0];
    } else {
      assert |text| > 1 ==> s[0] == text[0] && s[1] == text[1];
    }
  }

  lemma FirstOfLineComment(text: Bytes, rest: Bytes)
    requires WellFormed(LineComment(text)) && EndsBefore(LineComment(text), rest)
    ensures First(DASHES + text + rest) == Item(Blank, 2 + |text|)
  {
    var s := DASHES + text + rest;
    assert s[2..] == text + rest;
    LineReads(text, rest);
    PrefixOfTwo(text + rest, OPEN, OPEN);
    StaysLineComment(text, rest);
    hide LineRest;
  }

  lemma BlockStarts(body: Bytes)
    requires LongLength(body) == |body|
    ensures First(DASHES + OPENS + body) == Item(Blank, 4 + |body|)
  {
    var s := DASHES + OPENS + body;
    assert s[4..] == body && s[2..] == OPENS + body;
    hide LongLength, LineRest;
  }

  lemma BlockStartsClosed(text: Bytes, rest: Bytes)
    requires LongLength(text + CLOSES + rest) == |text| + 2
    ensures First(DASHES + OPENS + text + CLOSES + rest) == Item(Blank, 6 + |text|)
  {
    var s := DASHES + OPENS + text + CLOSES + rest;
    assert s[4..] == text + CLOSES + rest && s[2..] == OPENS + (text + CLOSES + rest);
    hide LongLength, LineRest;
  }

  lemma FirstOfBlockComment(text: Bytes, closed: bool, rest: Bytes)
    requires WellFormed(BlockComment(text, closed)) && EndsBefore(BlockComment(text, closed), rest)
    ensures var t := TextOf(BlockComment(text, closed)); First(t + rest) == Item(Blank, |t|)
  {
    var t := TextOf(BlockComment(text, closed));
    hide First;
    if closed {
      ClosedLongReads(text, rest);
      BlockStartsClosed(text, rest);
    } else {
      OpenLongReads(text);
      BlockStarts(text);
      assert t + rest == DASHES + OPENS + text;
    }
    hide LongLength, NoClose;
  }

  lemma TailReads(quote: Byte, closed: bool, lastBackslash: bool, rest: Bytes)
    requires IsAnyQuote(quote) && !(closed && lastBackslash) && (closed || rest == [])
    ensures var tail := QuotedTail(quote, closed, lastBackslash); StringRest(tail + rest, quote) == |tail|
  {}

  lemma FirstOfQuoted(quote: Byte, pieces: seq<Piece>, closed: bool, lastBackslash: bool, rest: Bytes)
    requires var x := Quoted(quote, pieces, closed, lastBackslash); WellFormed(x) && EndsBefore(x, rest)
    ensures var text := TextOf(Quoted(quote, pieces, closed, lastBackslash)); First(text + rest) == Item(NativeScan.Plain, |text|)
  {
    var tail := QuotedTail(quote, closed, lastBackslash);
    TailReads(quote, closed, lastBackslash, rest);
    PiecesRead(pieces, tail + rest, quote);
    assert IsAnyQuote(quote);
    hide PiecesText, StringRest, PieceOk, QuotedTail;
    QuoteStarts(quote, PiecesText(pieces), tail, rest);
  }

  lemma QuoteStarts(quote: Byte, body: Bytes, tail: Bytes, rest: Bytes)
    requires IsAnyQuote(quote) && StringRest(body + (tail + rest), quote) == |body| + |tail|
    ensures First([quote] + body + tail + rest) == Item(NativeScan.Plain, 1 + |body| + |tail|)
  {
    var s := [quote] + body + tail + rest;
    assert s[1..] == body + (tail + rest);
    hide StringRest;
  }

  lemma FirstOfLong(text: Bytes, closed: bool, rest: Bytes)
    requires WellFormed(Long(text, closed)) && EndsBefore(Long(text, closed), rest)
    ensures var t := TextOf(Long(text, closed)); First(t + rest) == Item(NativeScan.Plain, |t|)
  {
    var s := TextOf(Long(text, closed)) + rest;
    if closed {
      assert s[2..] == text + CLOSES + rest;
      ClosedLongReads(text, rest);
    } else {
      assert s[2..] == text;
      OpenLongReads(text);
    }
    hide LongLength;
  }

  lemma FirstOfWord(text: Bytes, rest: Bytes)
    requires WellFormed(Word(text)) && EndsBefore(Word(text), rest)
    ensures First(text + rest) == Item(NativeScan.Plain, |text|)
  {
    ClassesAre(text[0]);
    WordReads(text, rest);
    assert (text + rest)[0] == text[0];
    hide IdentifierRest;
  }

  lemma FirstOfNumber(text: Bytes, rest: Bytes)
    requires WellFormed(Number(text)) && EndsBefore(Number(text), rest)
    ensures First(text + rest) == Item(NativeScan.Plain, |text|)
  {
    ClassesAre(text[0]);
    NumberReads(text, 0, rest);
    assert text[0..] == text && text[..0] == [];
    assert (text + rest)[0] == text[0];
    hide NumberRest;
  }

  lemma FirstOfOne(x: Lexeme, rest: Bytes)
    requires WellFormed(x) && EndsBefore(x, rest) && (x.White? || x.Opening? || x.Closing? || x.Other?)
    ensures First(TextOf(x) + rest) == Item(KindOf(x), 1)
  {
    var s := [x.b] + rest;
    ClassesAre(x.b);
    assert s[0] == x.b && (|s| > 1 ==> s[1] == rest[0]);
  }

  /** The scanner takes one lexeme off the text, whatever follows that the lexeme does not run into. */
  lemma FirstOf(x: Lexeme, rest: Bytes)
    requires WellFormed(x) && EndsBefore(x, rest)
    ensures TextOf(x) != [] && First(TextOf(x) + rest) == Item(KindOf(x), |TextOf(x)|)
  {
    hide First;
    match x
    case LineComment(text) => FirstOfLineComment(text, rest);
    case BlockComment(text, closed) => FirstOfBlockComment(text, closed, rest);
    case Quoted(quote, pieces, closed, lastBackslash) => FirstOfQuoted(quote, pieces, closed, lastBackslash, rest);
    case Long(text, closed) => FirstOfLong(text, closed, rest);
    case Word(text) => FirstOfWord(text, rest);
    case Number(text) => FirstOfNumber(text, rest);
    case _ => FirstOfOne(x, rest);
  }

  // ---------------------------------------------------------------- whole texts

  lemma RestOf(x: Lexeme, rest: Bytes)
    requires WellFormed(x) && EndsBefore(x, rest)
    ensures var s := TextOf(x) + rest; s != [] && First(s).kind == KindOf(x) && Rest(s) == rest
  {
    FirstOf(x, rest);
    hide First, TextOf, KindOf;
    assert (TextOf(x) + rest)[|TextOf(x)|..] == rest;
  }

  lemma {:induction false} TokensOfLexemes(xs: seq<Lexeme>)
    requires AllWellFormed(xs) && Apart(xs)
    ensures Tokens(Written(xs)) == TokenCount(xs)
    decreases |xs|
  {
    hide First, Rest, TextOf, WellFormed, EndsBefore;
    if xs != [] {
      RestOf(xs[0], Written(xs[1..]));
      TokensOfLexemes(xs[1..]);
    } else {
      assert Written(xs) == [];
    }
  }

  /** How many brackets are open behind `done` and `k` more lexemes. */
  function OpenAt(done: seq<Lexeme>, xs: seq<Lexeme>, k: nat): nat
    requires k <= |xs|
  {
    OpenBrackets(done + xs[..k])
  }

  /** `d` is the greatest number of brackets open at any point behind `done`. */
  ghost predicate IsDeepest(done: seq<Lexeme>, xs: seq<Lexeme>, d: nat) {
    && (forall k: nat :: k <= |xs| ==> OpenAt(done, xs, k) <= d)
    && (exists k: nat :: k <= |xs| && OpenAt(done, xs, k) == d)
  }

  lemma OpenOneMore(done: seq<Lexeme>, x: Lexeme)
    ensures OpenBrackets(done + [x]) == Nest(KindOf(x), OpenBrackets(done))
  {
    assert (done + [x])[..|done|] == done;
  }

  lemma OpenAtStart(done: seq<Lexeme>, xs: seq<Lexeme>)
    ensures OpenAt(done, xs, 0) == OpenBrackets(done)
  {
    assert done + xs[..0] == done;
  }

  lemma OpenAtNext(done: seq<Lexeme>, xs: seq<Lexeme>, k: nat)
    requires k < |xs|
    ensures OpenAt(done, xs, k + 1) == OpenAt(done + [xs[0]], xs[1..], k)
  {
    assert done + xs[..k + 1] == done + [xs[0]] + xs[1..][..k];
  }

  lemma DeepestNext(done: seq<Lexeme>, xs: seq<Lexeme>, d: nat)
    requires xs != [] && IsDeepest(done + [xs[0]], xs[1..], d)
    ensures IsDeepest(done, xs, Max(OpenBrackets(done), d))
  {
    var e := Max(OpenBrackets(done), d);
    hide OpenBrackets, OpenAt;
    OpenAtStart(done, xs);
    forall k: nat | k <= |xs| ensures OpenAt(done, xs, k) <= e {
      if k > 0 { OpenAtNext(done, xs, k - 1); }
    }
    var k: nat :| k <= |xs[1..]| && OpenAt(done + [xs[0]], xs[1..], k) == d;
    OpenAtNext(done, xs, k);
    assert OpenAt(done, xs, if e == d then k + 1 else 0) == e;
  }

  lemma {:induction false} DepthOfLexemes(done: seq<Lexeme>, xs: seq<Lexeme>)
    requires AllWellFormed(xs) && Apart(xs)
    ensures IsDeepest(done, xs, Max(OpenBrackets(done), MaxDepth(Written(xs), OpenBrackets(done))))
    decreases |xs|
  {
    hide First, Rest, TextOf, WellFormed, EndsBefore, OpenBrackets;
    if xs == [] {
      assert Written(xs) == [];
      OpenAtStart(done, xs);
    } else {
      RestOf(xs[0], Written(xs[1..]));
      OpenOneMore(done, xs[0]);
      DepthOfLexemes(done + [xs[0]], xs[1..]);
      hide IsDeepest;
      DeepestNext(done, xs, Max(OpenBrackets(done + [xs[0]]), MaxDepth(Written(xs[1..]), OpenBrackets(done + [xs[0]]))));
    }
  }

  /** The report on any list of lexemes that stay apart: it counts those that are neither white space nor comments, and
      gives the greatest number of brackets open at a time. */
  lemma ReportOfLexemes(xs: seq<Lexeme>)
    requires AllWellFormed(xs) && Apart(xs)
    ensures var p := Report(Written(xs)); p.tokens == TokenCount(xs) && IsDeepest([], xs, p.maxDepth)
  {
    TokensOfLexemes(xs);
    DepthOfLexemes([], xs);
    hide Tokens, MaxDepth, IsDeepest, Feed;
  }

  // ---------------------------------------------------------------- every text is written so

  lemma NoCloseBefore(b: Byte, text: Bytes, behind: Bytes)
    requires NoClose(text, behind) && !(CLOSES <= [b] + text + behind)
    ensures NoClose([b] + text, behind)
  {
    var s := [b] + text + behind;
    forall i | 0 <= i < 1 + |text| ensures !(CLOSES <= s[i..]) {
      if i > 0 { assert s[i..] == (text + behind)[i - 1..]; } else { assert s[0..] == s; }
    }
  }

  lemma NotPrefix(p: Bytes, t: Bytes, s: Bytes)
    requires t <= s && !(p <= s)
    ensures !(p <= t)
  {}

  /** The text behind `[[`. */
  lemma {:induction false} SplitsLong(s: Bytes) returns (text: Bytes, closed: bool, rest: Bytes)
    ensures NoClose(text, if closed then CLOSES else []) && (closed || rest == [])
    ensures s == text + (if closed then CLOSES else []) + rest
    decreases |s|
  {
    if s == [] {
      return [], false, [];
    }
    if CLOSES <= s {
      assert s == [] + CLOSES + s[2..];
      return [], true, s[2..];
    }
    text, closed, rest := SplitsLong(s[1..]);
    var behind := if closed then CLOSES else [];
    assert s == [s[0]] + text + behind + rest;
    NotPrefix(CLOSES, [s[0]] + text + behind, s);
    NoCloseBefore(s[0], text, behind);
    text := [s[0]] + text;
  }

  lemma {:induction false} SplitsLine(s: Bytes) returns (text: Bytes, rest: Bytes)
    ensures s == text + rest && '\n' as int !in text && (rest == [] || rest[0] == '\n' as int)
    decreases |s|
  {
    if s == [] || s[0] == '\n' as int {
      return [], s;
    }
    text, rest := SplitsLine(s[1..]);
    text := [s[0]] + text;
  }

  /** The text behind an opening quote. */
  lemma {:induction false} SplitsQuoted(s: Bytes, quote: Byte) returns (pieces: seq<Piece>, closed: bool, lastBackslash: bool, rest: Bytes)
    ensures forall i :: 0 <= i < |pieces| ==> PieceOk(pieces[i], quote)
    ensures !(closed && lastBackslash) && (closed || rest == [])
    ensures s == PiecesText(pieces) + QuotedTail(quote, closed, lastBackslash) + rest
    decreases |s|
  {
    if s == [] {
      return [], false, false, [];
    }
    if s == ['\\' as int] {
      return [], false, true, [];
    }
    var n := 1;
    var piece := Char(s[0]);
    if s[0] == '\\' as int {
      n, piece := 2, Escaped(s[1]);
    } else if s[0] == quote {
      assert s == [] + [quote] + s[1..];
      return [], true, false, s[1..];
    }
    assert s == PieceText(piece) + s[n..];
    pieces, closed, lastBackslash, rest := SplitsQuoted(s[n..], quote);
    assert ([piece] + pieces)[1..] == pieces;
    pieces := [piece] + pieces;
  }

  lemma {:induction false} SplitsWord(s: Bytes) returns (text: Bytes, rest: Bytes)
    ensures s == text + rest && (forall i :: 0 <= i < |text| ==> IsWordPart(text[i])) && (rest == [] || !IsWordPart(rest[0]))
    decreases |s|
  {
    if s == [] || !IsWordPart(s[0]) {
      return [], s;
    }
    text, rest := SplitsWord(s[1..]);
    text := [s[0]] + text;
  }

  ghost predicate IsNumber(text: Bytes) {
    forall i :: 0 <= i < |text| ==> Continues(text[..i], text[i])
  }

  /** A number that goes on with `s`. */
  lemma {:induction false} SplitsNumber(start: Bytes, s: Bytes) returns (text: Bytes, rest: Bytes)
    requires IsNumber(start)
    ensures start + s == text + rest && start <= text && IsNumber(text) && (rest == [] || !Continues(text, rest[0]))
    decreases |s|
  {
    if s == [] || !Continues(start, s[0]) {
      return start, s;
    }
    var longer := start + [s[0]];
    forall i | 0 <= i < |longer| ensures Continues(longer[..i], longer[i]) {
      if i < |start| {
        assert longer[..i] == start[..i] && Continues(start[..i], start[i]);
      } else {
        assert longer[..i] == start;
      }
    }
    hide Continues;
    assert start + s == longer + s[1..];
    text, rest := SplitsNumber(longer, s[1..]);
  }

  lemma SplitsComment(s: Bytes) returns (x: Lexeme, rest: Bytes)
    requires DASHES <= s
    ensures WellFormed(x) && EndsBefore(x, rest) && s == TextOf(x) + rest && TextOf(x) != []
  {
    assert s == DASHES + s[2..];
    if OPENS <= s[2..] {
      assert s[2..] == OPENS + s[4..];
      var text, closed, more := SplitsLong(s[4..]);
      x, rest := BlockComment(text, closed), more;
    } else {
      var text, more := SplitsLine(s[2..]);
      x, rest := LineComment(text), more;
    }
  }

  lemma SplitsDigits(s: Bytes) returns (x: Lexeme, rest: Bytes)
    requires s != [] && IsFigure(s[0])
    ensures WellFormed(x) && EndsBefore(x, rest) && s == TextOf(x) + rest && TextOf(x) != []
  {
    assert s == [s[0]] + s[1..];
    assert IsNumber([s[0]]);
    var text, more := SplitsNumber([s[0]], s[1..]);
    assert text[0] == s[0];
    x, rest := Number(text), more;
  }

  lemma SplitsString(s: Bytes) returns (x: Lexeme, rest: Bytes)
    requires s != [] && IsAnyQuote(s[0])
    ensures WellFormed(x) && EndsBefore(x, rest) && s == TextOf(x) + rest && TextOf(x) != []
  {
    assert s == [s[0]] + s[1..];
    var pieces, closed, lastBackslash, more := SplitsQuoted(s[1..], s[0]);
    x, rest := Quoted(s[0], pieces, closed, lastBackslash), more;
  }

  lemma SplitsLongString(s: Bytes) returns (x: Lexeme, rest: Bytes)
    requires OPENS <= s
    ensures WellFormed(x) && EndsBefore(x, rest) && s == TextOf(x) + rest && TextOf(x) != []
  {
    assert s == OPENS + s[2..];
    var text, closed, more := SplitsLong(s[2..]);
    x, rest := Long(text, closed), more;
  }

  lemma SplitsName(s: Bytes) returns (x: Lexeme, rest: Bytes)
    requires s != [] && IsWordPart(s[0]) && !IsFigure(s[0])
    ensures WellFormed(x) && EndsBefore(x, rest) && s == TextOf(x) + rest && TextOf(x) != []
  {
    var text, more := SplitsWord(s);
    x, rest := Word(text), more;
  }

  lemma SplitsWhite(s: Bytes) returns (x: Lexeme, rest: Bytes)
    requires s != [] && IsWhite(s[0])
    ensures WellFormed(x) && EndsBefore(x, rest) && s == TextOf(x) + rest && TextOf(x) != []
  {
    x, rest := White(s[0]), s[1..];
  }

  lemma SplitsOne(s: Bytes) returns (x: Lexeme, rest: Bytes)
    requires s != [] && !IsWhite(s[0]) && !IsAnyQuote(s[0]) && !IsWordPart(s[0]) && !(DASHES <= s) && !(OPENS <= s)
    ensures WellFormed(x) && EndsBefore(x, rest) && s == TextOf(x) + rest && TextOf(x) != []
  {
    var b := s[0];
    rest := s[1..];
    if b == '(' as int || b == '{' as int || b == '[' as int {
      x := Opening(b);
    } else if b == ')' as int || b == '}' as int || b == ']' as int {
      x := Closing(b);
    } else {
      x := Other(b);
    }
  }

  /** The first lexeme of a text. */
  lemma SplitsLexeme(s: Bytes) returns (x: Lexeme, rest: Bytes)
    requires s != []
    ensures WellFormed(x) && EndsBefore(x, rest) && s == TextOf(x) + rest && TextOf(x) != []
  {
    hide WellFormed, EndsBefore, TextOf, IsWhite, IsAnyQuote, IsWordPart, IsFigure;
    if IsWhite(s[0]) {
      x, rest := SplitsWhite(s);
    } else if DASHES <= s {
      x, rest := SplitsComment(s);
    } else if IsAnyQuote(s[0]) {
      x, rest := SplitsString(s);
    } else if OPENS <= s {
      x, rest := SplitsLongString(s);
    } else if IsFigure(s[0]) {
      x, rest := SplitsDigits(s);
    } else if IsWordPart(s[0]) {
      x, rest := SplitsName(s);
    } else {
      x, rest := SplitsOne(s);
    }
  }

  /** The grammar leaves nothing out: every text is written by lexemes that stay apart. */
  lemma {:induction false} EveryTextIsWritten(s: Bytes) returns (xs: seq<Lexeme>)
    ensures AllWellFormed(xs) && Apart(xs) && Written(xs) == s
    decreases |s|
  {
    if s == [] {
      return [];
    }
    var x, rest := SplitsLexeme(s);
    hide WellFormed, TextOf, EndsBefore;
    var others := EveryTextIsWritten(rest);
    xs := [x] + others;
    assert xs[1..] == others;
  }
}

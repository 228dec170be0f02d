/** The one-pass scanner of native/src/main.cpp against simple definitions of what it counts. */
module NativeScan {
  import opened Collections

  type Byte = n: nat | n < 0x100
  type Bytes = seq<Byte>

  const NEWLINE: Byte := 10
  const QUOTE: Byte := 34
  const APOSTROPHE: Byte := 39
  const PLUS: Byte := 43
  const MINUS: Byte := 45
  const DOT: Byte := 46
  const OPEN: Byte := 91
  const BACKSLASH: Byte := 92
  const CLOSE: Byte := 93
  const UNDERSCORE: Byte := 95

  // The character classes of <cctype> in the "C" locale.

  predicate IsSpace(b: Byte) {
    b == 32 || 9 <= b <= 13
  }

  predicate IsDigit(b: Byte) {
    48 <= b <= 57
  }

  predicate IsAlpha(b: Byte) {
    65 <= b <= 90 || 97 <= b <= 122
  }

  predicate IsIdentifierStart(b: Byte) {
    IsAlpha(b) || b == UNDERSCORE
  }

  predicate IsIdentifierPart(b: Byte) {
    IsAlpha(b) || IsDigit(b) || b == UNDERSCORE
  }

  /** `e E p P` */
  predicate IsExponent(b: Byte) {
    b == 101 || b == 69 || b == 112 || b == 80
  }

  predicate IsOpening(b: Byte) {
    b == 40 || b == 123 || b == OPEN
  }

  predicate IsClosing(b: Byte) {
    b == 41 || b == 125 || b == CLOSE
  }

  // ---------------------------------------------------------------- lexical items

  predicate StartsWith(s: Bytes, first: Byte, second: Byte) {
    |s| > 1 && s[0] == first && s[1] == second
  }

  /** The text behind `[[` up to the first `]]`. */
  function LongBody(s: Bytes): (n: nat)
    ensures n <= |s| && (n < |s| ==> n + 1 < |s|)
  {
    if s == [] || StartsWith(s, CLOSE, CLOSE) then 0 else 1 + LongBody(s[1..])
  }

  function LongLength(s: Bytes): (n: nat)
    ensures n <= |s|
  {
    if LongBody(s) + 1 < |s| then LongBody(s) + 2 else LongBody(s)
  }

  function LineRest(s: Bytes): (n: nat)
    ensures n <= |s|
  {
    if s == [] || s[0] == NEWLINE then 0 else 1 + LineRest(s[1..])
  }

  /** The text behind an opening quote, with the closing quote. */
  function StringRest(s: Bytes, quote: Byte): (n: nat)
    ensures n <= |s|
  {
    if s == [] then 0
    else if s[0] == BACKSLASH then if |s| == 1 then 1 else 2 + StringRest(s[2..], quote)
    else if s[0] == quote then 1
    else 1 + StringRest(s[1..], quote)
  }

  function IdentifierRest(s: Bytes): (n: nat)
    ensures n <= |s|
  {
    if s == [] || !IsIdentifierPart(s[0]) then 0 else 1 + IdentifierRest(s[1..])
  }

  predicate IsNumberPart(b: Byte, seenExponent: bool) {
    IsAlpha(b) || IsDigit(b) || b == DOT || b == UNDERSCORE || ((b == PLUS || b == MINUS) && seenExponent)
  }

  function SeenExponent(b: Byte, seen: bool): bool {
    if IsExponent(b) then true else if b != PLUS && b != MINUS then false else seen
  }

  function NumberRest(s: Bytes, seen: bool): (n: nat)
    ensures n <= |s|
    decreases |s|
  {
    if s == [] || !IsNumberPart(s[0], seen) then 0 else 1 + NumberRest(s[1..], SeenExponent(s[0], seen))
  }

  datatype Kind = Blank | Plain | Opens | Closes

  /** The first lexical item of a text. */
  datatype Item = Item(kind: Kind, length: nat)

  function First(s: Bytes): (r: Item)
    requires s != []
    ensures 1 <= r.length <= |s|
  {
    var b := s[0];
    if IsSpace(b) then Item(Blank, 1)
    else if StartsWith(s, MINUS, MINUS) then
      if StartsWith(s[2..], OPEN, OPEN) then Item(Blank, 4 + LongLength(s[4..])) else Item(Blank, 2 + LineRest(s[2..]))
    else if b == QUOTE || b == APOSTROPHE then Item(Plain, 1 + StringRest(s[1..], b))
    else if StartsWith(s, OPEN, OPEN) then Item(Plain, 2 + LongLength(s[2..]))
    else if IsIdentifierStart(b) then Item(Plain, IdentifierRest(s))
    else if IsDigit(b) then Item(Plain, NumberRest(s, false))
    else Item(if IsOpening(b) then Opens else if IsClosing(b) then Closes else Plain, 1)
  }

  function Rest(s: Bytes): (r: Bytes)
    requires s != []
    ensures |r| < |s|
  {
    s[First(s).length..]
  }

  function Tokens(s: Bytes): nat
    decreases |s|
  {
    if s == [] then 0 else (if First(s).kind.Blank? then 0 else 1) + Tokens(Rest(s))
  }

  function Nest(kind: Kind, depth: nat): nat {
    if kind.Opens? then depth + 1 else if kind.Closes? && depth > 0 then depth - 1 else depth
  }

  /** The greatest depth entered when the text is read at `depth`. */
  function MaxDepth(s: Bytes, depth: nat): nat
    decreases |s|
  {
    if s == [] then 0
    else
      var kind := First(s).kind;
      Max(if kind.Opens? then depth + 1 else 0, MaxDepth(Rest(s), Nest(kind, depth)))
  }

  function DepthAfter(s: Bytes, depth: nat): nat
    decreases |s|
  {
    if s == [] then depth else DepthAfter(Rest(s), Nest(First(s).kind, depth))
  }

  /** No nesting without a token, no token without a byte. */
  lemma {:induction false} CountsAreBounded(s: Bytes, depth: nat)
    ensures MaxDepth(s, depth) <= depth + Tokens(s) && Tokens(s) <= |s|
    decreases |s|
  {
    if s != [] {
      CountsAreBounded(Rest(s), Nest(First(s).kind, depth));
      hide First, Rest;
    }
  }

  // ---------------------------------------------------------------- lines

  /** Lines so far, longest finished line, length of the current line. */
  datatype LineState = LineState(lines: nat, longest: nat, current: nat)

  function Consume(b: Byte, st: LineState): LineState {
    if b == NEWLINE then LineState(st.lines + 1, Max(st.longest, st.current), 0) else st.(current := st.current + 1)
  }

  function Feed(s: Bytes): LineState {
    if s == [] then LineState(1, 0, 0) else Consume(s[|s| - 1], Feed(s[..|s| - 1]))
  }

  lemma FeedNext(s: Bytes, i: nat)
    requires i < |s|
    ensures Feed(s[..i + 1]) == Consume(s[i], Feed(s[..i]))
  {
    assert s[..i + 1][..i] == s[..i];
  }

  ghost predicate IsLine(s: Bytes, i: int, j: int) {
    0 <= i <= j <= |s| && NEWLINE !in s[i..j]
  }

  /** `n` is the length of the longest stretch without a newline. */
  ghost predicate IsLongestLine(s: Bytes, n: nat) {
    && (exists i, j :: IsLine(s, i, j) && j - i == n)
    && (forall i, j :: IsLine(s, i, j) ==> j - i <= n)
  }

  lemma {:induction false} CurrentIsLast(s: Bytes, i: int)
    ensures Feed(s).current <= |s|
    ensures IsLine(s, i, |s|) <==> |s| - Feed(s).current <= i <= |s|
  {
    if i == |s| { assert s[i..|s|] == []; }
    if s != [] {
      var before, last := s[..|s| - 1], s[|s| - 1];
      CurrentIsLast(before, i);
      if 0 <= i < |s| {
        assert s[i..|s|] == before[i..|before|] + [last];
        assert NEWLINE in s[i..|s|] <==> NEWLINE in before[i..|before|] || last == NEWLINE;
      }
    }
  }

  lemma {:induction false} LongestIsLongest(s: Bytes)
    ensures IsLongestLine(s, Max(Feed(s).longest, Feed(s).current))
  {
    var st := Feed(s);
    if s == [] {
      assert IsLine(s, 0, 0);
    } else {
      var before := s[..|s| - 1];
      LongestIsLongest(before);
      assert forall i, j :: 0 <= i <= j <= |before| ==> s[i..j] == before[i..j];
      CurrentIsLast(s, |s| - st.current);
      assert IsLine(s, |s| - st.current, |s|);
      forall i, j | IsLine(s, i, j) ensures j - i <= Max(st.longest, st.current) {
        if j == |s| { CurrentIsLast(s, i); } else { assert IsLine(before, i, j); }
      }
      var i, j :| IsLine(before, i, j) && j - i == Max(Feed(before).longest, Feed(before).current);
      assert IsLine(s, i, j);
      hide IsLine;
    }
  }

  lemma {:induction false} LinesCountNewlines(s: Bytes)
    ensures Feed(s).lines == 1 + multiset(s)[NEWLINE]
  {
    if s != [] {
      LinesCountNewlines(s[..|s| - 1]);
      assert s == s[..|s| - 1] + [s[|s| - 1]];
    }
  }

  // ---------------------------------------------------------------- the scanner

  datatype Profile = Profile(bytes: nat, tokens: nat, lines: nat, maxDepth: nat, maxLineLength: nat)

  /** The line counters describe the text before `index`. */
  ghost predicate Fed(source: Bytes, index: nat, profile: Profile, lineLength: nat) {
    index <= |source| && Feed(source[..index]) == LineState(profile.lines, profile.maxLineLength, lineLength)
  }

  method ConsumeLineCharacter(value: Byte, profile: Profile, lineLength: nat) returns (p: Profile, l: nat)
    ensures p == profile.(lines := p.lines, maxLineLength := p.maxLineLength)
    ensures LineState(p.lines, p.maxLineLength, l) == Consume(value, LineState(profile.lines, profile.maxLineLength, lineLength))
  {
    if value == NEWLINE {
      p := profile.(lines := profile.lines + 1, maxLineLength := Max(profile.maxLineLength, lineLength));
      l := 0;
    } else {
      p, l := profile, lineLength + 1;
    }
  }

  /** Two characters that are not newlines. */
  lemma FedTwo(source: Bytes, index: nat, profile: Profile, lineLength: nat)
    requires Fed(source, index, profile, lineLength) && index + 1 < |source|
    requires source[index] != NEWLINE && source[index + 1] != NEWLINE
    ensures Fed(source, index + 2, profile, lineLength + 2)
  {
    FeedNext(source, index);
    FeedNext(source, index + 1);
  }

  /** The text and the end of a long bracket. */
  method ScanLong(source: Bytes, start: nat, profile: Profile, lineLength: nat) returns (p: Profile, index: nat, l: nat)
    requires Fed(source, start, profile, lineLength)
    ensures index == start + LongLength(source[start..]) && Fed(source, index, p, l)
    ensures p == profile.(lines := p.lines, maxLineLength := p.maxLineLength)
  {
    p, index, l := profile, start, lineLength;
    while index < |source| && !(index + 1 < |source| && source[index] == CLOSE && source[index + 1] == CLOSE)
      invariant start <= index && Fed(source, index, p, l)
      invariant LongBody(source[start..]) == index - start + LongBody(source[index..])
      invariant p == profile.(lines := p.lines, maxLineLength := p.maxLineLength)
    {
      FeedNext(source, index);
      assert source[index..][1..] == source[index + 1..];
      p, l := ConsumeLineCharacter(source[index], p, l);
      index := index + 1;
    }
    if index + 1 < |source| {
      FedTwo(source, index, p, l);
      l := l + 2;
      index := index + 2;
    }
  }

  method ScanComment(source: Bytes, start: nat, profile: Profile, lineLength: nat) returns (p: Profile, index: nat, l: nat)
    requires Fed(source, start, profile, lineLength)
    requires start < |source| && StartsWith(source[start..], MINUS, MINUS)
    ensures index == start + First(source[start..]).length && Fed(source, index, p, l)
    ensures p == profile.(lines := p.lines, maxLineLength := p.maxLineLength)
  {
    ghost var s := source[start..];
    assert s[2..] == source[start + 2..];
    FedTwo(source, start, profile, lineLength);
    p, index, l := profile, start + 2, lineLength + 2;
    if index + 1 < |source| && source[index] == OPEN && source[index + 1] == OPEN {
      assert s[4..] == source[start + 4..];
      FedTwo(source, index, p, l);
      p, index, l := ScanLong(source, index + 2, p, l + 2);
    } else {
      while index < |source| && source[index] != NEWLINE
        invariant start + 2 <= index && Fed(source, index, p, l)
        invariant LineRest(s[2..]) == index - start - 2 + LineRest(source[index..])
      {
        FeedNext(source, index);
        assert source[index..][1..] == source[index + 1..];
        l := l + 1;
        index := index + 1;
      }
    }
  }

  method ScanString(source: Bytes, start: nat, profile: Profile, lineLength: nat) returns (p: Profile, index: nat, l: nat)
    requires Fed(source, start, profile, lineLength)
    requires start < |source| && (source[start] == QUOTE || source[start] == APOSTROPHE)
    ensures index == start + 1 + StringRest(source[start + 1..], source[start]) && Fed(source, index, p, l)
    ensures p == profile.(lines := p.lines, maxLineLength := p.maxLineLength)
  {
    var quote := source[start];
    FeedNext(source, start);
    p, index, l := profile, start + 1, lineLength + 1;
    while index < |source|
      invariant start + 1 <= index && Fed(source, index, p, l)
      invariant StringRest(source[start + 1..], quote) == index - start - 1 + StringRest(source[index..], quote)
      invariant p == profile.(lines := p.lines, maxLineLength := p.maxLineLength)
    {
      FeedNext(source, index);
      if source[index] == BACKSLASH {
        l := l + 1;
        index := index + 1;
        if index < |source| {
          FeedNext(source, index);
          assert source[index - 1..][2..] == source[index + 1..];
          p, l := ConsumeLineCharacter(source[index], p, l);
          index := index + 1;
        }
        continue;
      }
      var value := source[index];
      assert source[index..][1..] == source[index + 1..];
      p, l := ConsumeLineCharacter(value, p, l);
      index := index + 1;
      if value == quote { return; }
    }
  }

  method ScanIdentifier(source: Bytes, start: nat, profile: Profile, lineLength: nat) returns (index: nat, l: nat)
    requires Fed(source, start, profile, lineLength)
    ensures index == start + IdentifierRest(source[start..]) && Fed(source, index, profile, l)
  {
    index, l := start, lineLength;
    while index < |source| && IsIdentifierPart(source[index])
      invariant start <= index && Fed(source, index, profile, l)
      invariant IdentifierRest(source[start..]) == index - start + IdentifierRest(source[index..])
    {
      FeedNext(source, index);
      assert source[index..][1..] == source[index + 1..];
      l := l + 1;
      index := index + 1;
    }
  }

  method ScanNumber(source: Bytes, start: nat, profile: Profile, lineLength: nat) returns (index: nat, l: nat)
    requires Fed(source, start, profile, lineLength)
    ensures index == start + NumberRest(source[start..], false) && Fed(source, index, profile, l)
  {
    index, l := start, lineLength;
    var seenExponent := false;
    while index < |source|
      invariant start <= index && Fed(source, index, profile, l)
      invariant NumberRest(source[start..], false) == index - start + NumberRest(source[index..], seenExponent)
    {
      var value := source[index];
      var numericPart := IsAlpha(value) || IsDigit(value) || value == DOT || value == UNDERSCORE;
      var exponentSign := (value == PLUS || value == MINUS) && seenExponent;
      if !numericPart && !exponentSign { break; }
      FeedNext(source, index);
      assert source[index..][1..] == source[index + 1..];
      if IsExponent(value) {
        seenExponent := true;
      } else if value != PLUS && value != MINUS {
        seenExponent := false;
      }
      l := l + 1;
      index := index + 1;
    }
  }

  /** What the scanner has to report. */
  function Report(source: Bytes): Profile {
    Profile(|source|, Tokens(source), Feed(source).lines, MaxDepth(source, 0), Max(Feed(source).longest, Feed(source).current))
  }

  ghost predicate Counted(source: Bytes, index: nat, profile: Profile, depth: nat)
    requires index <= |source|
  {
    && profile.bytes == |source|
    && profile.tokens + Tokens(source[index..]) == Tokens(source)
    && Max(profile.maxDepth, MaxDepth(source[index..], depth)) == MaxDepth(source, 0)
  }

  /** Reading one item moves the counters over it. */
  lemma CountedNext(source: Bytes, index: nat, profile: Profile, depth: nat, p: Profile, depth': nat)
    requires index < |source| && Counted(source, index, profile, depth)
    requires var item := First(source[index..]);
      && p.bytes == profile.bytes && depth' == Nest(item.kind, depth)
      && p.tokens == profile.tokens + (if item.kind.Blank? then 0 else 1)
      && p.maxDepth == if item.kind.Opens? then Max(profile.maxDepth, depth') else profile.maxDepth
    ensures Counted(source, index + First(source[index..]).length, p, depth')
  {
    var s := source[index..];
    assert Rest(s) == source[index + First(s).length..];
    hide First;
  }

  /** The loop body: one lexical item. */
  method ScanItem(source: Bytes, start: nat, profile: Profile, startDepth: nat, lineLength: nat)
    returns (p: Profile, index: nat, depth: nat, l: nat)
    requires start < |source| && Fed(source, start, profile, lineLength)
    ensures index == start + First(source[start..]).length && Fed(source, index, p, l)
    ensures var item := First(source[start..]);
      && p.bytes == profile.bytes && depth == Nest(item.kind, startDepth)
      && p.tokens == profile.tokens + (if item.kind.Blank? then 0 else 1)
      && p.maxDepth == if item.kind.Opens? then Max(profile.maxDepth, depth) else profile.maxDepth
  {
    p, index, depth, l := profile, start, startDepth, lineLength;
    ghost var s := source[start..];
    var current := source[index];
    var next := if index + 1 < |source| then source[index + 1] else 0;
    FeedNext(source, index);
    hide Feed;
    if IsSpace(current) {
      p, l := ConsumeLineCharacter(current, p, l);
      index := index + 1;
      return;
    }
    if current == MINUS && next == MINUS {
      p, index, l := ScanComment(source, index, p, l);
      return;
    }
    if current == QUOTE || current == APOSTROPHE {
      p := p.(tokens := p.tokens + 1);
      assert s[1..] == source[start + 1..];
      p, index, l := ScanString(source, index, p, l);
      return;
    }
    if current == OPEN && next == OPEN {
      p := p.(tokens := p.tokens + 1);
      assert s[2..] == source[start + 2..];
      FedTwo(source, index, p, l);
      p, index, l := ScanLong(source, index + 2, p, l + 2);
      return;
    }
    if IsIdentifierStart(current) {
      p := p.(tokens := p.tokens + 1);
      index, l := ScanIdentifier(source, index, p, l);
      return;
    }
    if IsDigit(current) {
      p := p.(tokens := p.tokens + 1);
      index, l := ScanNumber(source, index, p, l);
      return;
    }
    p := p.(tokens := p.tokens + 1);
    l := l + 1;
    if IsOpening(current) {
      depth := depth + 1;
      p := p.(maxDepth := Max(p.maxDepth, depth));
    } else if IsClosing(current) && depth > 0 {
      depth := depth - 1;
    }
    index := index + 1;
  }

  method Scan(source: Bytes) returns (profile: Profile)
    ensures profile == Report(source)
  {
    profile := Profile(|source|, 0, 1, 0, 0);
    var index, depth, lineLength := 0, 0, 0;
    while index < |source|
      invariant index <= |source|
      invariant Fed(source, index, profile, lineLength)
      invariant Counted(source, index, profile, depth)
      decreases |source| - index
    {
      ghost var i, p, d := index, profile, depth;
      profile, index, depth, lineLength := ScanItem(source, index, profile, depth, lineLength);
      CountedNext(source, i, p, d, profile, depth);
      hide Counted, Fed;
    }
    assert source[..index] == source && source[index..] == [];
    profile := profile.(maxLineLength := Max(profile.maxLineLength, lineLength));
  }

  /** What the report means. */
  lemma ReportMeans(source: Bytes)
    ensures var p := Report(source);
      && p.maxDepth <= p.tokens <= p.bytes == |source|
      && p.lines == 1 + multiset(source)[NEWLINE]
      && IsLongestLine(source, p.maxLineLength)
  {
    CountsAreBounded(source, 0);
    LinesCountNewlines(source);
    LongestIsLongest(source);
  }

  // ---------------------------------------------------------------- concatenation

  lemma {:induction false} LongStable(s: Bytes, more: Bytes)
    requires LongBody(s) < |s|
    ensures LongBody(s + more) == LongBody(s)
  {
    if !StartsWith(s, CLOSE, CLOSE) {
      assert (s + more)[1..] == s[1..] + more;
      LongStable(s[1..], more);
    }
  }

  lemma {:induction false} LineStable(s: Bytes, more: Bytes)
    requires LineRest(s) < |s|
    ensures LineRest(s + more) == LineRest(s)
  {
    if s[0] != NEWLINE {
      assert (s + more)[1..] == s[1..] + more;
      LineStable(s[1..], more);
    }
  }

  lemma {:induction false} StringStable(s: Bytes, quote: Byte, more: Bytes)
    requires StringRest(s, quote) < |s|
    ensures StringRest(s + more, quote) == StringRest(s, quote)
    decreases |s|
  {
    if s[0] == BACKSLASH {
      assert (s + more)[2..] == s[2..] + more;
      StringStable(s[2..], quote, more);
    } else if s[0] != quote {
      assert (s + more)[1..] == s[1..] + more;
      StringStable(s[1..], quote, more);
    }
  }

  lemma {:induction false} IdentifierStable(s: Bytes, more: Bytes)
    requires IdentifierRest(s) < |s|
    ensures IdentifierRest(s + more) == IdentifierRest(s)
  {
    if IsIdentifierPart(s[0]) {
      assert (s + more)[1..] == s[1..] + more;
      IdentifierStable(s[1..], more);
    }
  }

  lemma {:induction false} NumberStable(s: Bytes, seen: bool, more: Bytes)
    requires NumberRest(s, seen) < |s|
    ensures NumberRest(s + more, seen) == NumberRest(s, seen)
    decreases |s|
  {
    if IsNumberPart(s[0], seen) {
      assert (s + more)[1..] == s[1..] + more;
      NumberStable(s[1..], SeenExponent(s[0], seen), more);
    }
  }

  /** An item that ends before the text does is not changed by text added behind. */
  lemma FirstIsStable(s: Bytes, more: Bytes)
    requires s != [] && First(s).length < |s|
    ensures First(s + more) == First(s)
  {
    var b, t := s[0], s + more;
    if IsSpace(b) {
    } else if StartsWith(s, MINUS, MINUS) {
      assert t[2..] == s[2..] + more;
      if StartsWith(s[2..], OPEN, OPEN) {
        assert t[4..] == s[4..] + more;
        LongStable(s[4..], more);
      } else {
        LineStable(s[2..], more);
        LineCommentStays(s[2..], more);
      }
    } else if b == QUOTE || b == APOSTROPHE {
      assert t[1..] == s[1..] + more;
      StringStable(s[1..], b, more);
    } else if StartsWith(s, OPEN, OPEN) {
      assert t[2..] == s[2..] + more;
      LongStable(s[2..], more);
    } else if IsIdentifierStart(b) {
      IdentifierStable(s, more);
    } else if IsDigit(b) {
      NumberStable(s, false, more);
    }
  }

  lemma LineCommentStays(s: Bytes, more: Bytes)
    requires LineRest(s) < |s| && !StartsWith(s, OPEN, OPEN)
    ensures !StartsWith(s + more, OPEN, OPEN)
  {
    if |s| == 1 { assert s[0] == NEWLINE; }
  }

  /** Position `k` is where a top-level item starts, or the end of the text. */
  predicate IsBoundary(s: Bytes, k: nat)
    decreases |s|
  {
    k == 0 || (s != [] && k >= First(s).length && IsBoundary(Rest(s), k - First(s).length))
  }

  /** The text ends with a newline that is read as white space between items. */
  predicate EndsAtTopLevel(s: Bytes) {
    s != [] && s[|s| - 1] == NEWLINE && IsBoundary(s, |s| - 1)
  }

  lemma {:induction false} ReadsInTwo(left: Bytes, right: Bytes, depth: nat)
    requires EndsAtTopLevel(left)
    ensures Tokens(left + right) == Tokens(left) + Tokens(right)
    ensures MaxDepth(left + right, depth) == Max(MaxDepth(left, depth), MaxDepth(right, DepthAfter(left, depth)))
    decreases |left|
  {
    if |left| == 1 {
      assert (left + right)[1..] == right;
      assert First(left + right) == Item(Blank, 1) == First(left);
      assert Rest(left) == [];
    } else {
      assert First(left).length < |left|;
      FirstIsStable(left, right);
      assert Rest(left + right) == Rest(left) + right;
      assert EndsAtTopLevel(Rest(left));
      ReadsInTwo(Rest(left), right, Nest(First(left).kind, depth));
      hide First, EndsAtTopLevel;
    }
  }

  lemma {:induction false} DeeperIsDeeper(s: Bytes, d: nat, e: nat)
    requires d <= e
    ensures MaxDepth(s, d) <= MaxDepth(s, e)
    decreases |s|
  {
    if s != [] {
      DeeperIsDeeper(Rest(s), Nest(First(s).kind, d), Nest(First(s).kind, e));
      hide First, Rest;
    }
  }

  // ---------------------------------------------------------------- stages

  datatype Stage = L2 | L3 | L4 | L5

  function RecommendStage(p: Profile): Stage {
    if p.bytes > 1_200_000 || p.tokens > 350_000 || p.maxLineLength > 1_200_000 then L2
    else if p.bytes > 640_000 || p.tokens > 190_000 || p.maxDepth > 1_000 then L3
    else if p.bytes > 320_000 || p.tokens > 100_000 || p.maxDepth > 350 then L4
    else L5
  }

  function Level(s: Stage): nat {
    match s case L2 => 2 case L3 => 3 case L4 => 4 case L5 => 5
  }

  /** The stages as budgets: each one is recommended exactly within its own, which is no more than that of a lower one. */
  lemma StageIff(p: Profile)
    ensures Level(RecommendStage(p)) >= 3 <==> p.bytes <= 1_200_000 && p.tokens <= 350_000 && p.maxLineLength <= 1_200_000
    ensures Level(RecommendStage(p)) >= 4 <==>
              p.bytes <= 640_000 && p.tokens <= 190_000 && p.maxDepth <= 1_000 && p.maxLineLength <= 1_200_000
    ensures Level(RecommendStage(p)) >= 5 <==>
              p.bytes <= 320_000 && p.tokens <= 100_000 && p.maxDepth <= 350 && p.maxLineLength <= 1_200_000
  {}

  predicate AtMost(p: Profile, r: Profile) {
    p.bytes <= r.bytes && p.tokens <= r.tokens && p.maxDepth <= r.maxDepth && p.maxLineLength <= r.maxLineLength
  }

  lemma BiggerProfilesGoLower(p: Profile, r: Profile)
    requires AtMost(p, r)
    ensures Level(RecommendStage(r)) <= Level(RecommendStage(p))
  {}

  lemma LongestLineGrows(left: Bytes, right: Bytes, n: nat, m: nat, k: nat)
    requires IsLongestLine(left, n) && IsLongestLine(right, m) && IsLongestLine(left + right, k)
    ensures Max(n, m) <= k
  {
    var i, j :| IsLine(left, i, j) && j - i == n;
    assert (left + right)[i..j] == left[i..j];
    assert IsLine(left + right, i, j);
    var x, y :| IsLine(right, x, y) && y - x == m;
    assert (left + right)[|left| + x..|left| + y] == right[x..y];
    assert IsLine(left + right, |left| + x, |left| + y);
    hide IsLine;
  }

  /** Behind a newline between items any text can be added: tokens and lines add up, depth and line length do not
      shrink, and the recommended stage is at most that of each part. */
  lemma AppendingNeverRelaxes(left: Bytes, right: Bytes)
    requires EndsAtTopLevel(left)
    ensures var p, q, r := Report(left), Report(right), Report(left + right);
      && r.tokens == p.tokens + q.tokens && r.lines == p.lines + q.lines - 1
      && r.maxDepth >= Max(p.maxDepth, q.maxDepth) && r.maxLineLength >= Max(p.maxLineLength, q.maxLineLength)
      && Level(RecommendStage(r)) <= Level(RecommendStage(p)) && Level(RecommendStage(r)) <= Level(RecommendStage(q))
  {
    ReadsInTwo(left, right, 0);
    DeeperIsDeeper(right, 0, DepthAfter(left, 0));
    ReportMeans(left);
    ReportMeans(right);
    ReportMeans(left + right);
    assert multiset(left + right) == multiset(left) + multiset(right);
    var p, q, r := Report(left), Report(right), Report(left + right);
    hide IsLongestLine, EndsAtTopLevel, Feed, Tokens, MaxDepth, DepthAfter;
    LongestLineGrows(left, right, p.maxLineLength, q.maxLineLength, r.maxLineLength);
    assert AtMost(p, r) && AtMost(q, r);
    BiggerProfilesGoLower(p, r);
    BiggerProfilesGoLower(q, r);
    hide RecommendStage, Level;
  }
}

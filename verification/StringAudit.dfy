/** The string table of audit/string-auditor.js: in-place segment reversals and the sextet decoder. */
module StringAudit {
  import opened Collections

  // ---------------------------------------------------------------- rotations

  /** The 1-based segment from `s` to `e` lies in a list of `n` entries and has at least two of them. */
  predicate InBounds(s: int, e: int, n: nat) {
    1 <= s < e <= n
  }

  /** The list with that segment reversed; out of bounds nothing happens. */
  function Rotated<T>(a: seq<T>, s: int, e: int): (r: seq<T>)
    ensures |r| == |a|
  {
    if InBounds(s, e, |a|)
    then seq(|a|, k requires 0 <= k < |a| => if s - 1 <= k <= e - 1 then a[s + e - 2 - k] else a[k])
    else a
  }

  function Reversed<T>(a: seq<T>): (r: seq<T>)
    ensures |r| == |a|
  {
    if a == [] then [] else Reversed(a[1..]) + [a[0]]
  }

  lemma {:induction false} ReversedAt<T>(a: seq<T>, k: nat)
    requires k < |a|
    ensures Reversed(a)[k] == a[|a| - 1 - k]
    decreases |a|
  {
    if k < |a| - 1 { ReversedAt(a[1..], k); }
  }

  /** Where an entry goes. */
  lemma RotatedAt<T>(a: seq<T>, s: nat, e: nat, k: nat)
    requires 1 <= s <= e <= |a| && k < |a|
    ensures Rotated(a, s, e)[k] == if s - 1 <= k < e then a[s + e - 2 - k] else a[k]
  {}

  lemma ThreePartsAt<T>(x: seq<T>, y: seq<T>, z: seq<T>, k: nat)
    requires k < |x| + |y| + |z|
    ensures (x + y + z)[k] == if k < |x| then x[k] else if k < |x| + |y| then y[k - |x|] else z[k - |x| - |y|]
  {}

  lemma SegmentReverses<T>(a: seq<T>, s: nat, e: nat, k: nat)
    requires 1 <= s <= e <= |a| && k < |a|
    ensures Rotated(a, s, e)[k] == (a[..s - 1] + Reversed(a[s - 1..e]) + a[e..])[k]
  {
    hide Rotated, Reversed;
    var segment := a[s - 1..e];
    RotatedAt(a, s, e, k);
    ThreePartsAt(a[..s - 1], Reversed(segment), a[e..], k);
    if s - 1 <= k < e { ReversedAt(segment, k - (s - 1)); }
  }

  /** Exactly the entries from the `s`-th to the `e`-th, if there are that many, come in reverse order. */
  lemma RotatedReverses<T>(a: seq<T>, s: int, e: int)
    ensures Rotated(a, s, e) == if 1 <= s <= e <= |a| then a[..s - 1] + Reversed(a[s - 1..e]) + a[e..] else a
  {
    if 1 <= s <= e <= |a| {
      forall k: nat | k < |a| ensures Rotated(a, s, e)[k] == (a[..s - 1] + Reversed(a[s - 1..e]) + a[e..])[k] {
        SegmentReverses(a, s, e, k);
      }
      hide Rotated, Reversed;
    }
  }

  type Ranges = seq<(int, int)>

  function RotatedAll<T>(a: seq<T>, ranges: Ranges): (r: seq<T>)
    ensures |r| == |a|
    decreases |ranges|
  {
    if ranges == [] then a else RotatedAll(Rotated(a, ranges[0].0, ranges[0].1), ranges[1..])
  }

  function Swapped<T>(a: seq<T>, i: nat, j: nat): (r: seq<T>)
    requires i < j < |a|
    ensures |r| == |a|
  {
    a[i := a[j]][j := a[i]]
  }

  /** Reversing a segment is swapping its ends and reversing the rest. */
  lemma RotatedIsSwapped<T>(a: seq<T>, s: int, e: int)
    requires InBounds(s, e, |a|)
    ensures Rotated(a, s, e) == Rotated(Swapped(a, s - 1, e - 1), s + 1, e - 1)
  {}

  lemma OutOfBoundsIsUnchanged<T>(a: seq<T>, s: int, e: int)
    requires !InBounds(s, e, |a|)
    ensures Rotated(a, s, e) == a
  {}

  method Rotate<T>(entries: array<T>, s: int, e: int)
    modifies entries
    ensures entries[..] == Rotated(old(entries[..]), s, e)
  {
    hide Rotated;
    var l, r := s - 1, e - 1;
    while l < r && l >= 0 && r < entries.Length
      invariant Rotated(entries[..], l + 1, r + 1) == Rotated(old(entries[..]), s, e)
    {
      ghost var before := entries[..];
      RotatedIsSwapped(before, l + 1, r + 1);
      entries[l], entries[r] := entries[r], entries[l];
      assert entries[..] == Swapped(before, l, r);
      l, r := l + 1, r - 1;
    }
    OutOfBoundsIsUnchanged(entries[..], l + 1, r + 1);
  }

  method RotateAll<T>(entries: array<T>, ranges: Ranges)
    modifies entries
    ensures entries[..] == RotatedAll(old(entries[..]), ranges)
  {
    for i := 0 to |ranges|
      invariant RotatedAll(entries[..], ranges[i..]) == RotatedAll(old(entries[..]), ranges)
    {
      assert ranges[i..][1..] == ranges[i + 1..];
      Rotate(entries, ranges[i].0, ranges[i].1);
    }
  }

  lemma RotatedTwice<T>(a: seq<T>, s: int, e: int)
    ensures Rotated(Rotated(a, s, e), s, e) == a
  {}

  function Backwards(ranges: Ranges): Ranges {
    if ranges == [] then [] else Backwards(ranges[1..]) + [ranges[0]]
  }

  lemma {:induction false} RotatedAllSplit<T>(a: seq<T>, x: Ranges, y: Ranges)
    ensures RotatedAll(a, x + y) == RotatedAll(RotatedAll(a, x), y)
    decreases |x|
  {
    if x == [] {
      assert x + y == y;
    } else {
      assert (x + y)[1..] == x[1..] + y;
      RotatedAllSplit(Rotated(a, x[0].0, x[0].1), x[1..], y);
    }
  }

  /** Any list of ranges is undone by the same list backwards. */
  lemma {:induction false} BackwardsUndoes<T>(a: seq<T>, ranges: Ranges)
    ensures RotatedAll(RotatedAll(a, ranges), Backwards(ranges)) == a
    decreases |ranges|
  {
    if ranges != [] {
      var first := ranges[0];
      var b := Rotated(a, first.0, first.1);
      var c := RotatedAll(b, ranges[1..]);
      BackwardsUndoes(b, ranges[1..]);
      RotatedAllSplit(c, Backwards(ranges[1..]), [first]);
      assert RotatedAll(b, [first]) == Rotated(b, first.0, first.1) by {
        assert [first][1..] == [];
      }
      RotatedTwice(a, first.0, first.1);
    }
  }

  /** The same entries in some order. */
  ghost predicate SameEntries<T>(a: seq<T>, b: seq<T>) {
    multiset(a) == multiset(b)
  }

  lemma SameEntriesReflexive<T>(a: seq<T>)
    ensures SameEntries(a, a)
  {}

  lemma SameEntriesTransitive<T>(a: seq<T>, b: seq<T>, c: seq<T>)
    requires SameEntries(a, b) && SameEntries(b, c)
    ensures SameEntries(a, c)
  {}

  lemma SwappedIsPermutation<T>(a: seq<T>, i: nat, j: nat)
    requires i < j < |a|
    ensures SameEntries(Swapped(a, i, j), a)
  {}

  lemma {:induction false} RotatedIsPermutation<T>(a: seq<T>, s: int, e: int)
    ensures SameEntries(Rotated(a, s, e), a)
    decreases e - s
  {
    hide Rotated, Swapped, SameEntries;
    if InBounds(s, e, |a|) {
      RotatedIsSwapped(a, s, e);
      var b := Swapped(a, s - 1, e - 1);
      SwappedIsPermutation(a, s - 1, e - 1);
      RotatedIsPermutation(b, s + 1, e - 1);
      SameEntriesTransitive(Rotated(b, s + 1, e - 1), b, a);
    } else {
      OutOfBoundsIsUnchanged(a, s, e);
      SameEntriesReflexive(a);
    }
  }

  /** No list of ranges loses or repeats an entry. */
  lemma {:induction false} RotatedAllIsPermutation<T>(a: seq<T>, ranges: Ranges)
    ensures SameEntries(RotatedAll(a, ranges), a)
    decreases |ranges|
  {
    if ranges != [] {
      var b := Rotated(a, ranges[0].0, ranges[0].1);
      RotatedIsPermutation(a, ranges[0].0, ranges[0].1);
      RotatedAllIsPermutation(b, ranges[1..]);
      hide Rotated, SameEntries;
      SameEntriesTransitive(RotatedAll(a, ranges), b, a);
    }
  }

  // ---------------------------------------------------------------- entry validation

  type Byte = n: nat | n < 256
  type Sextet = n: nat | n < 64
  type Alphabet = map<char, Sextet>

  predicate AllIn(s: string, letters: set<char>) {
    forall i :: 0 <= i < |s| ==> s[i] in letters
  }

  /** Letters of the alphabet, then padding only. */
  ghost predicate IsWellFormed(s: string, alphabet: Alphabet) {
    exists k :: 0 <= k <= |s| && AllIn(s[..k], alphabet.Keys - {'='}) && AllIn(s[k..], {'='})
  }

  method IsValidEntry(raw: string, alphabet: Alphabet) returns (valid: bool)
    ensures valid <==> IsWellFormed(raw, alphabet)
  {
    var hasInvalidChars, paddingStarted, invalidPadding := false, false, false;
    ghost var k := 0;
    for c := 0 to |raw|
      invariant 0 <= k <= c && (!paddingStarted ==> k == c)
      invariant paddingStarted ==> k < c && raw[k] == '='
      invariant forall i :: 0 <= i < k ==> raw[i] != '='
      invariant hasInvalidChars <==> exists i :: 0 <= i < k && raw[i] !in alphabet
      invariant invalidPadding <==> exists i :: k <= i < c && raw[i] != '='
    {
      var ch := raw[c];
      if ch == '=' {
        paddingStarted := true;
      } else if paddingStarted {
        invalidPadding := true;
      } else {
        if ch !in alphabet { hasInvalidChars := true; }
        k := k + 1;
      }
    }
    valid := !(hasInvalidChars || invalidPadding);
    WellFormedAt(raw, alphabet, k);
  }

  lemma SplitIsFirstPadding(s: string, alphabet: Alphabet, j: nat, k: nat)
    requires j <= |s| && AllIn(s[..j], alphabet.Keys - {'='}) && AllIn(s[j..], {'='})
    requires k <= |s| && (k < |s| ==> s[k] == '=') && forall i :: 0 <= i < k ==> s[i] != '='
    ensures j == k
  {
    assert forall i :: 0 <= i < j ==> s[..j][i] == s[i];
    assert forall i :: 0 <= i < j ==> s[i] != '=';
    forall i | j <= i < |s| ensures s[i] == '=' { assert s[j..][i - j] == s[i]; }
    assert j < |s| ==> s[j] == '=';
  }

  /** Only the first padding character can be the split. */
  lemma WellFormedAt(s: string, alphabet: Alphabet, k: nat)
    requires k <= |s| && (k < |s| ==> s[k] == '=') && forall i :: 0 <= i < k ==> s[i] != '='
    ensures IsWellFormed(s, alphabet) <==>
              (forall i :: 0 <= i < k ==> s[i] in alphabet) && (forall i :: k <= i < |s| ==> s[i] == '=')
  {
    if IsWellFormed(s, alphabet) {
      var j :| 0 <= j <= |s| && AllIn(s[..j], alphabet.Keys - {'='}) && AllIn(s[j..], {'='});
      SplitIsFirstPadding(s, alphabet, j, k);
      forall i | 0 <= i < k ensures s[i] in alphabet { assert s[..j][i] == s[i]; }
      forall i | k <= i < |s| ensures s[i] == '=' { assert s[j..][i - k] == s[i]; }
    }
    if (forall i :: 0 <= i < k ==> s[i] in alphabet) && (forall i :: k <= i < |s| ==> s[i] == '=') {
      assert AllIn(s[..k], alphabet.Keys - {'='}) && AllIn(s[k..], {'='});
    }
  }

  // ---------------------------------------------------------------- decoding

  /** `v * 64 ^ (3 - u)` */
  function Weighted(v: Sextet, u: nat): nat
    requires u < 4
  {
    if u == 0 then v * 262144 else if u == 1 then v * 4096 else if u == 2 then v * 64 else v
  }

  function High(f: nat): Byte {
    f / 65536 % 256
  }

  function Middle(f: nat): Byte {
    f % 65536 / 256
  }

  /** What the decoder pushes for the rest of an entry with accumulator `f` after `u` letters of a group. */
  function DecodeFrom(s: string, alphabet: Alphabet, f: nat, u: nat): seq<Byte>
    requires u < 4
    decreases |s|
  {
    if s == [] then []
    else if s[0] in alphabet then
      var g := f + Weighted(alphabet[s[0]], u);
      if u == 3 then [High(g), Middle(g), g % 256] + DecodeFrom(s[1..], alphabet, 0, 0)
      else DecodeFrom(s[1..], alphabet, g, u + 1)
    else if s[0] == '=' then [High(f)] + if |s| > 1 && s[1] != '=' then [Middle(f)] else []
    else DecodeFrom(s[1..], alphabet, f, u)
  }

  function Decoded(s: string, alphabet: Alphabet): seq<Byte> {
    DecodeFrom(s, alphabet, 0, 0)
  }

  method Decode(raw: string, alphabet: Alphabet) returns (bytes: seq<Byte>)
    ensures bytes == Decoded(raw, alphabet)
  {
    bytes := [];
    var f: nat, u: nat := 0, 0;
    var c := 0;
    while c < |raw|
      invariant 0 <= c <= |raw| && u < 4
      invariant bytes + DecodeFrom(raw[c..], alphabet, f, u) == Decoded(raw, alphabet)
    {
      var ch := raw[c];
      assert raw[c..][1..] == raw[c + 1..];
      ghost var before := bytes;
      if ch in alphabet {
        f := f + Weighted(alphabet[ch], u);
        if u == 3 {
          bytes := bytes + [High(f), Middle(f), f % 256];
          ConcatAssoc(before, [High(f), Middle(f), f % 256], DecodeFrom(raw[c + 1..], alphabet, 0, 0));
          f, u := 0, 0;
        } else {
          u := u + 1;
        }
      } else if ch == '=' {
        bytes := bytes + [High(f)];
        if c + 1 < |raw| && raw[c + 1] != '=' {
          bytes := bytes + [Middle(f)];
          assert bytes == before + ([High(f)] + [Middle(f)]);
        }
        return;
      }
      c := c + 1;
    }
  }

  // ---------------------------------------------------------------- against the standard encoding

  /** 64 distinct letters without the padding character. */
  ghost predicate IsLetters(letters: seq<char>) {
    |letters| == 64 && NoDup(letters) && '=' !in letters
  }

  /** The alphabet gives every letter its position. */
  ghost predicate IsAlphabetOf(alphabet: Alphabet, letters: seq<char>) {
    |letters| == 64 && (forall c :: c in alphabet ==> c in letters)
    && forall i :: 0 <= i < 64 ==> letters[i] in alphabet && alphabet[letters[i]] == i
  }

  function Pack(a: Byte, b: Byte, c: Byte): (n: nat)
    ensures n < 0x1000000
  {
    a * 65536 + b * 256 + c
  }

  /** The `u`-th sextet of a 24-bit number. */
  function SextetAt(n: nat, u: nat): Sextet
    requires n < 0x1000000 && u < 4
  {
    if u == 0 then n / 64 / 64 / 64 else if u == 1 then n / 64 / 64 % 64 else if u == 2 then n / 64 % 64 else n % 64
  }

  /** The padded encoding of section 4 of RFC 4648 over the given letters. */
  function Encode(bytes: seq<Byte>, letters: seq<char>): string
    requires |letters| == 64
    decreases |bytes|
  {
    if bytes == [] then ""
    else if |bytes| == 1 then
      var n := Pack(bytes[0], 0, 0);
      [letters[SextetAt(n, 0)], letters[SextetAt(n, 1)], '=', '=']
    else if |bytes| == 2 then
      var n := Pack(bytes[0], bytes[1], 0);
      [letters[SextetAt(n, 0)], letters[SextetAt(n, 1)], letters[SextetAt(n, 2)], '=']
    else
      var n := Pack(bytes[0], bytes[1], bytes[2]);
      [letters[SextetAt(n, 0)], letters[SextetAt(n, 1)], letters[SextetAt(n, 2)], letters[SextetAt(n, 3)]] + Encode(bytes[3..], letters)
  }

  function FromSextets(v0: Sextet, v1: Sextet, v2: Sextet, v3: Sextet): nat {
    Weighted(v0, 0) + Weighted(v1, 1) + Weighted(v2, 2) + Weighted(v3, 3)
  }

  lemma SextetsMakeNumber(n: nat)
    requires n < 0x1000000
    ensures FromSextets(SextetAt(n, 0), SextetAt(n, 1), SextetAt(n, 2), SextetAt(n, 3)) == n
  {
    var q1 := n / 64;
    var q2 := q1 / 64;
    assert n == 64 * q1 + n % 64 && q1 == 64 * q2 + q1 % 64 && q2 == 64 * (q2 / 64) + q2 % 64;
  }

  lemma Split64(high: nat, low: nat)
    requires low < 64
    ensures (high * 64 + low) / 64 == high && (high * 64 + low) % 64 == low
  {}

  lemma Split256(high: nat, low: nat)
    requires low < 256
    ensures (high * 256 + low) / 256 == high && (high * 256 + low) % 256 == low
  {}

  lemma Split65536(high: nat, low: nat)
    requires low < 65536
    ensures (high * 65536 + low) / 65536 == high && (high * 65536 + low) % 65536 == low
  {}

  /** The sextets that padding replaces are zero. */
  lemma PaddedSextets(a: Byte, b: Byte)
    ensures SextetAt(Pack(a, b, 0), 3) == 0 && SextetAt(Pack(a, 0, 0), 2) == 0 && SextetAt(Pack(a, 0, 0), 3) == 0
  {
    var mixed: nat, whole: nat, part: nat := 1024 * a + 4 * b, 1024 * a, 16 * a;
    assert Pack(a, b, 0) == mixed * 64 + 0 && Pack(a, 0, 0) == whole * 64 + 0 && whole == part * 64 + 0;
    Split64(mixed, 0);
    Split64(whole, 0);
    Split64(part, 0);
    hide Pack;
  }

  lemma PackedBytes(a: Byte, b: Byte, c: Byte)
    ensures var n := Pack(a, b, c); High(n) == a && Middle(n) == b && n % 256 == c
  {
    var low: nat, upper: nat := b * 256 + c, a * 256 + b;
    assert Pack(a, b, c) == a * 65536 + low && Pack(a, b, c) == upper * 256 + c;
    Split65536(a, low);
    Split256(b, c);
    Split256(upper, c);
    hide Pack;
  }

  lemma LettersSize(alphabet: Alphabet, letters: seq<char>)
    requires IsAlphabetOf(alphabet, letters)
    ensures |letters| == 64
  {}

  lemma DecodeLetter(s: string, alphabet: Alphabet, letters: seq<char>, v: Sextet, f: nat, u: nat)
    requires IsAlphabetOf(alphabet, letters) && s != [] && s[0] == letters[v] && u < 4
    ensures DecodeFrom(s, alphabet, f, u) ==
            if u == 3 then [High(f + v), Middle(f + v), (f + v) % 256] + DecodeFrom(s[1..], alphabet, 0, 0)
            else DecodeFrom(s[1..], alphabet, f + Weighted(v, u), u + 1)
  {
    hide High, Middle;
  }

  /** Two letters of a group leave their bits in the accumulator. */
  lemma DecodeTwoLetters(v0: Sextet, v1: Sextet, rest: string, alphabet: Alphabet, letters: seq<char>)
    requires IsAlphabetOf(alphabet, letters)
    ensures DecodeFrom([letters[v0], letters[v1]] + rest, alphabet, 0, 0)
         == DecodeFrom(rest, alphabet, Weighted(v0, 0) + Weighted(v1, 1), 2)
  {
    var s := [letters[v0], letters[v1]] + rest;
    assert s[1..] == [letters[v1]] + rest && s[1..][1..] == rest;
    hide DecodeFrom, Weighted;
    DecodeLetter(s, alphabet, letters, v0, 0, 0);
    DecodeLetter(s[1..], alphabet, letters, v1, Weighted(v0, 0), 1);
  }

  /** Four letters push the three bytes of their number. */
  lemma DecodeFourLetters(v0: Sextet, v1: Sextet, v2: Sextet, v3: Sextet, rest: string, alphabet: Alphabet, letters: seq<char>)
    requires IsAlphabetOf(alphabet, letters)
    ensures var n := FromSextets(v0, v1, v2, v3);
      DecodeFrom([letters[v0], letters[v1], letters[v2], letters[v3]] + rest, alphabet, 0, 0)
      == [High(n), Middle(n), n % 256] + DecodeFrom(rest, alphabet, 0, 0)
  {
    var f, t := Weighted(v0, 0) + Weighted(v1, 1), [letters[v2], letters[v3]] + rest;
    assert FromSextets(v0, v1, v2, v3) == f + Weighted(v2, 2) + v3;
    hide DecodeFrom, Weighted, High, Middle, FromSextets, IsAlphabetOf;
    assert |letters| == 64 by { LettersSize(alphabet, letters); }
    assert [letters[v0], letters[v1], letters[v2], letters[v3]] + rest == [letters[v0], letters[v1]] + t;
    assert t[1..] == [letters[v3]] + rest && t[1..][1..] == rest;
    DecodeTwoLetters(v0, v1, t, alphabet, letters);
    DecodeLetter(t, alphabet, letters, v2, f, 2);
    DecodeLetter(t[1..], alphabet, letters, v3, f + Weighted(v2, 2), 3);
  }

  lemma DecodePadding(s: string, alphabet: Alphabet, f: nat, u: nat)
    requires '=' !in alphabet && u < 4 && s != [] && AllIn(s, {'='})
    ensures DecodeFrom(s, alphabet, f, u) == [High(f)]
  {
    hide High;
  }

  /** A full group gives back its three bytes. */
  lemma {:induction false} DecodeGroup(bytes: seq<Byte>, alphabet: Alphabet, letters: seq<char>)
    requires IsAlphabetOf(alphabet, letters) && |bytes| > 2
    ensures Decoded(Encode(bytes, letters), alphabet) == bytes[..3] + Decoded(Encode(bytes[3..], letters), alphabet)
  {
    var n := Pack(bytes[0], bytes[1], bytes[2]);
    SextetsMakeNumber(n);
    PackedBytes(bytes[0], bytes[1], bytes[2]);
    var v0, v1, v2, v3 := SextetAt(n, 0), SextetAt(n, 1), SextetAt(n, 2), SextetAt(n, 3);
    var rest := Encode(bytes[3..], letters);
    assert Encode(bytes, letters) == [letters[v0], letters[v1], letters[v2], letters[v3]] + rest;
    hide Pack, SextetAt, FromSextets, High, Middle, DecodeFrom, Encode, IsAlphabetOf;
    DecodeFourLetters(v0, v1, v2, v3, rest, alphabet, letters);
    assert bytes[..3] == [bytes[0], bytes[1], bytes[2]];
  }

  lemma PaddedSums(v0: Sextet, v1: Sextet, v2: Sextet)
    ensures FromSextets(v0, v1, v2, 0) == Weighted(v0, 0) + Weighted(v1, 1) + Weighted(v2, 2)
    ensures FromSextets(v0, v1, 0, 0) == Weighted(v0, 0) + Weighted(v1, 1)
  {}

  lemma DecodeTwoPadded(v0: Sextet, v1: Sextet, alphabet: Alphabet, letters: seq<char>)
    requires IsAlphabetOf(alphabet, letters) && '=' !in alphabet
    ensures Decoded([letters[v0], letters[v1], '=', '='], alphabet) == [High(FromSextets(v0, v1, 0, 0))]
  {
    assert [letters[v0], letters[v1], '=', '='] == [letters[v0], letters[v1]] + ['=', '='];
    hide FromSextets, Weighted, High, DecodeFrom, IsAlphabetOf;
    PaddedSums(v0, v1, 0);
    DecodeTwoLetters(v0, v1, ['=', '='], alphabet, letters);
    DecodePadding(['=', '='], alphabet, Weighted(v0, 0) + Weighted(v1, 1), 2);
  }

  lemma DecodeThreePadded(v0: Sextet, v1: Sextet, v2: Sextet, alphabet: Alphabet, letters: seq<char>)
    requires IsAlphabetOf(alphabet, letters) && '=' !in alphabet
    ensures Decoded([letters[v0], letters[v1], letters[v2], '='], alphabet) == [High(FromSextets(v0, v1, v2, 0))]
  {
    var t := [letters[v2], '='];
    assert [letters[v0], letters[v1], letters[v2], '='] == [letters[v0], letters[v1]] + t;
    assert t[1..] == ['='];
    hide FromSextets, Weighted, High, Middle, DecodeFrom, IsAlphabetOf;
    var f := Weighted(v0, 0) + Weighted(v1, 1);
    PaddedSums(v0, v1, v2);
    DecodeTwoLetters(v0, v1, t, alphabet, letters);
    DecodeLetter(t, alphabet, letters, v2, f, 2);
    DecodePadding(['='], alphabet, f + Weighted(v2, 2), 3);
  }

  /** One byte is encoded with two padding characters and read back. */
  lemma DecodeOne(bytes: seq<Byte>, alphabet: Alphabet, letters: seq<char>)
    requires IsAlphabetOf(alphabet, letters) && '=' !in alphabet && |bytes| == 1
    ensures Decoded(Encode(bytes, letters), alphabet) == bytes
  {
    var n := Pack(bytes[0], 0, 0);
    hide Pack, SextetAt, FromSextets, High, Middle, Decoded, IsAlphabetOf;
    SextetsMakeNumber(n);
    PackedBytes(bytes[0], 0, 0);
    PaddedSextets(bytes[0], 0);
    assert |letters| == 64 by { LettersSize(alphabet, letters); }
    DecodeTwoPadded(SextetAt(n, 0), SextetAt(n, 1), alphabet, letters);
    assert Encode(bytes, letters) == [letters[SextetAt(n, 0)], letters[SextetAt(n, 1)], '=', '='];
    hide Encode;
    assert bytes == [bytes[0]];
  }

  /** Two bytes are encoded with one padding character, and only the first is read back. */
  lemma DecodeTwo(bytes: seq<Byte>, alphabet: Alphabet, letters: seq<char>)
    requires IsAlphabetOf(alphabet, letters) && '=' !in alphabet && |bytes| == 2
    ensures Decoded(Encode(bytes, letters), alphabet) == bytes[..1]
  {
    var n := Pack(bytes[0], bytes[1], 0);
    hide Pack, SextetAt, FromSextets, High, Middle, Decoded, IsAlphabetOf;
    SextetsMakeNumber(n);
    PackedBytes(bytes[0], bytes[1], 0);
    PaddedSextets(bytes[0], bytes[1]);
    assert |letters| == 64 by { LettersSize(alphabet, letters); }
    DecodeThreePadded(SextetAt(n, 0), SextetAt(n, 1), SextetAt(n, 2), alphabet, letters);
    assert Encode(bytes, letters) == [letters[SextetAt(n, 0)], letters[SextetAt(n, 1)], letters[SextetAt(n, 2)], '='];
    hide Encode;
    assert bytes[..1] == [bytes[0]];
  }

  function AllButLast(bytes: seq<Byte>): seq<Byte>
    requires bytes != []
  {
    bytes[..|bytes| - 1]
  }

  /** The decoder inverts the padded encoding, except that it loses exactly the last byte when two bytes are left
      over: after a single padding character it does not push the second byte of the group. */
  lemma {:induction false} DecoderInvertsEncoding(bytes: seq<Byte>, alphabet: Alphabet, letters: seq<char>)
    requires IsLetters(letters) && IsAlphabetOf(alphabet, letters)
    ensures Decoded(Encode(bytes, letters), alphabet) == if |bytes| % 3 == 2 then AllButLast(bytes) else bytes
    decreases |bytes|
  {
    assert '=' !in alphabet;
    hide IsLetters, IsAlphabetOf, DecodeFrom;
    if bytes == [] {
      assert DecodeFrom("", alphabet, 0, 0) == [] by { NothingDecodes(alphabet); }
    } else {
      hide Decoded, Encode;
      if |bytes| == 1 {
        DecodeOne(bytes, alphabet, letters);
      } else if |bytes| == 2 {
        DecodeTwo(bytes, alphabet, letters);
      } else {
        DecodeGroup(bytes, alphabet, letters);
        DecoderInvertsEncoding(bytes[3..], alphabet, letters);
        BehindAGroup(bytes);
      }
    }
  }

  lemma NothingDecodes(alphabet: Alphabet)
    ensures DecodeFrom("", alphabet, 0, 0) == []
  {}

  /** Behind a full group the number of bytes left over and the last byte stay the same. */
  lemma BehindAGroup(bytes: seq<Byte>)
    requires |bytes| > 2
    ensures |bytes[3..]| % 3 == |bytes| % 3
    ensures bytes[..3] + bytes[3..] == bytes
    ensures bytes[3..] != [] ==> bytes[..3] + AllButLast(bytes[3..]) == AllButLast(bytes)
  {}

  lemma {:induction false} DecodesExactlyIff(bytes: seq<Byte>, alphabet: Alphabet, letters: seq<char>)
    requires IsLetters(letters) && IsAlphabetOf(alphabet, letters)
    ensures Decoded(Encode(bytes, letters), alphabet) == bytes <==> |bytes| % 3 != 2
  {
    DecoderInvertsEncoding(bytes, alphabet, letters);
    hide Decoded, Encode;
  }

  /** Every encoding passes the validation. */
  lemma {:induction false} EncodingsAreWellFormed(bytes: seq<Byte>, alphabet: Alphabet, letters: seq<char>)
    requires IsLetters(letters) && IsAlphabetOf(alphabet, letters)
    ensures IsWellFormed(Encode(bytes, letters), alphabet)
    decreases |bytes|
  {
    var s := Encode(bytes, letters);
    if bytes == [] {
      assert AllIn(s[..0], alphabet.Keys - {'='}) && AllIn(s[0..], {'='});
    } else if |bytes| < 3 {
      var k := |bytes| + 1;
      assert AllIn(s[..k], alphabet.Keys - {'='}) && AllIn(s[k..], {'='});
    } else {
      EncodingsAreWellFormed(bytes[3..], alphabet, letters);
      var rest := Encode(bytes[3..], letters);
      var k :| 0 <= k <= |rest| && AllIn(rest[..k], alphabet.Keys - {'='}) && AllIn(rest[k..], {'='});
      assert s[4..] == rest && s[4 + k..] == rest[k..] && s[..4 + k] == s[..4] + rest[..k];
      assert AllIn(s[..4 + k], alphabet.Keys - {'='}) && AllIn(s[4 + k..], {'='});
    }
  }

  // ---------------------------------------------------------------- every valid entry

  /** The letters of some sextets. */
  function Spelled(values: seq<Sextet>, letters: seq<char>): (s: string)
    requires |letters| == 64
    ensures |s| == |values|
  {
    seq(|values|, i requires 0 <= i < |values| => letters[values[i]])
  }

  function Padding(n: nat): (s: string)
    ensures |s| == n && forall i :: 0 <= i < n ==> s[i] == '='
  {
    seq(n, _ => '=')
  }

  /** The three bytes of four sextets. */
  function GroupBytes(v0: Sextet, v1: Sextet, v2: Sextet, v3: Sextet): seq<Byte> {
    [4 * v0 + v1 / 16, 16 * (v1 % 16) + v2 / 4, 64 * (v2 % 4) + v3]
  }

  /** The first byte of a group of less than four sextets, the missing ones being zero. */
  function FirstByte(values: seq<Sextet>): Byte {
    var v0: nat := if |values| > 0 then values[0] else 0;
    var v1: nat := if |values| > 1 then values[1] else 0;
    4 * v0 + v1 / 16
  }

  /** The second byte of such a group. */
  function SecondByte(values: seq<Sextet>): Byte {
    var v1: nat := if |values| > 1 then values[1] else 0;
    var v2: nat := if |values| > 2 then values[2] else 0;
    16 * (v1 % 16) + v2 / 4
  }

  /** What is pushed for less than four sextets and the text behind them: one byte at padding, and a second one only if
      another character follows the first padding character. */
  function LastBytes(values: seq<Sextet>, tail: string): seq<Byte> {
    if tail == "" then [] else if |tail| > 1 && tail[1] != '=' then [FirstByte(values), SecondByte(values)] else [FirstByte(values)]
  }

  /** What sextets and the padding behind them stand for to the decoder: the bytes of all full groups, and the last bytes. */
  function EntryBytes(values: seq<Sextet>, tail: string): seq<Byte>
    decreases |values|
  {
    if |values| < 4 then LastBytes(values, tail)
    else GroupBytes(values[0], values[1], values[2], values[3]) + EntryBytes(values[4..], tail)
  }

  lemma GroupBytesAre(v0: Sextet, v1: Sextet, v2: Sextet, v3: Sextet)
    ensures var n := FromSextets(v0, v1, v2, v3); [High(n), Middle(n), n % 256] == GroupBytes(v0, v1, v2, v3)
  {
    var a, b, c := 4 * v0 + v1 / 16, 16 * (v1 % 16) + v2 / 4, 64 * (v2 % 4) + v3;
    assert FromSextets(v0, v1, v2, v3) == Pack(a, b, c);
    PackedBytes(a, b, c);
    hide Pack, FromSextets, High, Middle;
  }

  /** What is accumulated for sextets that start at the `u`-th of a group. */
  function SumFrom(values: seq<Sextet>, u: nat): nat
    requires u + |values| < 4
    decreases |values|
  {
    if values == [] then 0 else Weighted(values[0], u) + SumFrom(values[1..], u + 1)
  }

  lemma ThreeSum(v0: Sextet, v1: Sextet, v2: Sextet)
    ensures SumFrom([], 0) == 0 && SumFrom([v0], 0) == FromSextets(v0, 0, 0, 0)
    ensures SumFrom([v0, v1], 0) == FromSextets(v0, v1, 0, 0) && SumFrom([v0, v1, v2], 0) == FromSextets(v0, v1, v2, 0)
  {
    assert [v0][1..] == [] && [v0, v1][1..] == [v1] && [v1][1..] == [] && [v0, v1, v2][1..] == [v1, v2]
        && [v1, v2][1..] == [v2] && [v2][1..] == [];
    assert SumFrom([v2], 2) == Weighted(v2, 2) && SumFrom([v1], 1) == Weighted(v1, 1);
    assert SumFrom([v1, v2], 1) == Weighted(v1, 1) + SumFrom([v2], 2);
  }

  lemma FirstOfGroup(v0: Sextet, v1: Sextet, v2: Sextet)
    ensures High(FromSextets(v0, v1, v2, 0)) == 4 * v0 + v1 / 16
    ensures Middle(FromSextets(v0, v1, v2, 0)) == 16 * (v1 % 16) + v2 / 4
  {
    GroupBytesAre(v0, v1, v2, 0);
    hide FromSextets, High, Middle;
    var pushed := [High(FromSextets(v0, v1, v2, 0)), Middle(FromSextets(v0, v1, v2, 0)), FromSextets(v0, v1, v2, 0) % 256];
    assert pushed[0] == GroupBytes(v0, v1, v2, 0)[0] && pushed[1] == GroupBytes(v0, v1, v2, 0)[1];
  }

  lemma FirstBytesAre(values: seq<Sextet>)
    requires |values| < 4
    ensures High(SumFrom(values, 0)) == FirstByte(values) && Middle(SumFrom(values, 0)) == SecondByte(values)
  {
    hide High, Middle, Weighted, FromSextets;
    if |values| == 0 {
      NothingHigh();
    } else if |values| == 1 {
      FirstBytesOf(values, values[0], 0, 0);
    } else if |values| == 2 {
      FirstBytesOf(values, values[0], values[1], 0);
    } else {
      FirstBytesOf(values, values[0], values[1], values[2]);
    }
  }

  lemma NothingHigh()
    ensures High(0) == 0 && Middle(0) == 0
  {}

  lemma FirstBytesOf(values: seq<Sextet>, v0: Sextet, v1: Sextet, v2: Sextet)
    requires (values == [v0] && v1 == 0 && v2 == 0) || (values == [v0, v1] && v2 == 0) || values == [v0, v1, v2]
    ensures High(SumFrom(values, 0)) == FirstByte(values) && Middle(SumFrom(values, 0)) == SecondByte(values)
  {
    ThreeSum(v0, v1, v2);
    FirstOfGroup(v0, v1, v2);
    hide SumFrom, High, Middle, Weighted, FromSextets;
  }

  lemma {:induction false} DecodeLeft(values: seq<Sextet>, tail: string, alphabet: Alphabet, letters: seq<char>, f: nat, u: nat)
    requires IsAlphabetOf(alphabet, letters) && '=' !in alphabet && u + |values| < 4
    requires tail == "" || tail[0] == '='
    ensures DecodeFrom(Spelled(values, letters) + tail, alphabet, f, u)
         == if tail == "" then []
            else if |tail| > 1 && tail[1] != '=' then [High(f + SumFrom(values, u)), Middle(f + SumFrom(values, u))]
            else [High(f + SumFrom(values, u))]
    decreases |values|
  {
    var s := Spelled(values, letters) + tail;
    if values == [] {
      assert s == tail;
      hide High, Middle;
    } else {
      assert s[1..] == Spelled(values[1..], letters) + tail;
      assert s[0] == letters[values[0]];
      hide DecodeFrom, High, Middle, Weighted;
      DecodeLetter(s, alphabet, letters, values[0], f, u);
      hide IsAlphabetOf, Spelled;
      DecodeLeft(values[1..], tail, alphabet, letters, f + Weighted(values[0], u), u + 1);
    }
  }

  /** The decoder on letters and what begins with padding or is empty, encoded by anyone or not. */
  lemma {:induction false} EveryEntryDecodes(values: seq<Sextet>, tail: string, alphabet: Alphabet, letters: seq<char>)
    requires IsLetters(letters) && IsAlphabetOf(alphabet, letters) && (tail == "" || tail[0] == '=')
    ensures Decoded(Spelled(values, letters) + tail, alphabet) == EntryBytes(values, tail)
    decreases |values|
  {
    assert '=' !in alphabet;
    if |values| < 4 {
      DecodeLeft(values, tail, alphabet, letters, 0, 0);
      FirstBytesAre(values);
      hide High, Middle, SumFrom, FirstByte, SecondByte, DecodeFrom;
    } else {
      var rest := Spelled(values[4..], letters) + tail;
      assert Spelled(values, letters) + tail
          == [letters[values[0]], letters[values[1]], letters[values[2]], letters[values[3]]] + rest;
      hide DecodeFrom, High, Middle, FromSextets, GroupBytes, Spelled, LastBytes;
      DecodeFourLetters(values[0], values[1], values[2], values[3], rest, alphabet, letters);
      GroupBytesAre(values[0], values[1], values[2], values[3]);
      EveryEntryDecodes(values[4..], tail, alphabet, letters);
    }
  }

  /** A character that is neither a letter nor padding is skipped. */
  lemma {:induction false} ForeignIsSkipped(a: string, c: char, b: string, alphabet: Alphabet, f: nat, u: nat)
    requires u < 4 && c !in alphabet && c != '=' && forall i :: 0 <= i < |a| ==> a[i] != '=' || a[i] in alphabet
    ensures DecodeFrom(a + [c] + b, alphabet, f, u) == DecodeFrom(a + b, alphabet, f, u)
    decreases |a|
  {
    hide High, Middle, Weighted;
    if a == "" {
      assert (a + [c] + b)[1..] == b && a + b == b;
    } else {
      assert (a + [c] + b)[1..] == a[1..] + [c] + b && (a + b)[1..] == a[1..] + b;
      if a[0] in alphabet {
        var g := f + Weighted(alphabet[a[0]], u);
        ForeignIsSkipped(a[1..], c, b, alphabet, if u == 3 then 0 else g, if u == 3 then 0 else u + 1);
      } else {
        ForeignIsSkipped(a[1..], c, b, alphabet, f, u);
      }
    }
  }

  /** Every valid entry is letters followed by padding, which adds at most one byte. */
  lemma ValidEntriesAreSpelled(s: string, alphabet: Alphabet, letters: seq<char>) returns (values: seq<Sextet>, padding: nat)
    requires IsLetters(letters) && IsAlphabetOf(alphabet, letters) && IsWellFormed(s, alphabet)
    ensures s == Spelled(values, letters) + Padding(padding)
  {
    var k :| 0 <= k <= |s| && AllIn(s[..k], alphabet.Keys - {'='}) && AllIn(s[k..], {'='});
    forall i | 0 <= i < k ensures s[i] in alphabet && letters[alphabet[s[i]]] == s[i] {
      assert s[..k][i] == s[i];
      var j :| 0 <= j < |letters| && letters[j] == s[i];
    }
    values := seq(k, i requires 0 <= i < k => alphabet[s[i]]);
    padding := |s| - k;
    assert s[..k] == Spelled(values, letters);
    forall i | k <= i < |s| ensures s[i] == '=' { assert s[k..][i - k] == s[i]; }
    assert s[k..] == Padding(padding);
    assert s == s[..k] + s[k..];
  }
}

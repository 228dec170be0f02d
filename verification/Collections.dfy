/** Values shared by all models: optional values, duplicate-free sequences and the
    insertion-ordered `Map` of JavaScript. */
module Collections {

  datatype Option<+T> = None | Some(value: T)

  function Max(a: int, b: int): int {
    if a < b then b else a
  }

  ghost predicate NoDup<T>(s: seq<T>) {
    forall i, j :: 0 <= i < j < |s| ==> s[i] != s[j]
  }

  function Times<T>(x: T, n: nat): (r: seq<T>)
    ensures |r| == n && forall i :: 0 <= i < n ==> r[i] == x
  {
    seq(n, _ => x)
  }

  /** `s.filter(y => y !== x)` */
  function Without<T(==,!new)>(s: seq<T>, x: T): (r: seq<T>)
    ensures |r| <= |s|
    ensures forall y :: y in r <==> y in s && y != x
    ensures x !in s ==> r == s
  {
    if s == [] then []
    else if s[0] == x then Without(s[1..], x)
    else [s[0]] + Without(s[1..], x)
  }

  lemma {:induction false} WithoutKeepsNoDup<T(!new)>(s: seq<T>, x: T)
    requires NoDup(s)
    ensures NoDup(Without(s, x))
    ensures x in s ==> |Without(s, x)| == |s| - 1
  {
    if s != [] {
      assert NoDup(s[1..]);
      WithoutKeepsNoDup(s[1..], x);
      assert s[0] !in s[1..];
    }
  }

  lemma {:induction false} WithoutConcat<T(!new)>(a: seq<T>, b: seq<T>, x: T)
    ensures Without(a + b, x) == Without(a, x) + Without(b, x)
  {
    if a == [] {
      assert a + b == b;
    } else {
      assert (a + b)[1..] == a[1..] + b;
      WithoutConcat(a[1..], b, x);
    }
  }

  lemma DropPrefix<T>(a: seq<T>, b: seq<T>)
    ensures (a + b)[|a|..] == b
  {}

  lemma ConcatAssoc<T>(a: seq<T>, b: seq<T>, c: seq<T>)
    ensures (a + b) + c == a + (b + c)
  {}

  lemma CancelPrefix<T>(a: seq<T>, b: seq<T>, c: seq<T>)
    requires a + b == a + c
    ensures b == c
  {
    DropPrefix(a, b);
    DropPrefix(a, c);
  }

  lemma MultisetSnoc<T>(s: seq<T>, i: nat)
    requires i < |s|
    ensures multiset(s[..i + 1]) == multiset(s[..i]) + multiset{s[i]}
  {
    assert s[..i + 1] == s[..i] + [s[i]];
  }

  lemma NoDupConcat<T>(a: seq<T>, b: seq<T>)
    requires NoDup(a) && NoDup(b)
    requires forall x :: x in a ==> x !in b
    ensures NoDup(a + b)
  {
    var s := a + b;
    forall i, j | 0 <= i < j < |s| ensures s[i] != s[j] {
      if j < |a| {
        assert s[i] == a[i] && s[j] == a[j];
      } else if i < |a| {
        assert s[i] in a && s[j] in b;
      } else {
        assert s[i] == b[i - |a|] && s[j] == b[j - |a|];
      }
    }
  }

  /** The JavaScript `Map`: iteration follows first insertion; overwriting keeps the position. */
  datatype OrderedMap<K(==,!new), V> = OrderedMap(order: seq<K>, items: map<K, V>) {

    ghost predicate WellFormed() {
      && NoDup(order)
      && (forall k :: k in order <==> k in items)
    }

    function Set(k: K, v: V): OrderedMap<K, V> {
      OrderedMap(if k in items then order else order + [k], items[k := v])
    }

    function Delete(k: K): OrderedMap<K, V> {
      if k in items then OrderedMap(Without(order, k), items - {k}) else this
    }
  }

  lemma SetKeepsWellFormed<K(!new), V>(m: OrderedMap<K, V>, k: K, v: V)
    requires m.WellFormed()
    ensures m.Set(k, v).WellFormed()
  {
    if k !in m.items {
      NoDupConcat(m.order, [k]);
    }
  }

  lemma DeleteKeepsWellFormed<K(!new), V>(m: OrderedMap<K, V>, k: K)
    requires m.WellFormed()
    ensures m.Delete(k).WellFormed()
    ensures |m.Delete(k).order| == |m.order| - (if k in m.items then 1 else 0)
  {
    WithoutKeepsNoDup(m.order, k);
  }
}

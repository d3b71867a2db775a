/**
 Python's `sorted` with a key. Its result is determined by two facts: keys do not decrease,
 and the items of any one key stand in their original order.
 */
module StableSort {

  // A sort key; Infinite is float("inf").
  datatype Key = Finite(value: real) | Infinite

  predicate Leq(a: Key, b: Key) {
    b.Infinite? || (a.Finite? && a.value <= b.value)
  }

  function Insert<T>(x: T, s: seq<T>, key: T -> Key): seq<T> {
    if s == [] || Leq(key(x), key(s[0])) then [x] + s else [s[0]] + Insert(x, s[1..], key)
  }

  function Sorted<T>(s: seq<T>, key: T -> Key): seq<T> {
    if s == [] then [] else Insert(s[0], Sorted(s[1..], key), key)
  }

  ghost predicate Ordered<T>(s: seq<T>, key: T -> Key) {
    forall i, j :: 0 <= i < j < |s| ==> Leq(key(s[i]), key(s[j]))
  }

  /** The items with one key, in order. */
  function WithKey<T>(s: seq<T>, key: T -> Key, k: Key): seq<T> {
    if s == [] then [] else (if key(s[0]) == k then [s[0]] else []) + WithKey(s[1..], key, k)
  }

  lemma {:induction false} InsertMembers<T>(x: T, s: seq<T>, key: T -> Key)
    ensures multiset(Insert(x, s, key)) == multiset(s) + multiset{x}
  {
    if s != [] && !Leq(key(x), key(s[0])) {
      InsertMembers(x, s[1..], key);
      assert s == [s[0]] + s[1..];
    }
  }

  lemma HeadFirst<T>(head: T, tail: seq<T>, key: T -> Key)
    requires Ordered(tail, key) && forall y :: y in tail ==> Leq(key(head), key(y))
    ensures Ordered([head] + tail, key)
  {
  }

  lemma {:induction false} InsertOrdered<T>(x: T, s: seq<T>, key: T -> Key)
    requires Ordered(s, key)
    ensures Ordered(Insert(x, s, key), key)
  {
    if s != [] {
      if Leq(key(x), key(s[0])) {
        forall y | y in s ensures Leq(key(x), key(y)) {}
        HeadFirst(x, s, key);
      } else {
        var rest := Insert(x, s[1..], key);
        InsertOrdered(x, s[1..], key);
        InsertMembers(x, s[1..], key);
        forall y | y in rest ensures Leq(key(s[0]), key(y)) {
          assert y in multiset(rest);
          if y != x { assert y in s[1..]; }
        }
        HeadFirst(s[0], rest, key);
      }
    }
  }

  lemma {:induction false} InsertKeepsClasses<T>(x: T, s: seq<T>, key: T -> Key, k: Key)
    ensures WithKey(Insert(x, s, key), key, k) == (if key(x) == k then [x] else []) + WithKey(s, key, k)
  {
    if s != [] && !Leq(key(x), key(s[0])) {
      InsertKeepsClasses(x, s[1..], key, k);
      assert Insert(x, s, key)[1..] == Insert(x, s[1..], key);
    } else {
      assert Insert(x, s, key)[1..] == s;
    }
  }

  lemma {:induction false} SortedOrdered<T>(s: seq<T>, key: T -> Key)
    ensures Ordered(Sorted(s, key), key)
    ensures multiset(Sorted(s, key)) == multiset(s)
  {
    if s != [] {
      SortedOrdered(s[1..], key);
      InsertOrdered(s[0], Sorted(s[1..], key), key);
      InsertMembers(s[0], Sorted(s[1..], key), key);
      assert s == [s[0]] + s[1..];
    }
  }

  lemma {:induction false} SortedStable<T>(s: seq<T>, key: T -> Key, k: Key)
    ensures WithKey(Sorted(s, key), key, k) == WithKey(s, key, k)
  {
    if s != [] {
      SortedStable(s[1..], key, k);
      InsertKeepsClasses(s[0], Sorted(s[1..], key), key, k);
    }
  }

  // ---------------------------------------------------------------- nothing else is possible

  ghost predicate SameClasses<T(!new)>(a: seq<T>, b: seq<T>, key: T -> Key) {
    forall k :: WithKey(a, key, k) == WithKey(b, key, k)
  }

  lemma {:induction false} WithKeyMember<T>(s: seq<T>, key: T -> Key, k: Key, i: nat)
    requires i < |WithKey(s, key, k)|
    ensures WithKey(s, key, k)[i] in s && key(WithKey(s, key, k)[i]) == k
  {
    if key(s[0]) != k {
      WithKeyMember(s[1..], key, k, i);
    } else if i > 0 {
      WithKeyMember(s[1..], key, k, i - 1);
    }
  }

  /** In an ordered sequence the first item has a smallest key and heads its class. */
  lemma SameHead<T(!new)>(a: seq<T>, b: seq<T>, key: T -> Key)
    requires Ordered(a, key) && Ordered(b, key) && SameClasses(a, b, key) && a != [] && b != []
    ensures a[0] == b[0]
  {
    var ka, kb := key(a[0]), key(b[0]);
    assert WithKey(a, key, ka)[0] == a[0] && WithKey(b, key, kb)[0] == b[0];
    assert WithKey(b, key, ka) == WithKey(a, key, ka) && WithKey(a, key, kb) == WithKey(b, key, kb);
    WithKeyMember(b, key, ka, 0);
    WithKeyMember(a, key, kb, 0);
    HeadLeast(a, key, WithKey(a, key, kb)[0]);
    HeadLeast(b, key, WithKey(b, key, ka)[0]);
    assert Leq(ka, kb) && Leq(kb, ka);
  }

  lemma HeadLeast<T>(s: seq<T>, key: T -> Key, x: T)
    requires Ordered(s, key) && x in s
    ensures Leq(key(s[0]), key(x))
  {
  }

  lemma SameNonempty<T(!new)>(a: seq<T>, b: seq<T>, key: T -> Key)
    requires SameClasses(a, b, key) && b != []
    ensures a != []
  {
    assert WithKey(a, key, key(b[0])) == WithKey(b, key, key(b[0])) != [];
  }

  lemma {:induction false} OrderedStableUnique<T(!new)>(a: seq<T>, b: seq<T>, key: T -> Key)
    requires Ordered(a, key) && Ordered(b, key) && SameClasses(a, b, key)
    ensures a == b
  {
    if b != [] { SameNonempty(a, b, key); }
    if a != [] {
      SameNonempty(b, a, key);
      SameHead(a, b, key);
      forall k ensures WithKey(a[1..], key, k) == WithKey(b[1..], key, k) {
        var head := if key(a[0]) == k then [a[0]] else [];
        assert WithKey(a, key, k) == head + WithKey(a[1..], key, k);
        assert WithKey(b, key, k) == head + WithKey(b[1..], key, k);
        assert WithKey(a[1..], key, k) == WithKey(a, key, k)[|head|..];
        assert WithKey(b[1..], key, k) == WithKey(b, key, k)[|head|..];
      }
      OrderedStableUnique(a[1..], b[1..], key);
      assert a == [a[0]] + a[1..] && b == [b[0]] + b[1..];
    }
  }

  /** Any ordered arrangement that keeps each key's items in order is the sorted one. */
  lemma SortedIsTheOnlyOne<T(!new)>(s: seq<T>, r: seq<T>, key: T -> Key)
    ensures Ordered(r, key) && SameClasses(r, s, key) <==> r == Sorted(s, key)
  {
    SortedOrdered(s, key);
    forall k ensures WithKey(Sorted(s, key), key, k) == WithKey(s, key, k) { SortedStable(s, key, k); }
    if Ordered(r, key) && SameClasses(r, s, key) {
      assert SameClasses(r, Sorted(s, key), key);
      OrderedStableUnique(r, Sorted(s, key), key);
    }
  }
}

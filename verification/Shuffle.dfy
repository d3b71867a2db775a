/**
 The Fisher-Yates shuffle of sthrip/privacy.py. The results of `secrets.randbelow` are an
 explicit sequence of draws, the first for the last position.
 */
module Shuffle {
  import opened Common

  /** randint over [low, high] from a draw of randbelow(high - low + 1). */
  function SecureRandInt(low: int, high: int, draw: nat): (r: Result<int, ()>)
    requires low <= high ==> draw < high - low + 1
    ensures r.Err? <==> high < low
    ensures r.Ok? ==> low <= r.value <= high && r.value - low == draw
  {
    if high < low then Err(()) else Ok(low + draw)
  }

  function Swap<T>(s: seq<T>, i: nat, j: nat): (r: seq<T>)
    requires i < |s| && j < |s|
    ensures |r| == |s|
  {
    seq(|s|, k requires 0 <= k < |s| => if k == i then s[j] else if k == j then s[i] else s[k])
  }

  /** One draw for each position n-1, ..., 1; the draw for position i is at most i. */
  ghost predicate ValidDraws(n: nat, draws: seq<nat>) {
    && |draws| == (if n == 0 then 0 else n - 1)
    && forall k :: 0 <= k < |draws| ==> draws[k] < n - k
  }

  /** What remains to be done to the first `n` elements. */
  function Shuffled<T>(s: seq<T>, n: nat, draws: seq<nat>): (r: seq<T>)
    requires n <= |s| && ValidDraws(n, draws)
    ensures |r| == |s|
    decreases n
  {
    if n <= 1 then s else Shuffled(Swap(s, n - 1, draws[0]), n - 1, draws[1..])
  }

  lemma SwapPermutes<T>(s: seq<T>, i: nat, j: nat)
    requires i < |s| && j < |s|
    ensures multiset(Swap(s, i, j)) == multiset(s)
  {
    assert Swap(s, i, j) == s[i := s[j]][j := s[i]];
  }

  lemma SwapDistinct<T>(s: seq<T>, i: nat, j: nat)
    requires i < |s| && j < |s| && Distinct(s)
    ensures Distinct(Swap(s, i, j))
  {
  }

  lemma {:induction false} ShuffledPermutes<T>(s: seq<T>, n: nat, draws: seq<nat>)
    requires n <= |s| && ValidDraws(n, draws)
    ensures multiset(Shuffled(s, n, draws)) == multiset(s)
    decreases n
  {
    if n > 1 {
      SwapPermutes(s, n - 1, draws[0]);
      ShuffledPermutes(Swap(s, n - 1, draws[0]), n - 1, draws[1..]);
    }
  }

  /** Positions from `n` on are never touched again. */
  lemma {:induction false} ShuffledKeepsTail<T>(s: seq<T>, n: nat, draws: seq<nat>)
    requires n <= |s| && ValidDraws(n, draws)
    ensures Shuffled(s, n, draws)[n..] == s[n..]
    decreases n
  {
    if n > 1 {
      var t := Swap(s, n - 1, draws[0]);
      ShuffledKeepsTail(t, n - 1, draws[1..]);
      var r := Shuffled(s, n, draws);
      assert r[n..] == r[n - 1..][1..] && t[n..] == t[n - 1..][1..];
      assert t[n..] == s[n..];
    }
  }

  /** The first draw decides the last of the first `n` positions. */
  lemma ShuffledLast<T>(s: seq<T>, n: nat, draws: seq<nat>)
    requires 1 < n <= |s| && ValidDraws(n, draws)
    ensures Shuffled(s, n, draws)[n - 1] == s[draws[0]]
  {
    var t := Swap(s, n - 1, draws[0]);
    ShuffledKeepsTail(t, n - 1, draws[1..]);
    assert Shuffled(s, n, draws)[n - 1] == Shuffled(s, n, draws)[n - 1..][0] == t[n - 1..][0];
  }

  /** Different draws give different orderings of distinct elements. */
  lemma {:induction false} DrawsOneToOne<T>(s: seq<T>, n: nat, a: seq<nat>, b: seq<nat>)
    requires n <= |s| && ValidDraws(n, a) && ValidDraws(n, b) && Distinct(s)
    requires Shuffled(s, n, a) == Shuffled(s, n, b)
    ensures a == b
    decreases n
  {
    if n > 1 {
      ShuffledLast(s, n, a);
      ShuffledLast(s, n, b);
      assert a[0] == b[0];
      SwapDistinct(s, n - 1, a[0]);
      DrawsOneToOne(Swap(s, n - 1, a[0]), n - 1, a[1..], b[1..]);
      assert a == [a[0]] + a[1..] && b == [b[0]] + b[1..];
    }
  }

  lemma FindInPrefix<T>(s: seq<T>, t: seq<T>, n: nat) returns (j: nat)
    requires 1 <= n <= |s| && |t| == |s| && multiset(s[..n]) == multiset(t[..n])
    ensures j < n && s[j] == t[n - 1]
  {
    assert t[n - 1] in t[..n];
    assert t[n - 1] in multiset(s[..n]);
    j :| 0 <= j < n && s[..n][j] == t[n - 1];
  }

  lemma SplitLast<T>(s: seq<T>)
    requires s != []
    ensures multiset(s[..|s| - 1]) == multiset(s) - multiset{s[|s| - 1]}
  {
    assert s == s[..|s| - 1] + [s[|s| - 1]];
  }

  lemma SameWithoutLast<T>(u: seq<T>, q: seq<T>)
    requires u != [] && |u| == |q| && u[|u| - 1] == q[|q| - 1] && multiset(u) == multiset(q)
    ensures multiset(u[..|u| - 1]) == multiset(q[..|q| - 1])
  {
    SplitLast(u);
    SplitLast(q);
  }

  lemma SwapOutLast<T>(p: seq<T>, q: seq<T>, j: nat)
    requires j < |p| == |q| && p[j] == q[|q| - 1] && multiset(p) == multiset(q)
    ensures multiset(Swap(p, |p| - 1, j)[..|p| - 1]) == multiset(q[..|q| - 1])
  {
    var u := Swap(p, |p| - 1, j);
    SwapPermutes(p, |p| - 1, j);
    SameWithoutLast(u, q);
  }

  lemma SwapPrefix<T>(s: seq<T>, t: seq<T>, n: nat, j: nat)
    requires j < n <= |s| == |t| && s[j] == t[n - 1] && multiset(s[..n]) == multiset(t[..n])
    ensures multiset(Swap(s, n - 1, j)[..n - 1]) == multiset(t[..n - 1])
  {
    SwapOutLast(s[..n], t[..n], j);
    assert Swap(s, n - 1, j)[..n - 1] == Swap(s[..n], n - 1, j)[..n - 1];
    assert t[..n][..n - 1] == t[..n - 1];
  }

  lemma SwapSuffix<T>(s: seq<T>, t: seq<T>, n: nat, j: nat)
    requires j < n <= |s| == |t| && s[j] == t[n - 1] && s[n..] == t[n..]
    ensures Swap(s, n - 1, j)[n - 1..] == t[n - 1..]
  {
    assert Swap(s, n - 1, j)[n - 1..] == [t[n - 1]] + s[n..] && t[n - 1..] == [t[n - 1]] + t[n..];
  }

  /** Every ordering of the elements is the result of some draws. */
  lemma {:induction false} DrawsOnto<T>(s: seq<T>, n: nat, t: seq<T>) returns (draws: seq<nat>)
    requires n <= |s| == |t| && multiset(s[..n]) == multiset(t[..n]) && s[n..] == t[n..]
    ensures ValidDraws(n, draws) && Shuffled(s, n, draws) == t
    decreases n
  {
    draws := [];
    if n == 1 {
      assert s[0] in multiset(t[..1]);
    }
    if n <= 1 {
      assert s == s[..n] + s[n..] && t == t[..n] + t[n..];
    } else {
      var j := FindInPrefix(s, t, n);
      SwapPrefix(s, t, n, j);
      SwapSuffix(s, t, n, j);
      var rest := DrawsOnto(Swap(s, n - 1, j), n - 1, t);
      draws := [j] + rest;
      assert draws[1..] == rest;
    }
  }

  /** The draws that leave every element in place. */
  function IdentityDraws(n: nat): (draws: seq<nat>)
    ensures ValidDraws(n, draws)
  {
    if n <= 1 then [] else [n - 1] + IdentityDraws(n - 1)
  }

  lemma {:induction false} IdentityShuffle<T>(s: seq<T>, n: nat)
    requires n <= |s|
    ensures Shuffled(s, n, IdentityDraws(n)) == s
    decreases n
  {
    if n > 1 {
      assert Swap(s, n - 1, n - 1) == s;
      assert IdentityDraws(n)[1..] == IdentityDraws(n - 1);
      IdentityShuffle(s, n - 1);
    }
  }

  /** Two equal elements make two different draw sequences give the same ordering. */
  lemma {:induction false} DuplicateMakesDrawsCollide<T>(s: seq<T>, n: nat, i: nat, j: nat) returns (draws: seq<nat>)
    requires i < j < n <= |s| && s[i] == s[j]
    ensures ValidDraws(n, draws) && draws != IdentityDraws(n)
    ensures Shuffled(s, n, draws) == s == Shuffled(s, n, IdentityDraws(n))
    decreases n
  {
    IdentityShuffle(s, n);
    var rest := IdentityDraws(n - 1);
    if j == n - 1 {
      assert Swap(s, n - 1, i) == s;
      IdentityShuffle(s, n - 1);
      draws := [i] + rest;
    } else {
      assert Swap(s, n - 1, n - 1) == s;
      rest := DuplicateMakesDrawsCollide(s, n - 1, i, j);
      draws := [n - 1] + rest;
    }
    assert draws[1..] == rest && IdentityDraws(n)[1..] == IdentityDraws(n - 1);
  }

  ghost predicate OneToOne<T(!new)>(s: seq<T>) {
    forall a, b | ValidDraws(|s|, a) && ValidDraws(|s|, b) && Shuffled(s, |s|, a) == Shuffled(s, |s|, b) :: a == b
  }

  /** Draws and orderings correspond one to one exactly when the input repeats nothing. */
  lemma OneToOneExactly<T(!new)>(s: seq<T>)
    ensures OneToOne(s) <==> Distinct(s)
  {
    if Distinct(s) {
      forall a, b | ValidDraws(|s|, a) && ValidDraws(|s|, b) && Shuffled(s, |s|, a) == Shuffled(s, |s|, b)
        ensures a == b
      {
        DrawsOneToOne(s, |s|, a, b);
      }
    } else {
      var i, j :| 0 <= i < j < |s| && s[i] == s[j];
      var draws := DuplicateMakesDrawsCollide(s, |s|, i, j);
    }
  }

  /** The orderings reachable from `s` are exactly its permutations. */
  lemma ReachesExactlyPermutations<T(!new)>(s: seq<T>, t: seq<T>)
    ensures (exists draws :: ValidDraws(|s|, draws) && Shuffled(s, |s|, draws) == t)
        <==> multiset(s) == multiset(t)
  {
    if multiset(s) == multiset(t) {
      assert |s| == |multiset(s)| == |t|;
      assert s[..|s|] == s && t[..|s|] == t;
      var draws := DrawsOnto(s, |s|, t);
    }
    forall draws | ValidDraws(|s|, draws) && Shuffled(s, |s|, draws) == t
      ensures multiset(s) == multiset(t)
    {
      ShuffledPermutes(s, |s|, draws);
    }
  }

  /** `_secure_shuffle`: copies the input, then swaps in place from the last position down. */
  method SecureShuffle<T>(input: array<T>, draws: seq<nat>) returns (out: array<T>)
    requires ValidDraws(input.Length, draws)
    ensures fresh(out) && input[..] == old(input[..])
    ensures out[..] == Shuffled(input[..], input.Length, draws)
  {
    out := new T[input.Length](i requires 0 <= i < input.Length reads input => input[i]);
    assert out[..] == input[..];
    if input.Length == 0 {
      return;
    }
    ghost var rest := draws;
    for i := input.Length downto 1
      invariant input[..] == old(input[..])
      invariant rest == draws[input.Length - i..]
      invariant ValidDraws(i, rest)
      invariant Shuffled(input[..], input.Length, draws) == Shuffled(out[..], i, rest)
    {
      var j := draws[input.Length - 1 - i];
      ghost var before := out[..];
      out[i], out[j] := out[j], out[i];
      assert out[..] == Swap(before, i, j);
      rest := rest[1..];
    }
  }
}

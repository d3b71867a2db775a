/**
 The arithmetic of a refetch-until-short batch loop. Only one thing about a row matters
 here: it is filled already, it can be filled, or it is an orphan that never will be and
 comes back in every fetch.
 */
module Batches {
  import opened Common

  datatype Kind = Filled | Fillable | Orphan

  function Min(a: nat, b: nat): nat {
    if a < b then a else b
  }

  function Count(ks: seq<Kind>, k: Kind): nat {
    if ks == [] then 0 else One(ks[0] == k) + Count(ks[1..], k)
  }

  lemma {:induction false} CountIsMultiplicity(ks: seq<Kind>, k: Kind)
    ensures Count(ks, k) == multiset(ks)[k]
  {
    if ks != [] {
      CountIsMultiplicity(ks[1..], k);
      assert ks == [ks[0]] + ks[1..];
    }
  }

  lemma {:induction false} NoneCountedExactly(ks: seq<Kind>, k: Kind)
    ensures Count(ks, k) == 0 <==> k !in ks
  {
    if ks != [] {
      NoneCountedExactly(ks[1..], k);
      assert ks == [ks[0]] + ks[1..];
    }
  }

  /** Rows without an envelope. */
  function Missing(ks: seq<Kind>): nat {
    Count(ks, Fillable) + Count(ks, Orphan)
  }

  /** Rows of kind `k` among the first `n` without an envelope. */
  function CountIn(ks: seq<Kind>, k: Kind, n: nat): nat {
    if ks == [] || n == 0 then 0
    else if ks[0] == Filled then CountIn(ks[1..], k, n)
    else One(ks[0] == k) + CountIn(ks[1..], k, n - 1)
  }

  /** One batch of `n` rows: its fillable rows become filled. */
  function Batch(ks: seq<Kind>, n: nat): (r: seq<Kind>)
    ensures |r| == |ks|
  {
    if ks == [] || n == 0 then ks
    else if ks[0] == Filled then [Filled] + Batch(ks[1..], n)
    else [if ks[0] == Fillable then Filled else ks[0]] + Batch(ks[1..], n - 1)
  }

  lemma {:induction false} BatchCounts(ks: seq<Kind>, n: nat)
    ensures Count(Batch(ks, n), Fillable) == Count(ks, Fillable) - CountIn(ks, Fillable, n)
    ensures Count(Batch(ks, n), Orphan) == Count(ks, Orphan)
  {
    if ks != [] && n > 0 {
      BatchCounts(ks[1..], n - One(ks[0] != Filled));
      assert Batch(ks, n)[1..] == Batch(ks[1..], n - One(ks[0] != Filled));
    }
  }

  lemma {:induction false} FetchSize(ks: seq<Kind>, n: nat)
    ensures CountIn(ks, Fillable, n) + CountIn(ks, Orphan, n) == Min(n, Missing(ks))
    ensures CountIn(ks, Orphan, n) <= Count(ks, Orphan)
  {
    if ks != [] && n > 0 { FetchSize(ks[1..], n - One(ks[0] != Filled)); }
  }

  lemma {:induction false} CountInAll(ks: seq<Kind>, k: Kind, n: nat)
    requires Missing(ks) <= n && k != Filled
    ensures CountIn(ks, k, n) == Count(ks, k)
  {
    if ks != [] && n > 0 { CountInAll(ks[1..], k, n - One(ks[0] != Filled)); }
  }

  lemma {:induction false} CountInGrows(ks: seq<Kind>, k: Kind, n: nat, m: nat)
    requires n <= m
    ensures CountIn(ks, k, n) <= CountIn(ks, k, m)
  {
    if ks != [] && n > 0 { CountInGrows(ks[1..], k, n - One(ks[0] != Filled), m - One(ks[0] != Filled)); }
  }

  /** Past a batch without orphans, the next rows are the ones that came right after it. */
  lemma {:induction false} OrphansAfterBatch(ks: seq<Kind>, size: nat, n: nat)
    requires CountIn(ks, Orphan, size) == 0 && size <= Missing(ks)
    ensures CountIn(Batch(ks, size), Orphan, n) == CountIn(ks, Orphan, size + n)
  {
    if ks != [] && size > 0 {
      var m := One(ks[0] != Filled);
      OrphansAfterBatch(ks[1..], size - m, n);
      assert Batch(ks, size)[1..] == Batch(ks[1..], size - m);
    }
  }

  /** The position of the m-th row without an envelope. */
  function Position(ks: seq<Kind>, m: nat): (i: nat)
    requires m < Missing(ks)
    ensures i < |ks| && ks[i] != Filled
  {
    if m == 0 && ks[0] != Filled then 0 else 1 + Position(ks[1..], m - One(ks[0] != Filled))
  }

  lemma {:induction false} CountInNext(ks: seq<Kind>, k: Kind, m: nat)
    requires m < Missing(ks)
    ensures CountIn(ks, k, m + 1) == CountIn(ks, k, m) + One(ks[Position(ks, m)] == k)
  {
    if m > 0 || ks[0] == Filled { CountInNext(ks[1..], k, m - One(ks[0] != Filled)); }
  }

  /** How many rows without an envelope come before position `i`. */
  function Rank(ks: seq<Kind>, i: nat): nat
    requires i <= |ks|
  {
    if i == 0 then 0 else One(ks[0] != Filled) + Rank(ks[1..], i - 1)
  }

  lemma {:induction false} RankOfPosition(ks: seq<Kind>, m: nat, i: nat)
    requires m < Missing(ks) && i < |ks| && ks[i] != Filled
    ensures Rank(ks, i) == m <==> i == Position(ks, m)
  {
    if (m == 0 && ks[0] != Filled) || i == 0 {
    } else {
      RankOfPosition(ks[1..], m - One(ks[0] != Filled), i - 1);
    }
  }

  lemma {:induction false} RankBelowMissing(ks: seq<Kind>, i: nat)
    requires i < |ks| && ks[i] != Filled
    ensures Rank(ks, i) < Missing(ks)
  {
    if i > 0 { RankBelowMissing(ks[1..], i - 1); }
  }

  lemma {:induction false} CountInAtMost(ks: seq<Kind>, k: Kind, n: nat)
    requires k != Filled
    ensures CountIn(ks, k, n) <= Count(ks, k)
  {
    if ks != [] && n > 0 { CountInAtMost(ks[1..], k, n - One(ks[0] != Filled)); }
  }

  /** Every row of a kind is among the first `n` missing ones. */
  ghost predicate Reaches(ks: seq<Kind>, k: Kind, n: nat) {
    forall i :: 0 <= i < |ks| && ks[i] == k ==> Rank(ks, i) < n
  }

  /** A fetch of `n` rows counts all rows of a kind exactly when each has fewer than `n` missing rows before it. */
  lemma {:induction false} CountsAllExactly(ks: seq<Kind>, k: Kind, n: nat)
    requires k != Filled
    ensures CountIn(ks, k, n) == Count(ks, k) <==> Reaches(ks, k, n)
  {
    if ks != [] {
      var rest, m := ks[1..], One(ks[0] != Filled);
      assert forall i :: 0 < i < |ks| ==> Rank(ks, i) == m + Rank(rest, i - 1) && ks[i] == rest[i - 1];
      if n >= m {
        CountsAllExactly(rest, k, n - m);
        CountInAtMost(rest, k, n - m);
        if Reaches(ks, k, n) {
          forall i | 0 <= i < |rest| && rest[i] == k ensures Rank(rest, i) < n - m { assert ks[i + 1] == k; }
        }
      } else {
        NoneCountedExactly(ks, k);
      }
    }
  }

  /** A batch changes exactly the fillable rows that come early enough. */
  lemma {:induction false} BatchAt(ks: seq<Kind>, n: nat, i: nat)
    requires i < |ks|
    ensures Batch(ks, n)[i] == if ks[i] == Fillable && Rank(ks, i) < n then Filled else ks[i]
  {
    if i > 0 && n > 0 {
      BatchAt(ks[1..], n - One(ks[0] != Filled), i - 1);
      assert Batch(ks, n)[1..] == Batch(ks[1..], n - One(ks[0] != Filled));
    }
  }

  // ---------------------------------------------------------------- the loop

  function AfterBatches(ks: seq<Kind>, size: nat, n: nat): seq<Kind> {
    if n == 0 then ks else Batch(AfterBatches(ks, size, n - 1), size)
  }

  /** The fetch after `n` batches is empty or short, which ends the loop. */
  ghost predicate EndsAt(ks: seq<Kind>, size: nat, n: nat) {
    var fetched := Min(size, Missing(AfterBatches(ks, size, n)));
    fetched == 0 || fetched < size
  }

  lemma {:induction false} OrphansStay(ks: seq<Kind>, size: nat, n: nat)
    ensures Count(AfterBatches(ks, size, n), Orphan) == Count(ks, Orphan)
  {
    if n > 0 {
      OrphansStay(ks, size, n - 1);
      BatchCounts(AfterBatches(ks, size, n - 1), size);
    }
  }

  /** While the loop goes on, `n` batches fill at least n·(size - orphans) rows. */
  lemma {:induction false} FullBatchesFill(ks: seq<Kind>, size: nat, n: nat)
    requires forall k :: 0 <= k < n ==> !EndsAt(ks, size, k)
    ensures Count(AfterBatches(ks, size, n), Fillable)
         <= Count(ks, Fillable) - n * (size - Count(ks, Orphan))
  {
    if n > 0 {
      var before := AfterBatches(ks, size, n - 1);
      FullBatchesFill(ks, size, n - 1);
      assert !EndsAt(ks, size, n - 1);
      OrphansStay(ks, size, n - 1);
      FetchSize(before, size);
      BatchCounts(before, size);
      Distribute(n, size - Count(ks, Orphan));
    }
  }

  lemma Distribute(n: nat, d: int)
    requires n > 0
    ensures n * d == (n - 1) * d + d
  {
  }

  lemma QuotientTooLarge(m: nat, d: nat)
    requires d > 0
    ensures m - (m / d + 1) * d < 0
  {
    assert m == m / d * d + m % d;
  }

  /** With fewer orphans than the batch size, at most M / (size - orphans) fetches are full. */
  lemma EndsInTime(ks: seq<Kind>, size: nat) returns (n: nat)
    requires Count(ks, Orphan) < size
    ensures EndsAt(ks, size, n)
    ensures n <= Count(ks, Fillable) / (size - Count(ks, Orphan))
  {
    var m, d := Count(ks, Fillable), size - Count(ks, Orphan);
    if k: nat :| k <= m / d && EndsAt(ks, size, k) {
      n := k;
    } else {
      FullBatchesFill(ks, size, m / d + 1);
      QuotientTooLarge(m, d);
      assert false;
    }
  }

  /** The loop ends exactly when a batch is empty or has room for more than the orphans. */
  lemma TerminatesExactly(ks: seq<Kind>, size: nat)
    ensures (exists n: nat :: EndsAt(ks, size, n)) <==> size == 0 || Count(ks, Orphan) < size
  {
    if Count(ks, Orphan) < size {
      var n := EndsInTime(ks, size);
    } else if size == 0 {
      assert EndsAt(ks, size, 0);
    }
    forall n: nat | EndsAt(ks, size, n)
      ensures size == 0 || Count(ks, Orphan) < size
    {
      OrphansStay(ks, size, n);
    }
  }

  /** A full batch leaves fewer rows to fill. */
  lemma FullBatchShrinks(ks: seq<Kind>, size: nat)
    requires Count(ks, Orphan) < size <= Missing(ks)
    ensures Count(Batch(ks, size), Fillable) < Count(ks, Fillable)
    ensures Count(Batch(ks, size), Orphan) < size
  {
    FetchSize(ks, size);
    BatchCounts(ks, size);
  }

  // ---------------------------------------------------------------- the counters

  /** Orphans met in full batches: each is met again in the last one. */
  function Recounted(ks: seq<Kind>, size: nat): nat
    requires Count(ks, Orphan) < size
    decreases Count(ks, Fillable)
  {
    if Missing(ks) < size then 0
    else
      FullBatchShrinks(ks, size);
      CountIn(ks, Orphan, size) + Recounted(Batch(ks, size), size)
  }

  /** How many of the rows without an envelope come in full batches. */
  function InFullBatches(missing: nat, size: nat): nat
    requires size > 0
  {
    if missing < size then 0 else size + InFullBatches(missing - size, size)
  }

  /**
   No orphan is counted twice exactly when the rows that fill whole batches hold no orphan,
   which can be read off the table before the run.
   */
  lemma {:induction false} RecountsNothingExactly(ks: seq<Kind>, size: nat)
    requires Count(ks, Orphan) < size
    ensures Recounted(ks, size) == 0 <==> CountIn(ks, Orphan, InFullBatches(Missing(ks), size)) == 0
    decreases Count(ks, Fillable)
  {
    if size <= Missing(ks) {
      FullBatchShrinks(ks, size);
      FetchSize(ks, size);
      BatchCounts(ks, size);
      var after := Batch(ks, size);
      var rest := InFullBatches(Missing(ks) - size, size);
      if CountIn(ks, Orphan, size) == 0 {
        RecountsNothingExactly(after, size);
        OrphansAfterBatch(ks, size, rest);
      } else {
        CountInGrows(ks, Orphan, size, size + rest);
      }
    }
  }
}

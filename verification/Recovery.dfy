/**
 One pass of the recovery loop (sthrip/services/withdrawal_recovery.py) over the withdrawals
 that stay pending too long: completed when some transfer of the wallet matches, marked for
 review otherwise. A transfer that was matched is not used up. Times are in seconds.
 */
module Recovery {
  import opened Common
  import opened Books

  const MAX_DELTA_SECONDS := 1800

  datatype Row = Row(address: string, amount: int, status: WithdrawalStatus, createdAt: int)

  datatype Transfer = Transfer(address: string, amount: int, timestamp: Option<int>)

  // No wallet service, a wallet that could not be asked, or its outgoing transfers.
  datatype Outgoing = NoWallet | Unavailable | Transfers(list: seq<Transfer>)

  // ---------------------------------------------------------------- matching

  predicate Near(a: int, b: int) {
    a - b <= MAX_DELTA_SECONDS && b - a <= MAX_DELTA_SECONDS
  }

  predicate Matches(row: Row, tx: Transfer) {
    && tx.address == row.address && tx.amount == row.amount
    && (tx.timestamp.Some? ==> Near(tx.timestamp.value, row.createdAt))
  }

  /** The first transfer that matches. */
  function FindMatch(row: Row, transfers: seq<Transfer>): (r: Option<nat>)
    ensures r.Some? ==> r.value < |transfers| && Matches(row, transfers[r.value])
    ensures forall k :: 0 <= k < |transfers| && (r.Some? ==> k < r.value) ==> !Matches(row, transfers[k])
  {
    if transfers == [] then None
    else
      var earlier := FindMatch(row, transfers[..|transfers| - 1]);
      if earlier.Some? then earlier
      else if Matches(row, transfers[|transfers| - 1]) then Some(|transfers| - 1)
      else None
  }

  method FindMatchingTransfer(row: Row, transfers: seq<Transfer>) returns (r: Option<nat>)
    ensures r == FindMatch(row, transfers)
  {
    for i := 0 to |transfers|
      invariant forall k :: 0 <= k < i ==> !Matches(row, transfers[k])
    {
      var tx := transfers[i];
      if tx.address == row.address && tx.amount == row.amount {
        if tx.timestamp.None? || Near(tx.timestamp.value, row.createdAt) {
          return Some(i);
        }
      }
    }
    r := None;
  }

  // ---------------------------------------------------------------- one pass

  predicate Stale(row: Row, cutoff: int) {
    row.status == Pending && row.createdAt < cutoff
  }

  function RecoveredRow(row: Row, cutoff: int, transfers: seq<Transfer>): Row {
    if !Stale(row, cutoff) then row
    else row.(status := if FindMatch(row, transfers).Some? then Completed else NeedsReview)
  }

  function Recovered(rows: seq<Row>, cutoff: int, transfers: seq<Transfer>): (r: seq<Row>)
    ensures |r| == |rows|
  {
    seq(|rows|, i requires 0 <= i < |rows| => RecoveredRow(rows[i], cutoff, transfers))
  }

  /** The address and the amount of the row, and a time within half an hour of the row's, if there is one. */
  ghost predicate IsFor(tx: Transfer, row: Row) {
    && tx.address == row.address && tx.amount == row.amount
    && (tx.timestamp.Some? ==> -1800 <= tx.timestamp.value - row.createdAt <= 1800)
  }

  /** A withdrawal pending since before the cutoff is completed or marked for review, any other stays as it is. */
  ghost predicate Settled(row: Row, after: Row, cutoff: int, transfers: seq<Transfer>) {
    if row.status == Pending && row.createdAt < cutoff
    then after == row.(status := if exists tx :: tx in transfers && IsFor(tx, row) then Completed else NeedsReview)
    else after == row
  }

  ghost predicate AllSettled(before: seq<Row>, after: seq<Row>, cutoff: int, transfers: seq<Transfer>) {
    |after| == |before| && forall i :: 0 <= i < |before| ==> Settled(before[i], after[i], cutoff, transfers)
  }

  lemma MatchExactly(row: Row, transfers: seq<Transfer>)
    ensures FindMatch(row, transfers).Some? <==> exists tx :: tx in transfers && IsFor(tx, row)
  {
    if tx :| tx in transfers && IsFor(tx, row) {
      var k :| 0 <= k < |transfers| && transfers[k] == tx;
      assert Matches(row, transfers[k]);
    }
    if FindMatch(row, transfers).Some? {
      assert transfers[FindMatch(row, transfers).value] in transfers;
    }
  }

  lemma RecoveredExactly(rows: seq<Row>, cutoff: int, transfers: seq<Transfer>)
    ensures AllSettled(rows, Recovered(rows, cutoff, transfers), cutoff, transfers)
  {
    forall i | 0 <= i < |rows| ensures Settled(rows[i], RecoveredRow(rows[i], cutoff, transfers), cutoff, transfers) {
      MatchExactly(rows[i], transfers);
    }
  }

  /** SELECT ... WHERE status = 'pending' AND created_at < cutoff, as positions. */
  function StaleRows(rows: seq<Row>, cutoff: int): (r: seq<nat>)
    ensures forall k :: 0 <= k < |r| ==> r[k] < |rows| && Stale(rows[r[k]], cutoff)
  {
    if rows == [] then []
    else
      StaleRows(rows[..|rows| - 1], cutoff) + if Stale(rows[|rows| - 1], cutoff) then [|rows| - 1] else []
  }

  lemma {:induction false} StaleRowsExactly(rows: seq<Row>, cutoff: int)
    ensures Distinct(StaleRows(rows, cutoff))
    ensures forall i :: 0 <= i < |rows| ==>
      (i in StaleRows(rows, cutoff) <==> rows[i].status == Pending && rows[i].createdAt < cutoff)
  {
    if rows != [] {
      var before := rows[..|rows| - 1];
      StaleRowsExactly(before, cutoff);
      assert forall i :: 0 <= i < |before| ==> before[i] == rows[i];
    }
  }

  /** The loop over the stale rows. */
  method SettleStale(rows: array<Row>, stale: seq<nat>, cutoff: int, transfers: seq<Transfer>) returns (recovered: nat)
    requires stale == StaleRows(rows[..], cutoff)
    modifies rows
    ensures rows[..] == Recovered(old(rows[..]), cutoff, transfers) && recovered == |stale|
  {
    ghost var before := rows[..];
    StaleRowsExactly(before, cutoff);
    recovered := 0;
    for k := 0 to |stale|
      invariant recovered == k
      invariant forall i :: 0 <= i < rows.Length ==>
        rows[i] == if i in stale[..k] then RecoveredRow(before[i], cutoff, transfers) else before[i]
    {
      assert stale[..k + 1] == stale[..k] + [stale[k]];
      assert stale[k] !in stale[..k];
      var tx := FindMatchingTransfer(rows[stale[k]], transfers);
      rows[stale[k]] := rows[stale[k]].(status := if tx.Some? then Completed else NeedsReview);
      recovered := recovered + 1;
    }
    assert stale[..|stale|] == stale;
  }

  lemma NoneStaleUnchanged(rows: seq<Row>, cutoff: int, transfers: seq<Transfer>)
    requires StaleRows(rows, cutoff) == []
    ensures Recovered(rows, cutoff, transfers) == rows
  {
    StaleRowsExactly(rows, cutoff);
  }

  /** The pass: stale rows are settled one way or the other, and no other row is touched. */
  method RecoverPending(rows: array<Row>, outgoing: Outgoing, cutoff: int) returns (recovered: nat)
    modifies rows
    ensures outgoing.Unavailable? ==> rows[..] == old(rows[..]) && recovered == 0
    ensures !outgoing.Unavailable? ==>
      var transfers := if outgoing.Transfers? then outgoing.list else [];
      && recovered == |StaleRows(old(rows[..]), cutoff)|
      && rows[..] == Recovered(old(rows[..]), cutoff, transfers)
      && AllSettled(old(rows[..]), rows[..], cutoff, transfers)
  {
    var stale := StaleRows(rows[..], cutoff);
    var transfers := if outgoing.Transfers? then outgoing.list else [];
    RecoveredExactly(rows[..], cutoff, transfers);
    if |stale| == 0 {
      NoneStaleUnchanged(rows[..], cutoff, transfers);
      return 0;
    }
    if outgoing.Unavailable? {
      return 0;
    }
    recovered := SettleStale(rows, stale, cutoff, transfers);
  }

  lemma {:induction false} NoneStale(rows: seq<Row>, cutoff: int)
    requires forall i :: 0 <= i < |rows| ==> !Stale(rows[i], cutoff)
    ensures StaleRows(rows, cutoff) == []
  {
    if rows != [] { NoneStale(rows[..|rows| - 1], cutoff); }
  }

  /** A second pass finds nothing left to settle. */
  lemma SecondPassFindsNothing(rows: seq<Row>, cutoff: int, transfers: seq<Transfer>)
    ensures StaleRows(Recovered(rows, cutoff, transfers), cutoff) == []
    ensures Recovered(Recovered(rows, cutoff, transfers), cutoff, transfers) == Recovered(rows, cutoff, transfers)
  {
    NoneStale(Recovered(rows, cutoff, transfers), cutoff);
  }

  // ---------------------------------------------------------------- what a completion rests on

  /** For each withdrawal that the pass completes, the transfer it was matched with. */
  function Behind(rows: seq<Row>, cutoff: int, transfers: seq<Transfer>): seq<nat> {
    if rows == [] then []
    else
      var last := rows[|rows| - 1];
      Behind(rows[..|rows| - 1], cutoff, transfers)
      + if Stale(last, cutoff) && FindMatch(last, transfers).Some? then [FindMatch(last, transfers).value] else []
  }

  predicate MatchedWith(row: Row, cutoff: int, transfers: seq<Transfer>, k: nat) {
    Stale(row, cutoff) && FindMatch(row, transfers) == Some(k)
  }

  lemma {:induction false} BehindExactly(rows: seq<Row>, cutoff: int, transfers: seq<Transfer>, k: nat)
    ensures k in Behind(rows, cutoff, transfers)
        <==> exists i :: 0 <= i < |rows| && MatchedWith(rows[i], cutoff, transfers, k)
  {
    if rows != [] {
      var before := rows[..|rows| - 1];
      BehindExactly(before, cutoff, transfers, k);
      assert forall i :: 0 <= i < |before| ==> before[i] == rows[i];
    }
  }

  function Completions(rows: seq<Row>): nat {
    if rows == [] then 0 else Completions(rows[..|rows| - 1]) + One(rows[|rows| - 1].status == Completed)
  }

  /** The pass adds one completed row for each entry of Behind. */
  lemma {:induction false} CompletionsAdded(rows: seq<Row>, cutoff: int, transfers: seq<Transfer>)
    ensures Completions(Recovered(rows, cutoff, transfers)) == Completions(rows) + |Behind(rows, cutoff, transfers)|
  {
    if rows != [] {
      var before := rows[..|rows| - 1];
      CompletionsAdded(before, cutoff, transfers);
      assert Recovered(rows, cutoff, transfers)[..|before|] == Recovered(before, cutoff, transfers);
    }
  }

  function Elements(s: seq<nat>): set<nat> {
    set k | k in s
  }

  lemma {:induction false} DistinctExactly(s: seq<nat>)
    ensures |Elements(s)| <= |s|
    ensures |Elements(s)| == |s| <==> Distinct(s)
  {
    if s != [] {
      var before, last := s[..|s| - 1], s[|s| - 1];
      DistinctExactly(before);
      assert s == before + [last];
      assert Elements(s) == Elements(before) + {last};
      if last in before {
        assert Elements(s) == Elements(before);
        var i :| 0 <= i < |before| && before[i] == last;
        assert s[i] == s[|before|];
      }
    }
  }

  ghost predicate Share(rows: seq<Row>, cutoff: int, transfers: seq<Transfer>, i: nat, j: nat)
    requires i < |rows| && j < |rows|
  {
    && Stale(rows[i], cutoff) && Stale(rows[j], cutoff)
    && FindMatch(rows[i], transfers).Some? && FindMatch(rows[i], transfers) == FindMatch(rows[j], transfers)
  }

  ghost predicate SharesEarlier(rows: seq<Row>, cutoff: int, transfers: seq<Transfer>, n: nat)
    requires n < |rows|
  {
    exists i :: 0 <= i < n && Share(rows, cutoff, transfers, i, n)
  }

  ghost predicate SomeShare(rows: seq<Row>, cutoff: int, transfers: seq<Transfer>) {
    exists i, j :: 0 <= i < j < |rows| && Share(rows, cutoff, transfers, i, j)
  }

  lemma {:induction false} BehindDistinctExactly(rows: seq<Row>, cutoff: int, transfers: seq<Transfer>)
    ensures Distinct(Behind(rows, cutoff, transfers)) <==> !SomeShare(rows, cutoff, transfers)
  {
    if rows != [] {
      var before, n := rows[..|rows| - 1], |rows| - 1;
      BehindDistinctExactly(before, cutoff, transfers);
      assert forall i :: 0 <= i < n ==> before[i] == rows[i];
      if SomeShare(before, cutoff, transfers) {
        var i, j :| 0 <= i < j < n && Share(before, cutoff, transfers, i, j);
        assert Share(rows, cutoff, transfers, i, j);
      }
      if SomeShare(rows, cutoff, transfers) {
        var i, j :| 0 <= i < j < |rows| && Share(rows, cutoff, transfers, i, j);
        if j < n { assert Share(before, cutoff, transfers, i, j); }
      }
      LastShares(rows, cutoff, transfers);
    }
  }

  /** The last row repeats a transfer exactly when it shares it with an earlier row. */
  lemma LastShares(rows: seq<Row>, cutoff: int, transfers: seq<Transfer>)
    requires rows != []
    ensures var before, list := Behind(rows[..|rows| - 1], cutoff, transfers), Behind(rows, cutoff, transfers);
      Distinct(list) <==> Distinct(before) && !SharesEarlier(rows, cutoff, transfers, |rows| - 1)
  {
    var n := |rows| - 1;
    var before, last := Behind(rows[..n], cutoff, transfers), FindMatch(rows[n], transfers);
    if Stale(rows[n], cutoff) && last.Some? {
      BehindExactly(rows[..n], cutoff, transfers, last.value);
      DistinctSnoc(before, last.value);
      if i :| 0 <= i < n && Share(rows, cutoff, transfers, i, n) {
        assert MatchedWith(rows[..n][i], cutoff, transfers, last.value);
      }
      if last.value in before {
        var i :| 0 <= i < n && MatchedWith(rows[..n][i], cutoff, transfers, last.value);
        assert Share(rows, cutoff, transfers, i, n);
      }
    } else {
      assert before + [] == before;
    }
  }

  lemma DistinctSnoc(s: seq<nat>, k: nat)
    ensures Distinct(s + [k]) <==> Distinct(s) && k !in s
  {
    var t := s + [k];
    if Distinct(t) {
      forall i, j | 0 <= i < j < |s| ensures s[i] != s[j] { assert t[i] != t[j]; }
      forall i | 0 <= i < |s| ensures s[i] != k { assert t[i] != t[|s|]; }
    }
  }

  /**
   A pass completes more withdrawals than there are transfers behind them exactly when two
   stale withdrawals find the same transfer first.
   */
  lemma OverclaimsExactly(rows: seq<Row>, cutoff: int, transfers: seq<Transfer>)
    ensures Completions(Recovered(rows, cutoff, transfers)) - Completions(rows)
              > |Elements(Behind(rows, cutoff, transfers))|
        <==> SomeShare(rows, cutoff, transfers)
  {
    CompletionsAdded(rows, cutoff, transfers);
    DistinctExactly(Behind(rows, cutoff, transfers));
    BehindDistinctExactly(rows, cutoff, transfers);
  }

  /** Only withdrawals of one amount to one address can share a transfer. */
  lemma SharersAreTwins(rows: seq<Row>, cutoff: int, transfers: seq<Transfer>, i: nat, j: nat)
    requires i < |rows| && j < |rows| && Share(rows, cutoff, transfers, i, j)
    ensures rows[i].address == rows[j].address && rows[i].amount == rows[j].amount
    ensures FindMatch(rows[i], transfers).value < |transfers|
  {
  }

  /** Two withdrawals of one coin to one address, one transfer: both are completed. */
  lemma OneTransferCompletesTwo() returns (rows: seq<Row>, transfers: seq<Transfer>)
    ensures |rows| == 2 && |transfers| == 1 && forall i :: 0 <= i < 2 ==> rows[i].status == Pending
    ensures forall i :: 0 <= i < 2 ==> Recovered(rows, 1, transfers)[i].status == Completed
    ensures SomeShare(rows, 1, transfers)
  {
    var row := Row("address", 1, Pending, 0);
    rows, transfers := [row, row], [Transfer("address", 1, None)];
    assert Matches(row, transfers[0]);
    assert FindMatch(row, transfers) == Some(0);
    assert Share(rows, 1, transfers, 0, 1);
  }
}

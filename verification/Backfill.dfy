/**
 The payment-envelope backfill of scripts/backfill_payment_envelope.py: refetch the rows
 whose envelope is NULL, fill them in place, commit, until a fetch comes back short. A table
 is an array of rows in primary-key order; an encrypted envelope is represented by what it
 encrypts.
 */
module Backfill {
  import opened Common
  import opened Batches

  type Agent = string

  datatype Table = Transactions | EscrowDeals | EscrowMilestones | MessageRelays

  datatype Envelope = Envelope(
    fromId: Option<Agent>, toId: Option<Agent>, amount: Option<int>, description: Option<string>)

  // The columns the table specifications name: participants, amount and description.
  datatype Row = Row(
    escrowId: Option<int>, fromId: Option<Agent>, toId: Option<Agent>,
    amount: Option<int>, description: Option<string>, envelope: Option<Envelope>)

  type Participants = (Option<Agent>, Option<Agent>)
  type Parents = map<int, Participants>

  datatype Stats = Stats(processed: nat, skipped: nat)

  // ---------------------------------------------------------------- one row

  function ParentOf(parents: Parents, row: Row): Option<Participants> {
    if row.escrowId.Some? && row.escrowId.value in parents then Some(parents[row.escrowId.value]) else None
  }

  /** Who pays whom: a milestone takes both from its parent escrow, if it has one. */
  function ParticipantsOf(table: Table, parents: Parents, row: Row): Option<Participants> {
    if table == EscrowMilestones then ParentOf(parents, row) else Some((row.fromId, row.toId))
  }

  /** Message relays carry no amount. */
  function EnvelopeFor(table: Table, row: Row, who: Participants): Envelope {
    Envelope(who.0, who.1, if table == MessageRelays then None else row.amount, row.description)
  }

  function KindOf(table: Table, parents: Parents, row: Row): Kind {
    if row.envelope.Some? then Filled
    else if ParticipantsOf(table, parents, row).Some? then Fillable
    else Orphan
  }

  function FilledRow(table: Table, parents: Parents, row: Row): (r: Row)
    ensures r == row <==> KindOf(table, parents, row) != Fillable
    ensures KindOf(table, parents, r) == if KindOf(table, parents, row) == Orphan then Orphan else Filled
    ensures r == row.(envelope := r.envelope)
    ensures row.envelope.Some? ==> r.envelope == row.envelope
    ensures row.envelope.None? && table == EscrowMilestones && row.escrowId.Some? && row.escrowId.value in parents ==>
      var (buyer, seller) := parents[row.escrowId.value];
      r.envelope == Some(Envelope(buyer, seller, row.amount, row.description))
    ensures table == EscrowMilestones && (row.escrowId.None? || row.escrowId.value !in parents) ==> r == row
    ensures row.envelope.None? && table == MessageRelays ==>
      r.envelope == Some(Envelope(row.fromId, row.toId, None, row.description))
    ensures row.envelope.None? && table in {Transactions, EscrowDeals} ==>
      r.envelope == Some(Envelope(row.fromId, row.toId, row.amount, row.description))
  {
    if KindOf(table, parents, row) == Fillable
    then row.(envelope := Some(EnvelopeFor(table, row, ParticipantsOf(table, parents, row).value)))
    else row
  }

  /** An orphan is a milestone without an envelope whose escrow is not there; all other empty rows can be filled. */
  lemma KindExactly(table: Table, parents: Parents, row: Row)
    ensures var alone := table == EscrowMilestones && (row.escrowId.None? || row.escrowId.value !in parents);
      && (KindOf(table, parents, row) == Filled <==> row.envelope.Some?)
      && (KindOf(table, parents, row) == Orphan <==> row.envelope.None? && alone)
      && (KindOf(table, parents, row) == Fillable <==> row.envelope.None? && !alone)
  {
  }

  // ---------------------------------------------------------------- whole tables

  function Kinds(table: Table, parents: Parents, rows: seq<Row>): (ks: seq<Kind>)
    ensures |ks| == |rows|
  {
    seq(|rows|, i requires 0 <= i < |rows| => KindOf(table, parents, rows[i]))
  }

  function FillAll(table: Table, parents: Parents, rows: seq<Row>): (r: seq<Row>)
    ensures |r| == |rows|
  {
    seq(|rows|, i requires 0 <= i < |rows| => FilledRow(table, parents, rows[i]))
  }

  /** The first `n` rows without an envelope are filled where possible. */
  function FillFirst(table: Table, parents: Parents, rows: seq<Row>, n: nat): (r: seq<Row>)
    ensures |r| == |rows|
  {
    var ks := Kinds(table, parents, rows);
    seq(|rows|, i requires 0 <= i < |rows| => if Rank(ks, i) < n then FilledRow(table, parents, rows[i]) else rows[i])
  }

  /** Every milestone without an envelope has the buyer and the seller of its escrow in it, if that is there. */
  ghost predicate MilestonesPaired(deals: Parents, before: seq<Row>, after: seq<Row>) {
    && |after| == |before|
    && forall i :: 0 <= i < |before| ==>
         var row := before[i];
         if row.envelope.Some? || row.escrowId.None? || row.escrowId.value !in deals then after[i] == row
         else
           var (buyer, seller) := deals[row.escrowId.value];
           after[i] == row.(envelope := Some(Envelope(buyer, seller, row.amount, row.description)))
  }

  lemma FillAllPairs(deals: Parents, rows: seq<Row>)
    ensures MilestonesPaired(deals, rows, FillAll(EscrowMilestones, deals, rows))
  {
  }

  lemma FillFirstIsBatch(table: Table, parents: Parents, rows: seq<Row>, n: nat)
    ensures Kinds(table, parents, FillFirst(table, parents, rows, n)) == Batch(Kinds(table, parents, rows), n)
  {
    var ks, after := Kinds(table, parents, rows), Kinds(table, parents, FillFirst(table, parents, rows, n));
    forall i | 0 <= i < |rows| ensures after[i] == Batch(ks, n)[i] {
      BatchAt(ks, n, i);
    }
  }

  lemma FillFirstThenAll(table: Table, parents: Parents, rows: seq<Row>, n: nat)
    ensures FillAll(table, parents, FillFirst(table, parents, rows, n)) == FillAll(table, parents, rows)
  {
  }

  /** A table with nothing left to fill is its own completion. */
  lemma NothingLeftExactly(table: Table, parents: Parents, rows: seq<Row>)
    ensures Count(Kinds(table, parents, rows), Fillable) == 0 <==> FillAll(table, parents, rows) == rows
  {
    var ks := Kinds(table, parents, rows);
    NoneCountedExactly(ks, Fillable);
    if Fillable in ks {
      var i :| 0 <= i < |rows| && ks[i] == Fillable;
      assert FillAll(table, parents, rows)[i] != rows[i];
    } else {
      forall i | 0 <= i < |rows| ensures FillAll(table, parents, rows)[i] == rows[i] {
        assert ks[i] != Fillable;
      }
    }
  }

  /** After a complete run no row is fillable: a second run processes nothing. */
  lemma SecondRunProcessesNothing(table: Table, parents: Parents, rows: seq<Row>)
    ensures Count(Kinds(table, parents, FillAll(table, parents, rows)), Fillable) == 0
  {
    var all := FillAll(table, parents, rows);
    assert FillAll(table, parents, all) == all;
    NothingLeftExactly(table, parents, all);
  }

  /** The rows after `n` committed batches. */
  function RowsAfter(table: Table, parents: Parents, rows: seq<Row>, size: nat, n: nat): (r: seq<Row>)
    ensures |r| == |rows|
  {
    if n == 0 then rows else FillFirst(table, parents, RowsAfter(table, parents, rows, size, n - 1), size)
  }

  /** A run that fails between batches loses nothing: completing it later gives the same table. */
  lemma {:induction false} InterruptedRunResumes(table: Table, parents: Parents, rows: seq<Row>, size: nat, n: nat)
    ensures FillAll(table, parents, RowsAfter(table, parents, rows, size, n)) == FillAll(table, parents, rows)
    ensures Kinds(table, parents, RowsAfter(table, parents, rows, size, n))
         == AfterBatches(Kinds(table, parents, rows), size, n)
  {
    if n > 0 {
      InterruptedRunResumes(table, parents, rows, size, n - 1);
      FillFirstThenAll(table, parents, RowsAfter(table, parents, rows, size, n - 1), size);
      FillFirstIsBatch(table, parents, RowsAfter(table, parents, rows, size, n - 1), size);
    }
  }

  /**
   A dry run stops after one fetch: its count is the real one exactly when every fillable row
   has fewer than `size` rows without an envelope before it.
   */
  lemma DryRunReportsExactly(table: Table, parents: Parents, rows: seq<Row>, size: nat)
    ensures CountIn(Kinds(table, parents, rows), Fillable, size) == Count(Kinds(table, parents, rows), Fillable)
        <==> forall i :: 0 <= i < |rows| && KindOf(table, parents, rows[i]) == Fillable ==>
               Rank(Kinds(table, parents, rows), i) < size
  {
    var ks := Kinds(table, parents, rows);
    CountsAllExactly(ks, Fillable, size);
    assert forall i :: 0 <= i < |rows| ==> ks[i] == KindOf(table, parents, rows[i]);
  }

  // ---------------------------------------------------------------- the program

  /** Filling one more row of the batch in place: the next one has not been touched yet. */
  lemma FillNext(table: Table, parents: Parents, rows: seq<Row>, m: nat, p: nat)
    requires m < Missing(Kinds(table, parents, rows)) && p == Position(Kinds(table, parents, rows), m)
    ensures FillFirst(table, parents, rows, m)[p] == rows[p]
    ensures FillFirst(table, parents, rows, m + 1)
         == FillFirst(table, parents, rows, m)[p := FilledRow(table, parents, rows[p])]
  {
    var ks := Kinds(table, parents, rows);
    forall i | 0 <= i < |rows| && Rank(ks, i) == m && i != p
      ensures FilledRow(table, parents, rows[i]) == rows[i]
    {
      if ks[i] != Filled { RankOfPosition(ks, m, i); }
    }
    RankOfPosition(ks, m, p);
  }

  /** A batch with room for every missing row completes the table. */
  lemma LargeBatchFillsAll(table: Table, parents: Parents, rows: seq<Row>, n: nat)
    requires Missing(Kinds(table, parents, rows)) <= n
    ensures FillFirst(table, parents, rows, n) == FillAll(table, parents, rows)
  {
    var ks := Kinds(table, parents, rows);
    forall i | 0 <= i < |rows| && ks[i] != Filled ensures Rank(ks, i) < n {
      RankBelowMissing(ks, i);
    }
  }

  /** SELECT ... WHERE participant_envelope IS NULL ORDER BY id LIMIT size, as positions. */
  function Fetch(ks: seq<Kind>, size: nat): (batch: seq<nat>)
    ensures |batch| == Min(size, Missing(ks))
    ensures forall m :: 0 <= m < |batch| ==> batch[m] == Position(ks, m)
  {
    seq(Min(size, Missing(ks)), m requires 0 <= m < Min(size, Missing(ks)) => Position(ks, m))
  }

  /** One query for the parents of a whole batch of milestones. */
  function ResolveMilestoneParents(deals: Parents, batch: seq<Row>): (parents: Parents)
    ensures forall row :: row in batch ==> ParentOf(parents, row) == ParentOf(deals, row)
    ensures parents.Keys <= deals.Keys
  {
    var ids := set row | row in batch && row.escrowId.Some? :: row.escrowId.value;
    map id | id in ids && id in deals :: deals[id]
  }

  function ParentMap(table: Table, deals: Parents, batch: seq<Row>): (parents: Parents)
    ensures forall row :: row in batch ==> ParticipantsOf(table, parents, row) == ParticipantsOf(table, deals, row)
  {
    if table == EscrowMilestones then ResolveMilestoneParents(deals, batch) else map[]
  }

  method BackfillRow(table: Table, rows: array<Row>, i: nat, parents: Parents, dryRun: bool) returns (mutated: bool)
    requires i < rows.Length
    modifies rows
    ensures mutated <==> KindOf(table, parents, old(rows[i])) == Fillable
    ensures rows[..] == if dryRun then old(rows[..]) else old(rows[..])[i := FilledRow(table, parents, old(rows[i]))]
  {
    if rows[i].envelope.Some? {
      return false;
    }
    var who := ParticipantsOf(table, parents, rows[i]);
    if who == None {
      return false;
    }
    if !dryRun {
      rows[i] := rows[i].(envelope := Some(EnvelopeFor(table, rows[i], who.value)));
    }
    mutated := true;
  }

  lemma SameParticipants(table: Table, parents: Parents, deals: Parents, row: Row)
    requires ParticipantsOf(table, parents, row) == ParticipantsOf(table, deals, row)
    ensures KindOf(table, parents, row) == KindOf(table, deals, row)
    ensures FilledRow(table, parents, row) == FilledRow(table, deals, row)
  {
  }

  lemma FetchedIsBatch(table: Table, parents: Parents, rows: seq<Row>, size: nat, n: nat)
    requires n == Min(size, Missing(Kinds(table, parents, rows)))
    ensures FillFirst(table, parents, rows, n) == FillFirst(table, parents, rows, size)
    ensures CountIn(Kinds(table, parents, rows), Fillable, n) == CountIn(Kinds(table, parents, rows), Fillable, size)
    ensures CountIn(Kinds(table, parents, rows), Orphan, n) == CountIn(Kinds(table, parents, rows), Orphan, size)
  {
    if n < size {
      var ks := Kinds(table, parents, rows);
      LargeBatchFillsAll(table, parents, rows, size);
      LargeBatchFillsAll(table, parents, rows, n);
      CountInAll(ks, Fillable, size);
      CountInAll(ks, Orphan, size);
      CountInAll(ks, Fillable, n);
      CountInAll(ks, Orphan, n);
    }
  }

  /** One pass of the loop body over a fetched batch. */
  method BackfillBatch(table: Table, rows: array<Row>, deals: Parents, size: nat, dryRun: bool) returns (stats: Stats)
    modifies rows
    ensures rows[..] == if dryRun then old(rows[..]) else FillFirst(table, deals, old(rows[..]), size)
    ensures stats.processed == CountIn(Kinds(table, deals, old(rows[..])), Fillable, size)
    ensures stats.skipped == CountIn(Kinds(table, deals, old(rows[..])), Orphan, size)
  {
    ghost var before := rows[..];
    var ks := Kinds(table, deals, rows[..]);
    var batch := Fetch(ks, size);
    var fetched := seq(|batch|, m requires 0 <= m < |batch| reads rows => rows[batch[m]]);
    var parents := ParentMap(table, deals, fetched);
    var processed, skipped := 0, 0;
    for m := 0 to |batch|
      invariant rows[..] == if dryRun then before else FillFirst(table, deals, before, m)
      invariant processed == CountIn(ks, Fillable, m)
      invariant skipped == CountIn(ks, Orphan, m)
    {
      FillNext(table, deals, before, m, batch[m]);
      CountInNext(ks, Fillable, m);
      CountInNext(ks, Orphan, m);
      assert rows[batch[m]] == rows[..][batch[m]] == before[batch[m]] == fetched[m];
      SameParticipants(table, parents, deals, fetched[m]);
      var mutated := BackfillRow(table, rows, batch[m], parents, dryRun);
      if mutated {
        processed := processed + 1;
      } else {
        skipped := skipped + 1;
      }
    }
    FetchedIsBatch(table, deals, before, size, |batch|);
    stats := Stats(processed, skipped);
  }

  /** Orphans met over a whole run: all of them at the end, some of them before as well. */
  function SkippedBy(ks: seq<Kind>, size: nat): nat
    requires Count(ks, Orphan) < size
  {
    Count(ks, Orphan) + Recounted(ks, size)
  }

  /**
   The loop. Its precondition is the exact condition under which the program's loop ends
   (Batches.TerminatesExactly): a dry run, an empty batch, or more room than orphans.
   */
  method BackfillTable(table: Table, rows: array<Row>, deals: Parents, size: nat, dryRun: bool) returns (stats: Stats)
    requires dryRun || size == 0 || Count(Kinds(table, deals, rows[..]), Orphan) < size
    modifies rows
    ensures dryRun || size == 0 ==> rows[..] == old(rows[..])
    ensures dryRun ==>
      && stats.processed == CountIn(Kinds(table, deals, old(rows[..])), Fillable, size)
      && stats.skipped == CountIn(Kinds(table, deals, old(rows[..])), Orphan, size)
    ensures !dryRun && size > 0 ==>
      && rows[..] == FillAll(table, deals, old(rows[..]))
      && stats.processed == Count(Kinds(table, deals, old(rows[..])), Fillable)
      && stats.skipped == SkippedBy(Kinds(table, deals, old(rows[..])), size)
    ensures !dryRun && size > 0 && table == EscrowMilestones ==> MilestonesPaired(deals, old(rows[..]), rows[..])
    ensures size == 0 ==> stats == Stats(0, 0)
  {
    stats := Stats(0, 0);
    if size == 0 {
      return;
    }
    ghost var before := rows[..];
    FillAllPairs(deals, before);
    while true
      invariant dryRun ==> rows[..] == before && stats == Stats(0, 0)
      invariant !dryRun ==>
        && Count(Kinds(table, deals, rows[..]), Orphan) == Count(Kinds(table, deals, before), Orphan) < size
        && FillAll(table, deals, rows[..]) == FillAll(table, deals, before)
        && stats.processed + Count(Kinds(table, deals, rows[..]), Fillable)
             == Count(Kinds(table, deals, before), Fillable)
        && stats.skipped + Recounted(Kinds(table, deals, rows[..]), size)
             == Recounted(Kinds(table, deals, before), size)
      decreases Count(Kinds(table, deals, rows[..]), Fillable)
    {
      ghost var ks := Kinds(table, deals, rows[..]);
      var fetched := |Fetch(Kinds(table, deals, rows[..]), size)|;
      ghost var was := rows[..];
      if !dryRun {
        FillFirstIsBatch(table, deals, was, size);
        FillFirstThenAll(table, deals, was, size);
        BatchCounts(ks, size);
      }
      FetchSize(ks, size);
      if fetched == 0 {
        NothingLeftExactly(table, deals, rows[..]);
        break;
      }
      var batch := BackfillBatch(table, rows, deals, size, dryRun);
      stats := Stats(stats.processed + batch.processed, stats.skipped + batch.skipped);
      if dryRun {
        break;
      }
      if fetched < size {
        LargeBatchFillsAll(table, deals, was, size);
        CountInAll(ks, Fillable, size);
        CountInAll(ks, Orphan, size);
        break;
      }
    }
  }
}

/**
 At most one effect per idempotency key: when it holds, when it does not, and what a replay
 is told.
 */
module RequestOnce {
  import opened Common
  import opened Books
  import opened Wallet
  import opened Requests
  import opened RequestSafety

  predicate Of(a: Attempt, slot: Slot) {
    SlotOf(a) == Some(slot)
  }

  ghost predicate AtMostOne(effects: seq<Effect>, slot: Slot) {
    forall i, j :: 0 <= i < j < |effects| ==> effects[i].slot != Some(slot) || effects[j].slot != Some(slot)
  }

  ghost predicate NoneReserved(s: State, slot: Slot) {
    forall a :: a in s.attempts && Of(s.attempts[a], slot) ==> s.attempts[a].phase != Reserved
  }

  ghost predicate Once(s: State, slot: Slot) {
    AtMostOne(s.effects, slot) && (slot in s.db.idem ==> NoneReserved(s, slot))
  }

  /** At most one attempt is between its look at the database and its transaction. */
  ghost predicate Alone(s: State, slot: Slot) {
    forall a, b ::
      && a in s.attempts && Of(s.attempts[a], slot) && s.attempts[a].phase == Reserved
      && b in s.attempts && Of(s.attempts[b], slot) && s.attempts[b].phase == Reserved
      ==> a == b
  }

  ghost predicate AtMostOneLive(s: State, slot: Slot) {
    forall a, b ::
      && a in s.attempts && Of(s.attempts[a], slot) && Live(s.attempts[a].phase)
      && b in s.attempts && Of(s.attempts[b], slot) && Live(s.attempts[b].phase)
      ==> a == b
  }

  ghost predicate NoneLive(s: State, slot: Slot) {
    forall a :: a in s.attempts && Of(s.attempts[a], slot) ==> !Live(s.attempts[a].phase)
  }

  // ---------------------------------------------------------------- what a step can do

  /** A step moves one attempt; it never revives an ended one. */
  ghost predicate MovesOnly(s: State, t: State, aid: nat)
    requires aid in s.attempts
  {
    && aid in t.attempts
    && t.attempts == s.attempts[aid := s.attempts[aid].(phase := t.attempts[aid].phase)]
    && (Live(t.attempts[aid].phase) ==> Live(s.attempts[aid].phase))
  }

  /** A key is only newly reserved when the database has no row for it. */
  ghost predicate ReservesFresh(s: State, t: State, aid: nat)
    requires aid in s.attempts && aid in t.attempts
  {
    (t.attempts[aid].phase == Reserved && s.attempts[aid].phase != Reserved)
    ==> (SlotOf(s.attempts[aid]).None? || SlotOf(s.attempts[aid]).value !in s.db.idem)
  }

  ghost predicate Commits(s: State, t: State, step: Step) {
    && step.RunTransaction? && step.aid in s.attempts && step.aid in t.attempts
    && s.attempts[step.aid].phase == Reserved && t.attempts[step.aid].phase != Reserved
    && t.effects == s.effects + [EffectOf(s, step.aid, s.attempts[step.aid])]
  }

  ghost predicate CommitsNothing(s: State, t: State) {
    t.effects == s.effects && t.db.idem.Keys == s.db.idem.Keys
  }

  lemma FrontStepMoves(s: State, step: Step)
    requires OfAttempt(step) && step.aid in s.attempts && !AfterDebit(step)
    ensures MovesOnly(s, Next(s, step), step.aid)
  {
  }

  lemma BackStepMoves(s: State, step: Step)
    requires AfterDebit(step) && step.aid in s.attempts
    ensures MovesOnly(s, Next(s, step), step.aid)
  {
  }

  lemma StepMoves(s: State, step: Step)
    requires OfAttempt(step) && step.aid in s.attempts
    ensures MovesOnly(s, Next(s, step), step.aid)
  {
    if AfterDebit(step) { BackStepMoves(s, step); } else { FrontStepMoves(s, step); }
  }

  lemma StepReserves(s: State, step: Step)
    requires OfAttempt(step) && step.aid in s.attempts
    ensures step.aid in Next(s, step).attempts && ReservesFresh(s, Next(s, step), step.aid)
  {
  }

  lemma TransactionCommits(s: State, step: Step)
    requires step.RunTransaction? && step.aid in s.attempts && s.attempts[step.aid].phase == Reserved
    ensures Commits(s, Next(s, step), step) || CommitsNothing(s, Next(s, step))
  {
  }

  lemma StepCommits(s: State, step: Step)
    requires Inv(s) && OfAttempt(step) && step.aid in s.attempts
    ensures Commits(s, Next(s, step), step) || CommitsNothing(s, Next(s, step))
  {
    var a := s.attempts[step.aid];
    if step.RunTransaction? && a.phase == Reserved {
      TransactionCommits(s, step);
    } else if step.StoreFinal? && a.phase.Settled? {
      FinalCommitsNothing(s, step.aid, step.commits);
    } else {
      OtherStepsCommitNothing(s, step);
    }
  }

  lemma OtherStepsCommitNothing(s: State, step: Step)
    requires OfAttempt(step) && step.aid in s.attempts
    requires !(step.RunTransaction? && s.attempts[step.aid].phase == Reserved)
    requires !(step.StoreFinal? && s.attempts[step.aid].phase.Settled?)
    ensures CommitsNothing(s, Next(s, step))
  {
  }

  lemma FinalCommitsNothing(s: State, aid: nat, commits: bool)
    requires Inv(s) && aid in s.attempts && s.attempts[aid].phase.Settled?
    ensures CommitsNothing(s, DoStoreFinal(s, aid, s.attempts[aid], s.attempts[aid].phase.pid, commits))
  {
    var a := s.attempts[aid];
    RowAlreadyThere(s, aid, a.phase.pid,
      IdemRow(a.hash, 200, Withdrawn(a.phase.pid, if a.request.Withdraw? then a.request.amount else 0)));
  }

  // ---------------------------------------------------------------- at most once

  lemma OneMoreEffect(effects: seq<Effect>, e: Effect, slot: Slot)
    requires AtMostOne(effects, slot) && (e.slot == Some(slot) ==> !HasEffect(effects, slot))
    ensures AtMostOne(effects + [e], slot)
  {
  }

  lemma CommitOnce(s: State, t: State, step: Step, slot: Slot)
    requires Inv(s) && RowsOk(t) && Once(s, slot) && Alone(s, slot)
    requires step.RunTransaction? && step.aid in s.attempts
    requires MovesOnly(s, t, step.aid) && Commits(s, t, step)
    ensures Once(t, slot)
  {
    var e := EffectOf(s, step.aid, s.attempts[step.aid]);
    if e.slot == Some(slot) {
      assert slot !in s.db.idem;
    }
    OneMoreEffect(s.effects, e, slot);
    HasEffectAfter(s.effects, e, slot);
    if slot in t.db.idem {
      CommitLeavesNoneReserved(s, t, step.aid, slot);
    }
  }

  lemma CommitLeavesNoneReserved(s: State, t: State, aid: nat, slot: Slot)
    requires Alone(s, slot) && aid in s.attempts && s.attempts[aid].phase == Reserved
    requires MovesOnly(s, t, aid) && t.attempts[aid].phase != Reserved
    requires Of(s.attempts[aid], slot) || NoneReserved(s, slot)
    ensures NoneReserved(t, slot)
  {
  }

  lemma MoveOnce(s: State, t: State, aid: nat, slot: Slot)
    requires Once(s, slot) && aid in s.attempts
    requires MovesOnly(s, t, aid) && ReservesFresh(s, t, aid) && CommitsNothing(s, t)
    ensures Once(t, slot)
  {
    assert slot in t.db.idem.Keys <==> slot in s.db.idem.Keys;
  }

  lemma OutsideStepOnce(s: State, step: Step, slot: Slot)
    requires Once(s, slot) && !OfAttempt(step)
    ensures Once(Next(s, step), slot)
  {
  }

  lemma OnceStep(s: State, step: Step, slot: Slot)
    requires Inv(s) && Once(s, slot) && Alone(s, slot)
    ensures Once(Next(s, step), slot)
  {
    if !OfAttempt(step) {
      OutsideStepOnce(s, step, slot);
    } else if step.aid in s.attempts {
      StepMoves(s, step);
      StepReserves(s, step);
      StepCommits(s, step);
      NextKeeps(s, step);
      var t := Next(s, step);
      if Commits(s, t, step) {
        CommitOnce(s, t, step, slot);
      } else {
        MoveOnce(s, t, step.aid, slot);
      }
    }
  }

  ghost predicate AlwaysAlone(steps: seq<Step>, slot: Slot) {
    forall n :: 0 <= n <= |steps| ==> Alone(Run(INITIAL, steps[..n]), slot)
  }

  lemma PrefixOfPrefix<T>(s: seq<T>, n: nat)
    requires n < |s|
    ensures s[..|s| - 1][..n] == s[..n]
  {
  }

  lemma {:induction false} AloneMeansOnce(steps: seq<Step>, slot: Slot)
    requires AlwaysAlone(steps, slot)
    ensures Once(Run(INITIAL, steps), slot)
  {
    if steps != [] {
      var before := steps[..|steps| - 1];
      forall n | 0 <= n <= |before| ensures Alone(Run(INITIAL, before[..n]), slot) {
        PrefixOfPrefix(steps, n);
      }
      AloneMeansOnce(before, slot);
      RunKeeps(before);
      OnceStep(Run(INITIAL, before), steps[|steps| - 1], slot);
    }
  }

  ghost predicate BeginsFor(step: Step, slot: Slot) {
    step.Begin? && Of(Attempt(step.agent, step.key, step.hash, step.request, Starting), slot)
  }

  /** The client repeats a request only after the previous attempt has ended, well or badly. */
  ghost predicate NonOverlapping(steps: seq<Step>, slot: Slot) {
    forall n :: 0 <= n < |steps| && BeginsFor(steps[n], slot) ==> NoneLive(Run(INITIAL, steps[..n]), slot)
  }

  lemma OneLiveStep(s: State, step: Step, slot: Slot)
    requires AtMostOneLive(s, slot) && (BeginsFor(step, slot) ==> NoneLive(s, slot))
    ensures AtMostOneLive(Next(s, step), slot)
  {
    if OfAttempt(step) && step.aid in s.attempts {
      StepMoves(s, step);
      MoveOneLive(s, Next(s, step), step.aid, slot);
    }
  }

  lemma MoveOneLive(s: State, t: State, aid: nat, slot: Slot)
    requires AtMostOneLive(s, slot) && aid in s.attempts && MovesOnly(s, t, aid)
    ensures AtMostOneLive(t, slot)
  {
  }

  lemma {:induction false} NonOverlappingMeansAlone(steps: seq<Step>, slot: Slot)
    requires NonOverlapping(steps, slot)
    ensures AtMostOneLive(Run(INITIAL, steps), slot) && AlwaysAlone(steps, slot)
  {
    if steps != [] {
      var before := steps[..|steps| - 1];
      forall n | 0 <= n < |before| && BeginsFor(before[n], slot) ensures NoneLive(Run(INITIAL, before[..n]), slot) {
        PrefixOfPrefix(steps, n);
        assert before[n] == steps[n];
      }
      NonOverlappingMeansAlone(before, slot);
      RunKeeps(before);
      assert steps[..|before|] == before;
      OneLiveStep(Run(INITIAL, before), steps[|before|], slot);
      forall n | 0 <= n <= |steps| ensures Alone(Run(INITIAL, steps[..n]), slot) {
        if n < |steps| { PrefixOfPrefix(steps, n); } else { assert steps[..n] == steps; }
      }
    }
  }

  /** The withdrawal row `pid` was created under `slot`. */
  ghost predicate OwnedBy(s: State, pid: nat, slot: Slot) {
    exists i :: 0 <= i < |s.effects| && s.effects[i].pid == Some(pid) && s.effects[i].slot == Some(slot)
  }

  lemma OneRow(s: State, p: nat, q: nat, slot: Slot)
    requires AtMostOne(s.effects, slot) && OwnedBy(s, p, slot) && OwnedBy(s, q, slot)
    ensures p == q
  {
    var i :| 0 <= i < |s.effects| && s.effects[i].pid == Some(p) && s.effects[i].slot == Some(slot);
    var j :| 0 <= j < |s.effects| && s.effects[j].pid == Some(q) && s.effects[j].slot == Some(slot);
    assert i == j;
  }

  /**
   When attempts under a key do not overlap, then over every run, with failures, lost
   commits, crashes and cache losses anywhere: at most one effect, one withdrawal row and
   one wallet call, whose posts PostsExactly describes, and the idempotency row exists
   exactly when the effect does.
   */
  lemma AtMostOncePerKey(steps: seq<Step>, slot: Slot)
    requires NonOverlapping(steps, slot)
    ensures var s := Run(INITIAL, steps);
      && AtMostOne(s.effects, slot)
      && (slot in s.db.idem <==> HasEffect(s.effects, slot))
      && (forall p, q :: OwnedBy(s, p, slot) && OwnedBy(s, q, slot) ==> p == q)
      && (forall p :: p in s.calls && OwnedBy(s, p, slot) ==> CallOk(s, p))
  {
    NonOverlappingMeansAlone(steps, slot);
    AloneMeansOnce(steps, slot);
    RunKeeps(steps);
    var s := Run(INITIAL, steps);
    forall p, q | OwnedBy(s, p, slot) && OwnedBy(s, q, slot) ensures p == q {
      OneRow(s, p, q, slot);
    }
  }
}

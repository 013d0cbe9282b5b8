/** Atomic commitment of the whole system, coordinator and participants together, over all runs;
    and the one thing a client must not do, shown to be exactly what breaks it. */
module Atomicity {
  import opened OtsTypes
  import opened Participants
  import opened CoordinatorSpec
  import opened Protocol
  import opened Invariant
  import opened Runs
  import opened Growth

  predicate HasCommitted(s: Sys, r: Ref) {
    r in s.parts && XaCommit in s.parts[r].commands
  }

  predicate HasAborted(s: Sys, r: Ref) {
    r in s.parts && XaRollback in s.parts[r].commands
  }

  /** No participant was made to commit while another, or the same, was made to roll back. */
  ghost predicate Atomic(s: Sys) {
    forall a, b :: !(HasCommitted(s, a) && HasAborted(s, b))
  }

  predicate NobodyHasCommitted(s: Sys) {
    forall r | r in s.parts :: !HasCommitted(s, r)
  }

  /** No resource can join after somebody has committed. A commit of the only resource in one phase
      leaves the transaction Active, so without this one could. */
  predicate CalmNow(s: Sys, op: Op) {
    op.OpRegister? && s.status == StatusActive ==> NobodyHasCommitted(s)
  }

  predicate Calm(s: Sys, fates: Fates, ops: seq<Op>)
    decreases |ops|
  {
    ops != [] ==> CalmNow(s, ops[0]) && Calm(Step(s, fates, ops[0]).0, fates, ops[1..])
  }

  lemma CommandsShowStatus(s: Sys, r: Ref)
    requires Inv(s) && r in s.parts
    ensures HasCommitted(s, r) <==> r in Read(s.trace).committed
    ensures HasAborted(s, r) <==> r in Read(s.trace).aborted
  {
    assert Consistent(s.parts[r]);
  }

  lemma NobodyMeansEmpty(s: Sys)
    requires Inv(s)
    ensures NobodyHasCommitted(s) <==> Read(s.trace).committed == {}
  {
    forall r | r in s.parts ensures HasCommitted(s, r) <==> r in Read(s.trace).committed {
      CommandsShowStatus(s, r);
    }
    assert NobodyHasCommitted(s) ==> forall r | r in Read(s.trace).committed :: r in s.parts;
  }

  lemma NotLateIsAtomic(s: Sys)
    requires Inv(s) && !Read(s.trace).late
    ensures Atomic(s)
  {
    forall a, b ensures !(HasCommitted(s, a) && HasAborted(s, b)) {
      if a in s.parts && b in s.parts {
        CommandsShowStatus(s, a);
        CommandsShowStatus(s, b);
      }
    }
  }

  // ------------------------------------------------------------------
  // Which steps can make a history late
  // ------------------------------------------------------------------

  lemma LateStep(v: View, e: Event)
    ensures Next(v, e).late ==> v.late || |Next(v, e).joined| > |v.joined|
    ensures |Next(v, e).joined| >= |v.joined|
  {
  }

  /** Only a registration makes a history late. */
  lemma {:induction false} LateNeedsJoining(trace: seq<Event>, j: nat, k: nat)
    requires j <= k <= |trace|
    ensures |Read(trace[..j]).joined| <= |Read(trace[..k]).joined|
    ensures Read(trace[..k]).late && |Read(trace[..j]).joined| == |Read(trace[..k]).joined| ==> Read(trace[..j]).late
    decreases k - j
  {
    if j < k {
      LateNeedsJoining(trace, j, k - 1);
      assert trace[..k] == trace[..k - 1] + [trace[k - 1]];
      AcceptedExtended(trace[..k - 1], trace[k - 1]);
      LateStep(Read(trace[..k - 1]), trace[k - 1]);
    }
  }

  lemma UnchangedListIsNotLate(s: Sys, t: Sys)
    requires Inv(s) && Inv(t) && s.trace <= t.trace && |s.entries| == |t.entries| && !Read(s.trace).late
    ensures !Read(t.trace).late
  {
    assert t.trace[..|s.trace|] == s.trace && t.trace[..|t.trace|] == t.trace;
    LateNeedsJoining(t.trace, |s.trace|, |t.trace|);
  }

  /** Between s and t nobody joined and no participant moved. */
  predicate Quiet(s: Sys, t: Sys) {
    && t.entries == s.entries
    && Read(t.trace).committed == Read(s.trace).committed && Read(t.trace).late == Read(s.trace).late
    && (forall x | x in s.parts :: x in t.parts && t.parts[x].status == s.parts[x].status)
  }

  lemma EnlistQuietly(s: Sys, fates: Fates, req: Request, r: Ref)
    requires Inv(s) && s.status == StatusActive && Enlists(req)
    ensures var t := Call(s, fates, req, r).0; Inv(t) && t.status == StatusActive && Quiet(s, t)
  {
    CallStep(s, fates, req, r);
    CallEffect(s, fates, req, r);
  }

  /** The three calls that precede a registration. */
  lemma EnlistCallsQuietly(s: Sys, fates: Fates, r: Ref)
    requires Inv(s) && s.status == StatusActive
    ensures var s1 := Call(s, fates, Forget, r).0;
            var s2 := Call(s1, fates, BeginTrans, r).0;
            var s3 := Call(s2.(nextRc := s2.nextRc + 1), fates, SetRecoveryCoordinator(s2.nextRc), r).0;
            Quiet(s, s1) && Quiet(s, s2) && Quiet(s, s3)
  {
    hide Inv, Read;
    EnlistQuietly(s, fates, Forget, r);
    var s1 := Call(s, fates, Forget, r).0;
    EnlistQuietly(s1, fates, BeginTrans, r);
    var s2 := Call(s1, fates, BeginTrans, r).0;
    RecoveryCoordinatorCreated(s2);
    EnlistQuietly(s2.(nextRc := s2.nextRc + 1), fates, SetRecoveryCoordinator(s2.nextRc), r);
  }

  lemma JoinedIsLate(s: Sys, entries: seq<Entry>, r: Ref)
    ensures var t := Emit(s.(entries := entries), Joined(r));
            && Read(t.trace).late == (Read(s.trace).late || Read(s.trace).committed != {})
            && Read(t.trace).committed == Read(s.trace).committed
  {
    AcceptedExtended(s.trace, Joined(r));
  }

  /** A registration makes the history late exactly if somebody had committed before. */
  predicate LateIffCommitted(s: Sys, t: Sys) {
    && Read(t.trace).late == (Read(s.trace).late || (|t.entries| > |s.entries| && Read(s.trace).committed != {}))
    && Read(t.trace).committed == Read(s.trace).committed
    && (forall x | x in s.parts :: x in t.parts && t.parts[x].status == s.parts[x].status)
  }

  lemma RegistrationIsLate(s: Sys, fates: Fates, r: Ref)
    requires Inv(s)
    ensures LateIffCommitted(s, Register(s, fates, r).0)
  {
    hide Inv, Read, Call;
    if s.status == StatusActive {
      EnlistCallsQuietly(s, fates, r);
      var s2 := Call(Call(s, fates, Forget, r).0, fates, BeginTrans, r).0;
      var s3 := Call(s2.(nextRc := s2.nextRc + 1), fates, SetRecoveryCoordinator(s2.nextRc), r).0;
      JoinedIsLate(s3, s3.entries + [Entry(r, s2.nextRc, RvNotPrepared)], r);
    }
  }

  lemma CalmStep(s: Sys, fates: Fates, op: Op)
    requires Resting(s) && !Read(s.trace).late && CalmNow(s, op)
    ensures Resting(Step(s, fates, op).0) && !Read(Step(s, fates, op).0.trace).late
  {
    hide Inv, Read;
    StepKeeps(s, fates, op);
    match op
    case OpRegister(r) =>
      NobodyMeansEmpty(s);
      if s.status == StatusActive {
        RegistrationIsLate(s, fates, r);
      }
    case OpCommit(report) =>
      CommitGrows(s, fates, report);
      UnchangedListIsNotLate(s, Step(s, fates, op).0);
    case OpRollback =>
      RollbackGrows(s, fates);
      UnchangedListIsNotLate(s, Step(s, fates, op).0);
    case _ =>
      UnchangedListIsNotLate(s, Step(s, fates, op).0);
  }

  lemma {:induction false} CalmRunIsNotLate(s: Sys, fates: Fates, ops: seq<Op>)
    requires Resting(s) && !Read(s.trace).late && Calm(s, fates, ops)
    ensures Resting(Run(s, fates, ops)) && !Read(Run(s, fates, ops).trace).late
    decreases |ops|
  {
    if ops != [] {
      CalmStep(s, fates, ops[0]);
      CalmRunIsNotLate(Step(s, fates, ops[0]).0, fates, ops[1..]);
    }
  }

  /** Atomic commitment: for every number of participants, every calm sequence of client calls and
      every environment that loses requests and replies, raises other errors or makes participants
      fail. It holds at the end of the run and at every point of its history, also inside an
      operation, where the effects moreover agree with the one decision taken. */
  lemma AtomicCommitment(s: Sys, fates: Fates, ops: seq<Op>)
    requires Initial(s) && Calm(s, fates, ops)
    ensures Atomic(Run(s, fates, ops))
    ensures var trace := Run(s, fates, ops).trace;
            forall k | 0 <= k <= |trace| ::
              var v := Read(trace[..k]);
              (v.committed != {} ==> v.decision == ToCommit) && (v.aborted != {} ==> v.decision == ToAbort)
  {
    InitialFits(s);
    CalmRunIsNotLate(s, fates, ops);
    var t := Run(s, fates, ops);
    NotLateIsAtomic(t);
    forall k | 0 <= k <= |t.trace|
      ensures var v := Read(t.trace[..k]);
              (v.committed != {} ==> v.decision == ToCommit) && (v.aborted != {} ==> v.decision == ToAbort)
    {
      AcceptedPrefix(t.trace, k);
      assert t.trace[..|t.trace|] == t.trace;
      LateStays(t.trace, k, |t.trace|);
      EffectsFollowDecision(t.trace[..k]);
    }
  }

  lemma {:induction false} LateStays(trace: seq<Event>, j: nat, k: nat)
    requires j <= k <= |trace|
    ensures Read(trace[..j]).late ==> Read(trace[..k]).late
    decreases k - j
  {
    if j < k {
      LateStays(trace, j, k - 1);
      assert trace[..k] == trace[..k - 1] + [trace[k - 1]];
      AcceptedExtended(trace[..k - 1], trace[k - 1]);
    }
  }

  // ------------------------------------------------------------------
  // The gap, exactly
  // ------------------------------------------------------------------

  const OK := Database(1, true, true)

  /** The environment in which everything arrives and every database call succeeds. */
  function AllIsWell(): Fates {
    n => Delivered(OK)
  }

  /** One delivered rollback. */
  lemma DeliveredRollback(s: Sys, i: nat, heuristics: bool)
    requires Distinct(s.entries) && i < |s.entries| && s.entries[i].r in s.parts && s.entries[i].rv == RvNotPrepared
    requires s.parts[s.entries[i].r].status == StatusActive || s.parts[s.entries[i].r].status == StatusCommitting
    ensures var p := RollbackOf(s.parts[s.entries[i].r]).0;
            var t := SetVoteAt(Call(s, AllIsWell(), Rollback, s.entries[i].r).0, i, RvRolledBack);
            && t.parts == s.parts[s.entries[i].r := p] && t.status == s.status
            && Sweep(s, AllIsWell(), FirstRollback, i, heuristics) ==
                 Sweep(t, AllIsWell(), FirstRollback, i + 1, heuristics)
  {
    FindAt(s.entries, i);
  }

  /** Two resources, the first committed and the second fresh: a rollback now splits them. */
  predicate AboutToSplit(s: Sys) {
    && s.status == StatusActive && |s.entries| == 2 && Distinct(s.entries)
    && (forall i | 0 <= i < 2 :: s.entries[i].r in s.parts && s.entries[i].rv == RvNotPrepared)
    && s.parts[s.entries[0].r].status == StatusCommitting && HasCommitted(s, s.entries[0].r)
    && s.parts[s.entries[1].r].status == StatusActive
  }

  lemma RollbackSplits(s: Sys)
    requires AboutToSplit(s)
    ensures !Atomic(Step(s, AllIsWell(), OpRollback).0)
  {
    var a, b := s.entries[0].r, s.entries[1].r;
    var s0 := SetStatus(s, StatusRollingBack);
    DeliveredRollback(s0, 0, false);
    var s1 := SetVoteAt(Call(s0, AllIsWell(), Rollback, a).0, 0, RvRolledBack);
    DeliveredRollback(s1, 1, false);
    var s2 := SetVoteAt(Call(s1, AllIsWell(), Rollback, b).0, 1, RvRolledBack);
    assert Sweep(s0, AllIsWell(), FirstRollback, 0, false) == (s2, false, Returned);
    AfterGrows(SetStatus(s2, StatusNoTransaction), 0);
    var t := Step(s, AllIsWell(), OpRollback).0;
    assert t.parts == s2.parts;
    assert HasCommitted(t, a) && HasAborted(t, b);
  }

  /** A further resource may join an Active transaction without putting atomicity at risk if and
      only if nobody has committed: otherwise one rollback call in a perfect environment suffices. */
  lemma LateRegistrationIsTheGap(s: Sys, fates: Fates, r: Ref)
    requires Resting(s) && s.status == StatusActive && !Read(s.trace).late
    requires |Register(s, fates, r).0.entries| > |s.entries|
    ensures var t := Register(s, fates, r).0;
            (forall fates': Fates, ops :: Calm(t, fates', ops) ==> Atomic(Run(t, fates', ops))) <==>
              NobodyHasCommitted(s)
  {
    var t := Register(s, fates, r).0;
    StepKeeps(s, fates, OpRegister(r));
    NobodyMeansEmpty(s);
    hide Inv, Read, Run, Calm, Atomic, Register, NobodyHasCommitted;
    RegistrationIsLate(s, fates, r);
    if NobodyHasCommitted(s) {
      forall fates': Fates, ops | Calm(t, fates', ops) ensures Atomic(Run(t, fates', ops)) {
        CalmRunIsNotLate(t, fates', ops);
        NotLateIsAtomic(Run(t, fates', ops));
      }
    } else {
      CommittedOnlyResource(s, fates, r);
      RollbackSplits(t);
      OneRollback(t);
    }
  }

  lemma OneRollback(s: Sys)
    ensures Calm(s, AllIsWell(), [OpRollback])
    ensures Run(s, AllIsWell(), [OpRollback]) == Step(s, AllIsWell(), OpRollback).0
  {
    hide Step;
    assert [OpRollback][1..] == [];
  }

  lemma CommittedOnlyResource(s: Sys, fates: Fates, r: Ref)
    requires Resting(s) && s.status == StatusActive && !Read(s.trace).late && !NobodyHasCommitted(s)
    requires |Register(s, fates, r).0.entries| > |s.entries|
    ensures AboutToSplit(Register(s, fates, r).0)
  {
    var t := Register(s, fates, r).0;
    CommittedIsAlone(s);
    JoinedLast(s, fates, r);
    RegistrationIsLate(s, fates, r);
    StepKeeps(s, fates, OpRegister(r));
    assert Read(s.trace).joined == [s.entries[0].r];
    assert t.entries[1].r !in Read(s.trace).joined;
    CommandsShowStatus(t, s.entries[0].r);
  }

  lemma CommittedIsAlone(s: Sys)
    requires Inv(s) && s.status == StatusActive && !Read(s.trace).late && !NobodyHasCommitted(s)
    ensures |s.entries| == 1 && s.parts[s.entries[0].r].status == StatusCommitting
    ensures s.entries[0].r in Read(s.trace).committed
  {
    NobodyMeansEmpty(s);
    var v := Read(s.trace);
    var c :| c in v.committed;
    hide Read, VotesFit, NobodyHasCommitted, Accepted, Consistent;
    assert c in s.parts && c in v.joined;
    assert s.entries[0].r == c;
  }

  lemma JoinedLast(s: Sys, fates: Fates, r: Ref)
    requires Inv(s) && s.status == StatusActive && |Register(s, fates, r).0.entries| > |s.entries|
    ensures var t := Register(s, fates, r).0;
            && t.status == StatusActive && r in s.parts && r !in Read(s.trace).joined && t.parts.Keys == s.parts.Keys
            && exists rc :: t.entries == s.entries + [Entry(r, rc, RvNotPrepared)]
  {
    EnlistAdds(s, fates, r);
    RegisterGrows(s, fates, r);
    NotFoundNotJoined(s, r);
  }

  lemma NotFoundNotJoined(s: Sys, r: Ref)
    requires Inv(s) && Find(s.entries, r) == |s.entries|
    ensures r !in Read(s.trace).joined
  {
  }

  lemma EnlistAdds(s: Sys, fates: Fates, r: Ref)
    requires s.status == StatusActive && |Register(s, fates, r).0.entries| > |s.entries|
    ensures var t := Register(s, fates, r).0;
            && t.status == StatusActive && r in s.parts && Find(s.entries, r) == |s.entries|
            && exists rc :: t.entries == s.entries + [Entry(r, rc, RvNotPrepared)]
  {
    hide Serve, Issued;
    var t := Register(s, fates, r).0;
    assert t == Enlist(s, fates, r).0;
    assert r !in s.parts ==> Call(s, fates, Forget, r).1.Failed?;
    assert |t.entries| == |s.entries| + 1;
    assert t.entries == s.entries + [Entry(r, t.entries[|s.entries|].rc, RvNotPrepared)];
  }
}

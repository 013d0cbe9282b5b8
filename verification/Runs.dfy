/** Every operation keeps the invariant, so every run does. */
module Runs {
  import opened OtsTypes
  import opened CoordinatorSpec
  import opened Protocol
  import opened Invariant

  lemma {:induction false} PrepareKeeps(s: Sys, fates: Fates, i: nat)
    requires Inv(s)
    requires s.status == StatusMarkedRollback
          || (s.status == StatusPreparing && Read(s.trace).favourable && |Read(s.trace).prepared| == i <= |s.entries|)
    ensures var (t, end) := PrepareFrom(s, fates, i);
            && Inv(t) && (t.status == StatusPreparing || t.status == StatusMarkedRollback)
            && (end == Returned && t.status == StatusPreparing ==>
                  Read(t.trace).favourable && |Read(t.trace).prepared| == |t.entries|)
            && (end != Returned ==> t.status == StatusPreparing)
    decreases |s.entries| - i
  {
    hide Inv, Read;
    if i < |s.entries| && s.status != StatusMarkedRollback {
      PrepareStep(s, fates, i);
      var (t, reply) := Call(s, fates, Prepare, s.entries[i].r);
      match VoteCounted(reply)
      case None =>
      case Some(VoteCommit) => PrepareKeeps(SetVoteAt(t, i, RvVoteCommit), fates, i + 1);
      case Some(VoteReadOnly) => PrepareKeeps(SetVoteAt(t, i, RvVoteReadOnly), fates, i + 1);
      case Some(VoteRollback) =>
        StepToMarked(SetVoteAt(t, i, RvRolledBack));
        PrepareKeeps(SetStatus(SetVoteAt(t, i, RvRolledBack), StatusMarkedRollback), fates, i + 1);
    }
  }

  predicate InPass(s: Sys, pass: Pass) {
    s.status == if Commits(pass) then StatusCommitting else StatusRollingBack
  }

  lemma SettledFits(s: Sys, pass: Pass, i: nat)
    requires Inv(s) && InPass(s, pass) && i < |s.entries|
    ensures Inv(SetVoteAt(s, i, Settled(pass)))
    ensures ChangeResourceVote(s, s.entries[i].r, Settled(pass)) == SetVoteAt(s, i, Settled(pass))
  {
    FindAt(s.entries, i);
    VoteEntered(s, Read(s.trace), i, Settled(pass));
  }

  lemma PassAllowed(s: Sys, pass: Pass, i: nat)
    requires Inv(s) && InPass(s, pass) && i < |s.entries|
    ensures Allowed(Read(s.trace), Called(PassRequest(pass), s.entries[i].r, Done, []))
  {
    assert s.entries[i].r == Read(s.trace).joined[i];
  }

  /** One request of a pass, and the vote that its normal reply leaves in the list. */
  lemma SweepStep(s: Sys, fates: Fates, pass: Pass, i: nat)
    requires Inv(s) && InPass(s, pass) && i < |s.entries|
    ensures var t := Call(s, fates, PassRequest(pass), s.entries[i].r).0;
            && Inv(t) && Inv(SetVoteAt(t, i, Settled(pass)))
            && ChangeResourceVote(t, s.entries[i].r, Settled(pass)) == SetVoteAt(t, i, Settled(pass))
  {
    hide Inv, Read, Call;
    PassAllowed(s, pass, i);
    CallStep(s, fates, PassRequest(pass), s.entries[i].r);
    SettledFits(Call(s, fates, PassRequest(pass), s.entries[i].r).0, pass, i);
  }

  lemma {:induction false} SweepKeeps(s: Sys, fates: Fates, pass: Pass, i: nat, heuristics: bool)
    requires Inv(s) && InPass(s, pass)
    ensures var t := Sweep(s, fates, pass, i, heuristics).0; Inv(t) && InPass(t, pass)
    decreases |s.entries| - i
  {
    hide Inv;
    if i < |s.entries| {
      if !Eligible(pass, s.entries[i].rv) {
        SweepKeeps(s, fates, pass, i + 1, heuristics);
      } else {
        SweepStep(s, fates, pass, i);
        var (t, reply) := Call(s, fates, PassRequest(pass), s.entries[i].r);
        if reply == Done {
          SweepKeeps(SetVoteAt(t, i, Settled(pass)), fates, pass, i + 1, heuristics);
        } else if Forgiven(pass, reply) {
          SweepKeeps(t, fates, pass, i + 1, true);
        }
      }
    }
  }

  lemma {:induction false} BeforeKeeps(s: Sys, i: nat)
    requires Inv(s) && s.status == StatusActive
    ensures Inv(BeforeFrom(s, i))
    ensures BeforeFrom(s, i) == s.(trace := BeforeFrom(s, i).trace)
    decreases |s.syncs| - i
  {
    if i < |s.syncs| {
      var e := BeforeCompletion(s.syncs[i]);
      Extend(s, Emit(s, e), e);
      BeforeKeeps(Emit(s, e), i + 1);
    }
  }

  lemma {:induction false} AfterKeeps(s: Sys, i: nat)
    requires Inv(s) && s.status == StatusNoTransaction && Read(s.trace).notified == i
    ensures Inv(AfterFrom(s, i))
    ensures AfterFrom(s, i) == s.(trace := AfterFrom(s, i).trace)
    decreases |s.syncs| - i
  {
    if i < |s.syncs| {
      var e := AfterCompletion(s.syncs[i], s.status);
      Extend(s, Emit(s, e), e);
      AfterKeeps(Emit(s, e), i + 1);
    }
  }

  // ------------------------------------------------------------------
  // Operations
  // ------------------------------------------------------------------

  predicate NobodyVoted(entries: seq<Entry>) {
    forall i | 0 <= i < |entries| :: entries[i].rv == RvNotPrepared
  }

  /** The invariant between operations: a marked transaction has not begun to prepare. */
  predicate Resting(s: Sys) {
    Inv(s) && (s.status == StatusMarkedRollback ==> NobodyVoted(s.entries))
  }

  lemma RegisterKeeps(s: Sys, fates: Fates, r: Ref)
    requires Resting(s)
    ensures Resting(Register(s, fates, r).0)
  {
    if s.status == StatusActive && Find(s.entries, r) == |s.entries| {
      EnlistKeeps(s, fates, r);
    }
  }

  lemma EnlistCall(s: Sys, fates: Fates, req: Request, r: Ref)
    requires Inv(s) && s.status == StatusActive && Enlists(req)
    ensures var (t, reply) := Call(s, fates, req, r);
            Inv(t) && (r !in s.parts ==> reply.Failed?) && t.parts.Keys == s.parts.Keys
  {
    CallStep(s, fates, req, r);
    CallEffect(s, fates, req, r);
  }

  lemma EnlistKeeps(s: Sys, fates: Fates, r: Ref)
    requires Inv(s) && s.status == StatusActive && Find(s.entries, r) == |s.entries|
    ensures var t := Enlist(s, fates, r).0; Inv(t) && t.status == StatusActive
  {
    hide Inv;
    EnlistCall(s, fates, Forget, r);
    var (s1, forgot) := Call(s, fates, Forget, r);
    EnlistCall(s1, fates, BeginTrans, r);
    var (s2, began) := Call(s1, fates, BeginTrans, r);
    var s2' := s2.(nextRc := s2.nextRc + 1);
    RecoveryCoordinatorCreated(s2);
    EnlistCall(s2', fates, SetRecoveryCoordinator(s2.nextRc), r);
    var (s3, told) := Call(s2', fates, SetRecoveryCoordinator(s2.nextRc), r);
    if !forgot.Failed? && !began.Failed? && !told.Failed? {
      Listed(s3, r, s2.nextRc);
    }
  }

  /** The counter for recovery coordinators plays no part in the protocol. */
  lemma RecoveryCoordinatorCreated(s: Sys)
    requires Inv(s)
    ensures Inv(s.(nextRc := s.nextRc + 1))
  {
  }

  lemma Listed(s: Sys, r: Ref, rc: nat)
    requires Inv(s) && s.status == StatusActive && Find(s.entries, r) == |s.entries| && r in s.parts
    ensures var t := Emit(s.(entries := s.entries + [Entry(r, rc, RvNotPrepared)]), Joined(r)); Inv(t)
  {
    ListedFits(s, Read(s.trace), r, rc);
    hide Fits, Follows;
    Extend(s, Emit(s.(entries := s.entries + [Entry(r, rc, RvNotPrepared)]), Joined(r)), Joined(r));
  }

  lemma ListedFits(s: Sys, v: View, r: Ref, rc: nat)
    requires Fits(s, v) && s.status == StatusActive && Find(s.entries, r) == |s.entries| && r in s.parts
    ensures var t := Emit(s.(entries := s.entries + [Entry(r, rc, RvNotPrepared)]), Joined(r));
            Follows(v, Joined(r)) && Fits(t, Next(v, Joined(r)))
  {
    var t := Emit(s.(entries := s.entries + [Entry(r, rc, RvNotPrepared)]), Joined(r));
    assert Refs(t.entries) == Refs(s.entries) + [r];
  }

  lemma RollbackKeeps(s: Sys, fates: Fates)
    requires Inv(s)
    ensures var (t, end) := RollbackTransaction(s, fates);
            Inv(t) && t.status != StatusMarkedRollback && t.status != StatusActive
  {
    hide Inv;
    match s.status
    case StatusActive | StatusMarkedRollback =>
      StepToRollingBack(s);
      FinishRollback(SetStatus(s, StatusRollingBack), fates, FirstRollback);
    case StatusRollingBack => FinishRollback(s, fates, RetryRollback);
    case _ =>
  }

  /** After a pass over the list the coordinator may move to NoTransaction and notify. */
  lemma FinishRollback(s: Sys, fates: Fates, pass: Pass)
    requires Inv(s) && InPass(s, pass)
    ensures var t := Sweep(s, fates, pass, 0, false).0;
            && Inv(t) && InPass(t, pass) && Inv(SetStatus(t, StatusNoTransaction))
            && Inv(AfterFrom(SetStatus(t, StatusNoTransaction), 0))
            && AfterFrom(SetStatus(t, StatusNoTransaction), 0).status == StatusNoTransaction
  {
    SweepKeeps(s, fates, pass, 0, false);
    var t := Sweep(s, fates, pass, 0, false).0;
    StepToNoTransaction(t);
    AfterKeeps(SetStatus(t, StatusNoTransaction), 0);
  }

  lemma TwoPhaseKeeps(s: Sys, fates: Fates, report: bool)
    requires Inv(s) && s.status == StatusActive && |s.entries| >= 2
    ensures var t := TwoPhase(s, fates, report).0;
            Inv(t) && t.status != StatusMarkedRollback && t.status != StatusActive
  {
    hide Inv, Read, Sweep;
    StepToPreparing(s);
    PrepareKeeps(SetStatus(s, StatusPreparing), fates, 0);
    var (t, end) := PrepareFrom(SetStatus(s, StatusPreparing), fates, 0);
    if end == Returned {
      if t.status == StatusMarkedRollback {
        RollbackKeeps(t, fates);
      } else {
        StepToCommitting(t);
        FinishRollback(SetStatus(t, StatusCommitting), fates, FirstCommit);
      }
    }
  }

  lemma AloneAllowed(s: Sys)
    requires Inv(s) && s.status == StatusActive && |s.entries| == 1
    ensures Allowed(Read(s.trace), Called(CommitOnePhase, s.entries[0].r, Done, []))
  {
    assert Read(s.trace).joined == [s.entries[0].r];
  }

  lemma CommitActiveKeeps(s: Sys, fates: Fates, report: bool)
    requires Inv(s) && s.status == StatusActive
    ensures var t := CommitActive(s, fates, report).0; Inv(t) && t.status != StatusMarkedRollback
  {
    hide Inv, Read, BeforeFrom, TwoPhase, Call;
    BeforeKeeps(s, 0);
    var s1 := BeforeFrom(s, 0);
    if |s1.entries| == 0 {
      StepToNoTransaction(s1);
    } else if |s1.entries| == 1 {
      AloneAllowed(s1);
      CallStep(s1, fates, CommitOnePhase, s1.entries[0].r);
    } else {
      TwoPhaseKeeps(s1, fates, report);
    }
  }

  lemma CommitKeeps(s: Sys, fates: Fates, report: bool)
    requires Inv(s)
    ensures var t := CommitTransaction(s, fates, report).0; Inv(t) && t.status != StatusMarkedRollback
  {
    hide Inv;
    match s.status
    case StatusActive => CommitActiveKeeps(s, fates, report);
    case StatusMarkedRollback => RollbackKeeps(s, fates);
    case StatusCommitting => FinishRollback(s, fates, RetryCommit);
    case _ =>
  }

  lemma StepKeeps(s: Sys, fates: Fates, op: Op)
    requires Resting(s)
    ensures Resting(Step(s, fates, op).0)
  {
    match op
    case OpRegister(r) => RegisterKeeps(s, fates, r);
    case OpRegisterSync(x) =>
      if s.status == StatusActive {
        Extend(s, RegisterSync(s, x).0, SyncJoined(x));
      }
    case OpRollbackOnly =>
      if s.status == StatusActive {
        StepToMarked(s);
      }
    case OpCommit(report) => CommitKeeps(s, fates, report);
    case OpRollback => RollbackKeeps(s, fates);
  }

  lemma {:induction false} RunKeeps(s: Sys, fates: Fates, ops: seq<Op>)
    requires Resting(s)
    ensures Resting(Run(s, fates, ops))
    decreases |ops|
  {
    if ops != [] {
      StepKeeps(s, fates, ops[0]);
      RunKeeps(Step(s, fates, ops[0]).0, fates, ops[1..]);
    }
  }

  /** The refinement: in every run, from every initial state and in every environment, each step
      the coordinator takes is a step of the protocol, and each of them, as long as nobody joins
      late, is a step of the machine that takes one decision and lets effects follow it. */
  lemma RunsFollowTheProtocol(s: Sys, fates: Fates, ops: seq<Op>)
    requires Initial(s)
    ensures Resting(Run(s, fates, ops)) && Accepted(Run(s, fates, ops).trace)
  {
    InitialFits(s);
    RunKeeps(s, fates, ops);
  }
}

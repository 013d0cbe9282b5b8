/** What no operation ever takes back: the history, the list of resources with their recovery
    coordinators, and the population of participants. */
module Growth {
  import opened OtsTypes
  import opened Participants
  import opened CoordinatorSpec

  predicate SameResource(a: Entry, b: Entry) {
    a.r == b.r && a.rc == b.rc
  }

  predicate Grows(s: Sys, t: Sys) {
    && s.trace <= t.trace
    && |s.entries| <= |t.entries|
    && (forall i | 0 <= i < |s.entries| :: SameResource(s.entries[i], t.entries[i]))
    && t.parts.Keys == s.parts.Keys && s.nextRc <= t.nextRc
  }

  /** No participant was given another recovery coordinator. */
  predicate Remembers(s: Sys, t: Sys) {
    forall r | r in s.parts && r in t.parts :: t.parts[r].recoveryCoordinator == s.parts[r].recoveryCoordinator
  }

  /** Growth that adds no resource and no synchronization object. */
  predicate GrowsInPlace(s: Sys, t: Sys) {
    Grows(s, t) && |t.entries| == |s.entries| && t.syncs == s.syncs && Remembers(s, t)
  }

  lemma CallGrows(s: Sys, fates: Fates, req: Request, r: Ref)
    ensures Grows(s, Call(s, fates, req, r).0)
    ensures !req.SetRecoveryCoordinator? ==> GrowsInPlace(s, Call(s, fates, req, r).0)
  {
    hide Serve, Issued;
    if r in s.parts {
      match fates(|s.trace|)
      case NotExecuted(_) =>
      case Delivered(db) => ServeRemembers(s.parts[r], req, db);
      case ReplyLost(db, _) => ServeRemembers(s.parts[r], req, db);
    }
  }

  lemma ServeRemembers(p: Participant, req: Request, db: Database)
    ensures !req.SetRecoveryCoordinator? ==> Serve(p, req, db).0.recoveryCoordinator == p.recoveryCoordinator
  {
  }

  lemma InPlaceOn(s: Sys, t: Sys, u: Sys)
    requires GrowsInPlace(s, t) && GrowsInPlace(t, u)
    ensures GrowsInPlace(s, u)
  {
  }

  lemma SetVoteGrows(s: Sys, t: Sys, i: nat, rv: ResourceVote)
    requires GrowsInPlace(s, t) && i < |t.entries|
    ensures GrowsInPlace(s, SetVoteAt(t, i, rv))
  {
  }

  lemma ChangeVoteGrows(s: Sys, t: Sys, r: Ref, rv: ResourceVote)
    requires GrowsInPlace(s, t)
    ensures GrowsInPlace(s, ChangeResourceVote(t, r, rv))
  {
  }

  lemma MarkingGrows(s: Sys, t: Sys, to: Status)
    requires GrowsInPlace(s, t)
    ensures GrowsInPlace(s, SetStatus(t, to))
  {
  }

  lemma NothingGrows(s: Sys)
    ensures GrowsInPlace(s, s)
  {
  }

  lemma {:induction false} PrepareGrows(s: Sys, fates: Fates, i: nat)
    ensures GrowsInPlace(s, PrepareFrom(s, fates, i).0)
    decreases |s.entries| - i
  {
    hide Call, GrowsInPlace;
    NothingGrows(s);
    if i < |s.entries| && s.status != StatusMarkedRollback {
      CallGrows(s, fates, Prepare, s.entries[i].r);
      var (t, reply) := Call(s, fates, Prepare, s.entries[i].r);
      var u := SetVoteAt(t, i,
        if reply == Voted(VoteCommit) then RvVoteCommit
        else if reply == Voted(VoteReadOnly) then RvVoteReadOnly
        else RvRolledBack);
      SetVoteGrows(s, t, i, u.entries[i].rv);
      match VoteCounted(reply)
      case None =>
      case Some(VoteRollback) =>
        MarkingGrows(s, u, StatusMarkedRollback);
        PrepareGrows(SetStatus(u, StatusMarkedRollback), fates, i + 1);
        InPlaceOn(s, SetStatus(u, StatusMarkedRollback), PrepareFrom(s, fates, i).0);
      case Some(_) =>
        PrepareGrows(u, fates, i + 1);
        InPlaceOn(s, u, PrepareFrom(s, fates, i).0);
    }
  }

  lemma {:induction false} SweepGrows(s: Sys, fates: Fates, pass: Pass, i: nat, heuristics: bool)
    ensures GrowsInPlace(s, Sweep(s, fates, pass, i, heuristics).0)
    decreases |s.entries| - i
  {
    hide Call, GrowsInPlace;
    NothingGrows(s);
    if i < |s.entries| {
      var r := s.entries[i].r;
      CallGrows(s, fates, PassRequest(pass), r);
      var (t, reply) := Call(s, fates, PassRequest(pass), r);
      var u := ChangeResourceVote(t, r, Settled(pass));
      ChangeVoteGrows(s, t, r, Settled(pass));
      hide ChangeResourceVote;
      if !Eligible(pass, s.entries[i].rv) {
        SweepGrows(s, fates, pass, i + 1, heuristics);
      } else if reply == Done {
        SweepGrows(u, fates, pass, i + 1, heuristics);
        InPlaceOn(s, u, Sweep(u, fates, pass, i + 1, heuristics).0);
      } else if Forgiven(pass, reply) {
        SweepGrows(t, fates, pass, i + 1, true);
        InPlaceOn(s, t, Sweep(t, fates, pass, i + 1, true).0);
      }
    }
  }

  lemma {:induction false} BeforeGrows(s: Sys, i: nat)
    ensures BeforeFrom(s, i) == s.(trace := BeforeFrom(s, i).trace) && s.trace <= BeforeFrom(s, i).trace
    decreases |s.syncs| - i
  {
    if i < |s.syncs| {
      BeforeGrows(Emit(s, BeforeCompletion(s.syncs[i])), i + 1);
    }
  }

  lemma {:induction false} AfterGrows(s: Sys, i: nat)
    ensures AfterFrom(s, i) == s.(trace := AfterFrom(s, i).trace) && s.trace <= AfterFrom(s, i).trace
    decreases |s.syncs| - i
  {
    if i < |s.syncs| {
      AfterGrows(Emit(s, AfterCompletion(s.syncs[i], s.status)), i + 1);
    }
  }

  lemma RegisterGrows(s: Sys, fates: Fates, r: Ref)
    ensures Grows(s, Register(s, fates, r).0)
  {
    hide Call;
    var (s1, _) := Call(s, fates, Forget, r);
    CallGrows(s, fates, Forget, r);
    CallGrows(s1, fates, BeginTrans, r);
    var (s2, _) := Call(s1, fates, BeginTrans, r);
    CallGrows(s2.(nextRc := s2.nextRc + 1), fates, SetRecoveryCoordinator(s2.nextRc), r);
  }

  /** The end of the transaction, with and without notification. */
  lemma EndingGrows(s: Sys, t: Sys)
    requires GrowsInPlace(s, t)
    ensures GrowsInPlace(s, SetStatus(t, StatusNoTransaction))
    ensures GrowsInPlace(s, AfterFrom(SetStatus(t, StatusNoTransaction), 0))
  {
    AfterGrows(SetStatus(t, StatusNoTransaction), 0);
  }

  lemma RollbackGrows(s: Sys, fates: Fates)
    ensures GrowsInPlace(s, RollbackTransaction(s, fates).0)
  {
    hide GrowsInPlace, Sweep, AfterFrom;
    NothingGrows(s);
    MarkingGrows(s, s, StatusRollingBack);
    var s0 := SetStatus(s, StatusRollingBack);
    hide SetStatus;
    SweepGrows(s0, fates, FirstRollback, 0, false);
    var s1 := Sweep(s0, fates, FirstRollback, 0, false).0;
    InPlaceOn(s, s0, s1);
    EndingGrows(s, s1);
    SweepGrows(s, fates, RetryRollback, 0, false);
    EndingGrows(s, Sweep(s, fates, RetryRollback, 0, false).0);
  }

  lemma TwoPhaseGrows(s: Sys, fates: Fates, report: bool)
    ensures GrowsInPlace(s, TwoPhase(s, fates, report).0)
  {
    var s0 := SetStatus(s, StatusPreparing);
    PrepareGrows(s0, fates, 0);
    var s1 := PrepareFrom(s0, fates, 0).0;
    RollbackGrows(s1, fates);
    CommitPreparedGrows(s1, fates, report);
  }

  lemma CommitPreparedGrows(s: Sys, fates: Fates, report: bool)
    ensures GrowsInPlace(s, CommitPrepared(s, fates, report).0)
  {
    var s0 := SetStatus(s, StatusCommitting);
    SweepGrows(s0, fates, FirstCommit, 0, false);
    AfterGrows(SetStatus(Sweep(s0, fates, FirstCommit, 0, false).0, StatusNoTransaction), 0);
  }

  lemma CommitGrows(s: Sys, fates: Fates, report: bool)
    ensures GrowsInPlace(s, CommitTransaction(s, fates, report).0)
  {
    match s.status
    case StatusActive =>
      BeforeGrows(s, 0);
      var s1 := BeforeFrom(s, 0);
      if |s1.entries| == 1 {
        CallGrows(s1, fates, CommitOnePhase, s1.entries[0].r);
      } else if |s1.entries| > 1 {
        TwoPhaseGrows(s1, fates, report);
      }
    case StatusMarkedRollback => RollbackGrows(s, fates);
    case StatusCommitting => SweepGrows(s, fates, RetryCommit, 0, false);
    case _ =>
  }

  lemma StepGrows(s: Sys, fates: Fates, op: Op)
    ensures Grows(s, Step(s, fates, op).0)
  {
    match op
    case OpRegister(r) => RegisterGrows(s, fates, r);
    case OpCommit(report) => CommitGrows(s, fates, report);
    case OpRollback => RollbackGrows(s, fates);
    case _ =>
  }

  lemma {:induction false} RunGrows(s: Sys, fates: Fates, ops: seq<Op>)
    ensures Grows(s, Run(s, fates, ops))
    decreases |ops|
  {
    if ops != [] {
      StepGrows(s, fates, ops[0]);
      RunGrows(Step(s, fates, ops[0]).0, fates, ops[1..]);
    }
  }
}

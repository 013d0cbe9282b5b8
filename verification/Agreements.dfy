/** Agreements between parts of the coordinator: registration and lookup, one phase and two, and
    synchronization objects and resources. */
module Agreements {
  import opened OtsTypes
  import opened Participants
  import opened CoordinatorSpec
  import opened Protocol
  import opened Invariant
  import opened Runs
  import opened Growth
  import opened Histories
  import opened Passes
  import opened Outcomes

  // ------------------------------------------------------------------
  // Registration
  // ------------------------------------------------------------------

  /** A resource once registered is found for good: whatever happens in between, registering it
      again changes nothing and returns the same recovery coordinator. */
  lemma RegisteredForGood(s: Sys, fates: Fates, r: Ref, later: Fates, ops: seq<Op>)
    requires Resting(s) && Register(s, fates, r).1 == Returned
    ensures var (s1, _, rc) := Register(s, fates, r);
            var t := Run(s1, later, ops);
            rc != None && (t.status == StatusActive ==> Register(t, later, r) == (t, Returned, rc))
  {
    StepKeeps(s, fates, OpRegister(r));
    RegistrationFound(s, fates, r);
    hide Inv, Step;
    var (s1, _, rc) := Register(s, fates, r);
    RunKeeps(s1, later, ops);
    RunGrows(s1, later, ops);
    var t, i := Run(s1, later, ops), Find(s1.entries, r);
    InvIsDistinct(t);
    FindAt(t.entries, i);
  }

  lemma RegistrationFound(s: Sys, fates: Fates, r: Ref)
    requires Inv(s) && Register(s, fates, r).1 == Returned
    ensures var (s1, _, rc) := Register(s, fates, r);
            var i := Find(s1.entries, r);
            i < |s1.entries| && s1.entries[i].r == r && rc == Some(s1.entries[i].rc)
  {
    hide Serve, Issued, Inv;
    if s.status == StatusActive && Find(s.entries, r) == |s.entries| {
      var (s1, _, rc) := Enlist(s, fates, r);
      assert s1.entries[..|s.entries|] == s.entries && s1.entries[|s.entries|] == Entry(r, rc.value, RvNotPrepared);
      LastIsFound(s.entries, s1.entries, r);
    }
  }

  lemma LastIsFound(a: seq<Entry>, b: seq<Entry>, r: Ref)
    requires |b| == |a| + 1 && b[..|a|] == a && b[|a|].r == r && Find(a, r) == |a|
    ensures Find(b, r) == |a|
  {
    assert forall j | 0 <= j < |a| :: b[j] == b[..|a|][j];
  }

  /** In every reachable state the search by resource and the position at which a loop stands agree. */
  lemma SearchIsPosition(s: Sys, i: nat, rv: ResourceVote)
    requires Inv(s) && i < |s.entries|
    ensures ChangeResourceVote(s, s.entries[i].r, rv) == SetVoteAt(s, i, rv)
  {
    InvIsDistinct(s);
    FindAt(s.entries, i);
  }

  /** The history of a registration that goes through. */
  predicate Enrolment(news: seq<Event>, r: Ref, rc: nat) {
    && |news| == 4
    && news[0] == Called(Forget, r, Done, []) && news[1] == Called(BeginTrans, r, Began(true), [])
    && news[2] == Called(SetRecoveryCoordinator(rc), r, Done, []) && news[3] == Joined(r)
  }

  /** A new registration is all or nothing: the resource is listed, with a new recovery coordinator,
      exactly if the call returns normally, which is exactly if the resource was told to forget, has
      begun its transaction and has stored the recovery coordinator, in this order; otherwise the
      list is unchanged and the calls stop at the first one that fails. */
  lemma RegistrationIsAllOrNothing(s: Sys, fates: Fates, r: Ref)
    requires s.status == StatusActive && Find(s.entries, r) == |s.entries|
    ensures var (t, end, rc) := Register(s, fates, r);
            && s.trace <= t.trace
            && (end == Returned <==> Enrolment(News(s, t), r, s.nextRc))
            && t.entries == s.entries + (if end == Returned then [Entry(r, s.nextRc, RvNotPrepared)] else [])
            && rc == (if end == Returned then Some(s.nextRc) else None)
            && (end != Returned ==>
                  && 1 <= |News(s, t)| <= 3
                  && forall m | 0 <= m < |News(s, t)| - 1 :: News(s, t)[m].Called? && !News(s, t)[m].reply.Failed?)
  {
    hide Call;
    var (s1, forgot) := Call(s, fates, Forget, r);
    EnlistAnswer(s, fates, Forget, r);
    var t := Register(s, fates, r).0;
    if forgot.Failed? {
      assert News(s, t) == [Called(Forget, r, forgot, [])];
    } else {
      var (s2, began) := Call(s1, fates, BeginTrans, r);
      EnlistAnswer(s1, fates, BeginTrans, r);
      if began.Failed? || began == Began(false) {
        assert News(s, t) == [Called(Forget, r, forgot, []), Called(BeginTrans, r, began, [])];
      } else {
        var (s3, told) := Call(s2.(nextRc := s.nextRc + 1), fates, SetRecoveryCoordinator(s.nextRc), r);
        EnlistAnswer(s2.(nextRc := s.nextRc + 1), fates, SetRecoveryCoordinator(s.nextRc), r);
        var calls := [Called(Forget, r, forgot, []), Called(BeginTrans, r, began, []),
                      Called(SetRecoveryCoordinator(s.nextRc), r, told, [])];
        assert News(s, t) == calls + if told.Failed? then [] else [Joined(r)];
      }
    }
  }

  lemma EnlistAnswer(s: Sys, fates: Fates, req: Request, r: Ref)
    requires Enlists(req)
    ensures var (t, reply) := Call(s, fates, req, r);
            && t.trace == s.trace + [Called(req, r, reply, [])]
            && (reply.Failed? || reply == (if req == BeginTrans then Began(reply.Began? && reply.ok) else Done))
  {
  }

  /** Every listed resource has been told the recovery coordinator that is listed with it, and no
      two share one. */
  predicate Introduced(s: Sys) {
    && (forall i | 0 <= i < |s.entries| ::
          && s.entries[i].r in s.parts && s.parts[s.entries[i].r].recoveryCoordinator == Some(s.entries[i].rc)
          && s.entries[i].rc < s.nextRc)
    && (forall i, j | 0 <= i < j < |s.entries| :: s.entries[i].rc != s.entries[j].rc)
  }

  lemma StaysIntroduced(s: Sys, t: Sys)
    requires Introduced(s) && GrowsInPlace(s, t)
    ensures Introduced(t)
  {
    forall i | 0 <= i < |t.entries|
      ensures t.entries[i].r in t.parts && t.entries[i].rc < t.nextRc
      ensures t.parts[t.entries[i].r].recoveryCoordinator == Some(t.entries[i].rc)
    {
      assert SameResource(s.entries[i], t.entries[i]);
    }
  }

  /** The last call of a registration tells the resource, and touches nobody else. */
  lemma ToldCoordinator(s: Sys, fates: Fates, rc: nat, r: Ref)
    ensures var (t, reply) := Call(s, fates, SetRecoveryCoordinator(rc), r);
            && t.parts.Keys == s.parts.Keys && (forall x | x in s.parts && x != r :: t.parts[x] == s.parts[x])
            && (!reply.Failed? ==> r in t.parts && t.parts[r].recoveryCoordinator == Some(rc))
  {
  }

  lemma EnlistIntroduces(s: Sys, fates: Fates, r: Ref)
    requires Introduced(s) && Find(s.entries, r) == |s.entries|
    ensures Introduced(Enlist(s, fates, r).0)
  {
    hide Call, Grows, GrowsInPlace, Introduced, Introduce;
    CallGrows(s, fates, Forget, r);
    var s1 := Call(s, fates, Forget, r).0;
    CallGrows(s1, fates, BeginTrans, r);
    var s2 := Call(s1, fates, BeginTrans, r).0;
    StaysIntroduced(s, s1);
    StaysIntroduced(s1, s2);
    IntroduceIntroduces(s2, fates, r);
  }

  lemma IntroduceIntroduces(s: Sys, fates: Fates, r: Ref)
    requires Introduced(s) && Find(s.entries, r) == |s.entries|
    ensures Introduced(Introduce(s, fates, r).0)
  {
    ToldCoordinator(s.(nextRc := s.nextRc + 1), fates, s.nextRc, r);
    hide Serve, Issued;
  }

  lemma StepIntroduces(s: Sys, fates: Fates, op: Op)
    requires Introduced(s)
    ensures Introduced(Step(s, fates, op).0)
  {
    hide GrowsInPlace, CommitTransaction, RollbackTransaction, Enlist;
    match op
    case OpRegister(r) =>
      if Find(s.entries, r) == |s.entries| {
        EnlistIntroduces(s, fates, r);
      }
    case OpCommit(report) =>
      CommitGrows(s, fates, report);
      StaysIntroduced(s, Step(s, fates, op).0);
    case OpRollback =>
      RollbackGrows(s, fates);
      StaysIntroduced(s, Step(s, fates, op).0);
    case _ =>
  }

  /** Registration holds what recovery needs: in every reachable state every listed resource knows
      its own recovery coordinator, whatever was lost on the way. */
  lemma {:induction false} EveryResourceIsIntroduced(s: Sys, fates: Fates, ops: seq<Op>)
    requires Introduced(s)
    ensures Introduced(Run(s, fates, ops))
    decreases |ops|
  {
    if ops != [] {
      StepIntroduces(s, fates, ops[0]);
      EveryResourceIsIntroduced(Step(s, fates, ops[0]).0, fates, ops[1..]);
    }
  }

  // ------------------------------------------------------------------
  // One phase and two phases
  // ------------------------------------------------------------------

  /** The answer of a one-phase commit, in terms of what the database says. */
  lemma OnePhaseAnswer(p: Participant, db: Database)
    requires Consistent(p) && p.status == StatusActive
    ensures var reply := CommitOnePhaseOf(p, db).1;
            && (reply == Done <==> db.prepareResult == 0 || (db.prepareResult != -1 && db.commitOk))
            && (reply == Refused(TransactionRolledBack) <==> db.prepareResult == -1)
            && (reply == Refused(HeuristicRollback) <==> db.prepareResult !in {-1, 0} && !db.commitOk)
  {
  }

  predicate Alone(s: Sys) {
    && s.status == StatusActive && |s.entries| == 1 && s.entries[0].rv == RvNotPrepared
    && s.entries[0].r in s.parts && s.parts[s.entries[0].r].status == StatusActive
  }

  function Always(db: Database): Fates {
    n => Delivered(db)
  }

  /** The two-phase loops on a list of one, when everything is delivered. */
  lemma TwoPhasesAlone(s: Sys, db: Database, report: bool)
    requires Alone(s)
    ensures var (t, end) := TwoPhase(s, Always(db), report);
            var r := s.entries[0].r;
            var q := PrepareOf(s.parts[r], db).0;
            var rollback := db.prepareResult == -1;
            && r in t.parts && t.parts[r] == (if rollback then q else CommitOf(q, db).0)
            && end == if rollback then Raised(TransactionRolledBack)
                      else if db.commitOk then Returned else Raised(HeuristicRollback)
  {
    var r, F := s.entries[0].r, Always(db);
    var s0 := SetStatus(s, StatusPreparing);
    var s1 := Call(s0, F, Prepare, r).0;
    var vote := ClassifyVote(db.prepareResult);
    if vote == VoteRollback {
      var s2 := SetStatus(SetVoteAt(s1, 0, RvRolledBack), StatusMarkedRollback);
      assert PrepareFrom(s0, F, 0) == PrepareFrom(s2, F, 1) == (s2, Returned);
      AloneRolledBack(s2, F);
    } else {
      var s2 := SetVoteAt(s1, 0, if vote == VoteCommit then RvVoteCommit else RvVoteReadOnly);
      assert PrepareFrom(s0, F, 0) == PrepareFrom(s2, F, 1) == (s2, Returned);
      AloneCommitted(s2, db, report);
    }
  }

  lemma AloneRolledBack(s: Sys, fates: Fates)
    requires s.status == StatusMarkedRollback && |s.entries| == 1 && s.entries[0].rv == RvRolledBack
    ensures var (t, end) := RollbackInstead(s, fates); t.parts == s.parts && end == Raised(TransactionRolledBack)
  {
    var s0 := SetStatus(s, StatusRollingBack);
    assert Sweep(s0, fates, FirstRollback, 0, false) == Sweep(s0, fates, FirstRollback, 1, false)
        == (s0, false, Returned);
    AfterGrows(SetStatus(s0, StatusNoTransaction), 0);
  }

  lemma AloneCommitted(s: Sys, db: Database, report: bool)
    requires s.status == StatusPreparing && |s.entries| == 1 && FavourableVote(s.entries[0].rv)
    requires s.entries[0].r in s.parts && s.parts[s.entries[0].r].status == StatusPrepared
    ensures var (t, end) := CommitPrepared(s, Always(db), report);
            && s.entries[0].r in t.parts && t.parts[s.entries[0].r] == CommitOf(s.parts[s.entries[0].r], db).0
            && end == if db.commitOk then Returned else Raised(HeuristicRollback)
  {
    var r, F := s.entries[0].r, Always(db);
    var s0 := SetStatus(s, StatusCommitting);
    var s1 := Call(s0, F, Commit, r).0;
    if db.commitOk {
      var s2 := SetVoteAt(s1, 0, RvCommitted);
      assert Sweep(s0, F, FirstCommit, 0, false) == Sweep(s2, F, FirstCommit, 1, false) == (s2, false, Returned);
      AfterGrows(SetStatus(s2, StatusNoTransaction), 0);
    } else {
      assert Sweep(s0, F, FirstCommit, 0, false) == (s1, false, Raised(HeuristicRollback));
    }
  }

  /** One-phase agreement. On a list of one, committing in one phase and running the two-phase loops
      end alike for the caller exactly unless the resource votes read-only and its commit would
      fail; and they leave the same commands at the participant exactly if it votes commit: a
      read-only voter is made to commit, and a rollback voter is left prepared, only by the loops. */
  lemma OnePhaseAgreement(s: Sys, db: Database, report: bool)
    requires Alone(s) && Consistent(s.parts[s.entries[0].r])
    ensures var r := s.entries[0].r;
            var (one, end1) := CommitOnlyResource(s, Always(db), report);
            var (two, end2) := TwoPhase(s, Always(db), report);
            && r in one.parts && r in two.parts
            && (end1 == end2 <==> db.prepareResult != 0 || db.commitOk)
            && (one.parts[r].commands == two.parts[r].commands <==> db.prepareResult !in {-1, 0})
  {
    var r := s.entries[0].r;
    TwoPhasesAlone(s, db, report);
    TwoPhaseGrows(s, Always(db), report);
    OnePhaseAnswer(s.parts[r], db);
    var one := CommitOnlyResource(s, Always(db), report).0;
    assert one.parts[r] == CommitOnePhaseOf(s.parts[r], db).0;
  }

  // ------------------------------------------------------------------
  // Synchronization
  // ------------------------------------------------------------------

  function BeforeCalls(syncs: seq<Sync>, i: nat): seq<Event>
    requires i <= |syncs|
  {
    seq(|syncs| - i, k requires 0 <= k < |syncs| - i => BeforeCompletion(syncs[i + k]))
  }

  lemma {:induction false} BeforeTrace(s: Sys, i: nat)
    requires i <= |s.syncs|
    ensures BeforeFrom(s, i) == s.(trace := s.trace + BeforeCalls(s.syncs, i))
    decreases |s.syncs| - i
  {
    if i < |s.syncs| {
      var t := Emit(s, BeforeCompletion(s.syncs[i]));
      BeforeTrace(t, i + 1);
      assert BeforeCalls(s.syncs, i) == [BeforeCompletion(s.syncs[i])] + BeforeCalls(s.syncs, i + 1);
      assert t.trace + BeforeCalls(s.syncs, i + 1) == s.trace + BeforeCalls(s.syncs, i);
    } else {
      assert s.trace + BeforeCalls(s.syncs, i) == s.trace;
    }
  }

  /** Nothing is announced once the status has left Active. */
  lemma AnnouncedWhileActive(trace: seq<Event>, j: nat, k: nat)
    requires Accepted(trace) && j <= k < |trace| && StatusAfter(trace, j) != StatusActive
    ensures !trace[k].BeforeCompletion?
  {
    StatusMovesForward(trace, j, k);
    AcceptedAt(trace, k);
  }

  /** A commit that goes through the two phases announces nothing any more. */
  lemma TwoPhaseAnnouncesNothing(s: Sys, fates: Fates, report: bool)
    requires Inv(s) && s.status == StatusActive && |s.entries| >= 2
    ensures var t := TwoPhase(s, fates, report).0;
            s.trace <= t.trace && forall k | |s.trace| <= k < |t.trace| :: !t.trace[k].BeforeCompletion?
  {
    hide Fits, Read;
    var t, n := TwoPhase(s, fates, report).0, |s.trace|;
    var s0 := SetStatus(s, StatusPreparing);
    TwoPhaseKeeps(s, fates, report);
    TwoPhaseStarts(s, fates, report);
    StepToPreparing(s);
    forall k | n <= k < |t.trace| ensures !t.trace[k].BeforeCompletion? {
      if k > n {
        assert t.trace[..n + 1] == s0.trace;
        ReadsStatus(s0);
        AnnouncedWhileActive(t.trace, n + 1, k);
      }
    }
  }

  lemma TwoPhaseStarts(s: Sys, fates: Fates, report: bool)
    ensures var t := TwoPhase(s, fates, report).0;
            && |t.trace| > |s.trace| && SetStatus(s, StatusPreparing).trace <= t.trace
            && t.trace[|s.trace|] == StatusSet(StatusPreparing)
  {
    hide PrepareFrom, RollbackTransaction, CommitPrepared;
    var s0 := SetStatus(s, StatusPreparing);
    PrepareGrows(s0, fates, 0);
    var s1 := PrepareFrom(s0, fates, 0).0;
    RollbackGrows(s1, fates);
    CommitPreparedGrows(s1, fates, report);
  }

  /** The before_completion pass: a commit of an Active transaction first visits every registered
      object once, in order of registration, and announces nothing after that. */
  lemma BeforePassComesFirst(s: Sys, fates: Fates, report: bool)
    requires Inv(s) && s.status == StatusActive
    ensures var t := CommitTransaction(s, fates, report).0;
            && s.trace + BeforeCalls(SyncsJoined(s.trace), 0) <= t.trace
            && forall k | |s.trace| + |SyncsJoined(s.trace)| <= k < |t.trace| :: !t.trace[k].BeforeCompletion?
  {
    SyncsAreJoined(s);
    hide Inv, CommitListed, SyncsJoined, BeforeFrom;
    BeforeTrace(s, 0);
    BeforeKeeps(s, 0);
    ListedAnnouncesNothing(BeforeFrom(s, 0), fates, report);
  }

  lemma ListedAnnouncesNothing(s: Sys, fates: Fates, report: bool)
    requires Inv(s) && s.status == StatusActive
    ensures var t := CommitListed(s, fates, report).0;
            s.trace <= t.trace && forall k | |s.trace| <= k < |t.trace| :: !t.trace[k].BeforeCompletion?
  {
    hide Inv, TwoPhase, Serve, Issued;
    if |s.entries| >= 2 {
      TwoPhaseAnnouncesNothing(s, fates, report);
    }
  }

  lemma SyncsAreJoined(s: Sys)
    requires Inv(s)
    ensures s.syncs == SyncsJoined(s.trace)
  {
    AfterPassIsOne(s.trace);
  }
}

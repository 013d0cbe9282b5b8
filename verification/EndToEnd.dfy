/** From a failing call to the end of the transaction: call trees and the coordinator together. */
module EndToEnd {
  import opened OtsTypes
  import opened CoordinatorSpec
  import opened Invariant
  import opened Runs
  import opened Growth
  import opened Histories
  import opened Passes
  import opened Outcomes
  import opened Atomicity
  import opened Blocking
  import opened Interceptors
  import opened Assurances
  import opened Pitfalls
  import opened CallTrees

  /** What one happening asks of the coordinator of transaction c. */
  function Asks(h: Happening, c: ControlId): seq<Op> {
    match h
    case Enrolled(x, r) => if x == c then [OpRegister(r)] else []
    case Marked(x) => if x == c then [OpRollbackOnly] else []
    case _ => []
  }

  function OpsFor(log: seq<Happening>, c: ControlId): seq<Op> {
    if log == [] then [] else Asks(log[0], c) + OpsFor(log[1..], c)
  }

  /** Registrations and marking: no operation that ends a transaction. */
  predicate Mild(ops: seq<Op>) {
    forall k | 0 <= k < |ops| :: ops[k].OpRegister? || ops[k].OpRollbackOnly?
  }

  predicate AsksToMark(ops: seq<Op>) {
    exists k | 0 <= k < |ops| :: ops[k].OpRollbackOnly?
  }

  lemma AsksToMarkParts(a: seq<Op>, b: seq<Op>)
    ensures AsksToMark(a + b) <==> AsksToMark(a) || AsksToMark(b)
  {
    assert forall k | 0 <= k < |a| :: a[k] == (a + b)[k];
    assert forall k | 0 <= k < |b| :: b[k] == (a + b)[|a| + k];
    assert forall k | |a| <= k < |a + b| :: (a + b)[k] == b[k - |a|];
  }

  lemma {:induction false} OpsForShape(log: seq<Happening>, c: ControlId)
    ensures Mild(OpsFor(log, c)) && (AsksToMark(OpsFor(log, c)) <==> HasMark(log, c))
    decreases |log|
  {
    if log != [] {
      OpsForShape(log[1..], c);
      assert log == [log[0]] + log[1..];
      Joint([log[0]], log[1..], c);
      Single(log[0], c);
      AsksToMarkParts(Asks(log[0], c), OpsFor(log[1..], c));
      AsksShape(log[0], c);
    }
  }

  lemma AsksShape(h: Happening, c: ControlId)
    ensures Mild(Asks(h, c)) && (AsksToMark(Asks(h, c)) <==> IsMark(c, h))
  {
    if IsMark(c, h) {
      assert Asks(h, c)[0].OpRollbackOnly?;
    }
  }

  predicate StillOpen(s: Sys) {
    s.status == StatusActive || s.status == StatusMarkedRollback
  }

  lemma MildStep(s: Sys, fates: Fates, op: Op)
    requires StillOpen(s) && (op.OpRegister? || op.OpRollbackOnly?)
    ensures var t := Step(s, fates, op).0;
            t.status == if op.OpRollbackOnly? then StatusMarkedRollback else s.status
  {
  }

  lemma {:induction false} MildRun(s: Sys, fates: Fates, ops: seq<Op>)
    requires StillOpen(s) && Mild(ops)
    ensures StillOpen(Run(s, fates, ops))
    ensures Run(s, fates, ops).status == StatusMarkedRollback <==> s.status == StatusMarkedRollback || AsksToMark(ops)
    decreases |ops|
  {
    if ops != [] {
      MildStep(s, fates, ops[0]);
      hide Step;
      MildRun(Step(s, fates, ops[0]).0, fates, ops[1..]);
      assert ops == [ops[0]] + ops[1..];
      AsksToMarkParts([ops[0]], ops[1..]);
      assert [ops[0]][0] == ops[0];
    }
  }

  /** The state of the transaction after a call, through any tree of servers. */
  function AfterInvoke(s: Sys, fates: Fates, c: ControlId, n: Server): Sys {
    Run(s, fates, OpsFor(Invoke(Some(c), n).0, c))
  }

  /** While a transaction is not being ended, a call leaves it marked if and only if it was marked
      before or some call within it fails and an interceptor gets through to the coordinator. */
  lemma FailureMarks(s: Sys, fates: Fates, c: ControlId, n: Server)
    requires Resting(s) && StillOpen(s)
    ensures var u := AfterInvoke(s, fates, c, n);
            && Resting(u) && StillOpen(u) && s.trace <= u.trace
            && (u.status == StatusMarkedRollback <==>
                  s.status == StatusMarkedRollback || HasNoticedFailure(Invoke(Some(c), n).0, c))
  {
    var log := Invoke(Some(c), n).0;
    hide Inv, Invoke, Step;
    MarkedIffSomeCallFails(Some(c), n, c);
    OpsForShape(log, c);
    RunKeeps(s, fates, OpsFor(log, c));
    RunGrows(s, fates, OpsFor(log, c));
    MildRun(s, fates, OpsFor(log, c));
  }

  /** From a marked state on, whatever is called, only rollbacks are sent to resources; and no commit
      message was sent before. */
  lemma MarkedIsDoomed(s: Sys, fates: Fates, ops: seq<Op>)
    requires Resting(s) && s.status == StatusMarkedRollback
    ensures var t := Run(s, fates, ops);
            && s.trace <= t.trace && NeverSent(t.trace, Commit)
            && (forall j | |s.trace| <= j < |t.trace| && t.trace[j].Called? :: t.trace[j].req == Rollback)
  {
    RunKeeps(s, fates, ops);
    RunGrows(s, fates, ops);
    var t := Run(s, fates, ops);
    assert t.trace[..|s.trace|] == s.trace;
    ReadsStatus(s);
    AcceptedNow(t);
    DoomedNeverCommits(t.trace, |s.trace|);
  }

  /** The commit of a marked transaction that runs to its end: every registered resource was sent
      rollback, in order and once, and the caller gets TRANSACTION_ROLLEDBACK if all of them
      answered normally, and HeuristicHazard otherwise. */
  predicate RolledBackForAll(s: Sys, t: Sys, end: Outcome) {
    var calls := Calls(News(s, t));
    && s.trace <= t.trace && |t.entries| == |s.entries|
    && AllRequests(calls, Rollback) && Contacted(calls) == Refs(s.entries)
    && (end == Raised(TransactionRolledBack) || end == Raised(HeuristicHazard))
    && (end == Raised(TransactionRolledBack) <==> forall j | 0 <= j < |t.entries| :: t.entries[j].rv == RvRolledBack)
  }

  lemma FullRollback(before: seq<Entry>, after: seq<Entry>, calls: seq<Event>, flag: bool)
    requires FullPass(FirstRollback, before, after, calls, flag) && NobodyVoted(before)
    ensures |after| == |before| && AllRequests(calls, Rollback) && Contacted(calls) == Refs(before)
    ensures flag <==> exists j | 0 <= j < |after| :: after[j].rv != RvRolledBack
  {
    EverybodyContacted(before, FirstRollback, 0);
    forall j | 0 <= j < |before| ensures Passes.Open(FirstRollback, after[j].rv) <==> after[j].rv != RvRolledBack {
    }
  }

  lemma MarkedCommitRollsBackAll(s: Sys, fates: Fates, report: bool)
    requires Resting(s) && s.status == StatusMarkedRollback
    ensures var (t, end) := CommitTransaction(s, fates, report);
            && (t.status == StatusNoTransaction ==> RolledBackForAll(s, t, end))
            && (t.status != StatusNoTransaction ==>
                  t.status == StatusRollingBack && end != Returned && AllRequests(Calls(News(s, t)), Rollback))
  {
    hide Inv, RollbackTransaction, Calls, News, FullPass;
    RollbackOutcome(s, fates);
    var (t, end) := RollbackTransaction(s, fates);
    if t.status == StatusNoTransaction {
      FullRollback(s.entries, t.entries, Calls(News(s, t)), end == Raised(HeuristicHazard));
    }
  }

  /** If calls fail only in the two tolerated ways, that commit does run to its end. */
  lemma MarkedCommitEnds(s: Sys, fates: Fates, report: bool)
    requires Ready(s) && AllBenign(fates) && s.status == StatusMarkedRollback
    ensures var (t, end) := CommitTransaction(s, fates, report); RolledBackForAll(s, t, end)
  {
    hide Inv, CommitTransaction, RolledBackForAll, AllBenign, Waitless, NobodyAborted;
    ReadyStep(s, fates, OpCommit(report));
    MarkedCommitRollsBackAll(s, fates, report);
  }

  /** End-to-end doom. A call within the transaction fails, however deep in the tree, and an
      interceptor gets through to the coordinator; then, whatever the clients do next, nobody is ever
      sent commit; and as soon as the originator commits, every registered resource is sent rollback
      and the originator is told. */
  lemma FailureDooms(s: Sys, fates: Fates, c: ControlId, n: Server,
                     later: Fates, ops: seq<Op>, last: Fates, report: bool)
    requires Resting(s) && StillOpen(s) && HasNoticedFailure(Invoke(Some(c), n).0, c)
    ensures var u := AfterInvoke(s, fates, c, n);
            var t := Run(u, later, ops);
            var (v, end) := CommitTransaction(t, last, report);
            && NeverSent(t.trace, Commit)
            && (forall j | |u.trace| <= j < |t.trace| && t.trace[j].Called? :: t.trace[j].req == Rollback)
            && (t.status == StatusMarkedRollback && v.status == StatusNoTransaction ==> RolledBackForAll(t, v, end))
            && (t.status == StatusMarkedRollback && v.status != StatusNoTransaction ==>
                  v.status == StatusRollingBack && end != Returned && AllRequests(Calls(News(t, v)), Rollback))
  {
    hide Inv, Invoke, HasNoticedFailure, CommitTransaction, RolledBackForAll, AfterInvoke, Run, NeverSent;
    FailureMarks(s, fates, c, n);
    var u := AfterInvoke(s, fates, c, n);
    MarkedIsDoomed(u, later, ops);
    RunKeeps(u, later, ops);
    var t := Run(u, later, ops);
    if t.status == StatusMarkedRollback {
      MarkedCommitRollsBackAll(t, last, report);
    }
  }

  // ------------------------------------------------------------------
  // A failure that nobody hears of
  // ------------------------------------------------------------------

  /** A server that registers two resources and fails, when both interceptors fail to get through. */
  function UnnoticedFailure(a: Ref, b: Ref): Server {
    Server(None, Some(REQUIRES), [Enlists(a), Enlists(b)], SYSTEM_EXCEPTION, Arrives,
           Marking(Arrives, RequestLost), Marking(RequestLost, Arrives))
  }

  lemma UnnoticedOps(a: Ref, b: Ref, c: ControlId)
    ensures OpsFor(Invoke(Some(c), UnnoticedFailure(a, b)).0, c) == [OpRegister(a), OpRegister(b)]
  {
    var n, slot := UnnoticedFailure(a, b), Some(c);
    assert Do(slot, n, 2) == ([], true);
    assert Do(slot, n, 1).0 == [Enrolled(c, b)] + [];
    assert Do(slot, n, 0) == ([Enrolled(c, a)] + ([Enrolled(c, b)] + []), true);
    var rest := [Enrolled(c, b)] + ([Answered(REQUIRES, slot, n)] + []);
    assert Invoke(slot, n).0 == [Serving(REQUIRES, slot, slot)] + ([Enrolled(c, a)] + rest);
    OpsForFirst(Serving(REQUIRES, slot, slot), [Enrolled(c, a)] + rest, c);
    OpsForFirst(Enrolled(c, a), rest, c);
    OpsForFirst(Enrolled(c, b), [Answered(REQUIRES, slot, n)] + [], c);
    OpsForFirst(Answered(REQUIRES, slot, n), [], c);
  }

  lemma OpsForFirst(h: Happening, log: seq<Happening>, c: ControlId)
    ensures OpsFor([h] + log, c) == Asks(h, c) + OpsFor(log, c)
  {
    assert ([h] + log)[1..] == log;
  }

  /** The condition on the interceptors is needed: a server in the middle of a call tree fails, its
      failure is reported to the caller, and the commit that follows succeeds at every resource. */
  lemma FailureCanGoUnnoticed(s: Sys, c: ControlId, a: Ref, b: Ref, report: bool)
    requires Initial(s) && a in s.parts && b in s.parts && a != b
    ensures var n := UnnoticedFailure(a, b);
            var u := AfterInvoke(s, AllIsWell(), c, n);
            var (t, end) := CommitTransaction(u, AllIsWell(), report);
            && FailsAtServer(n) && FailsAtCaller(n) && u.status == StatusActive
            && end == Returned && HasApplied(t, a) && HasApplied(t, b)
  {
    hide Inv, CommitTransaction, Invoke, Run;
    UnnoticedOps(a, b, c);
    TwoRegistered(s, AllIsWell(), a, b);
    TwoPrepared(Run(s, AllIsWell(), [OpRegister(a), OpRegister(b)]), AllIsWell(), report);
  }
}

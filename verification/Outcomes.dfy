/** How commit and rollback end: who was contacted, what the list says afterwards, and which
    exception the caller gets. */
module Outcomes {
  import opened OtsTypes
  import opened Participants
  import opened CoordinatorSpec
  import opened Protocol
  import opened Invariant
  import opened Runs
  import opened Growth
  import opened Passes

  // ------------------------------------------------------------------
  // What follows a pass
  // ------------------------------------------------------------------

  /** The requests to resources among a stretch of history. */
  function Calls(news: seq<Event>): seq<Event> {
    if news == [] then [] else (if news[0].Called? then [news[0]] else []) + Calls(news[1..])
  }

  lemma {:induction false} NoCalls(news: seq<Event>)
    requires forall m | 0 <= m < |news| :: !news[m].Called?
    ensures Calls(news) == []
    decreases |news|
  {
    if news != [] {
      NoCalls(news[1..]);
    }
  }

  lemma {:induction false} OnlyCalls(news: seq<Event>)
    requires forall m | 0 <= m < |news| :: news[m].Called?
    ensures Calls(news) == news
    decreases |news|
  {
    if news != [] {
      OnlyCalls(news[1..]);
      assert news == [news[0]] + news[1..];
    }
  }

  lemma {:induction false} CallsParts(a: seq<Event>, b: seq<Event>)
    ensures Calls(a + b) == Calls(a) + Calls(b)
    decreases |a|
  {
    if a == [] {
      assert a + b == b;
    } else {
      CallsParts(a[1..], b);
      assert (a + b)[1..] == a[1..] + b;
    }
  }

  /** The after_completion calls to the objects from position i on. */
  function AfterCalls(syncs: seq<Sync>, st: Status, i: nat): seq<Event>
    requires i <= |syncs|
  {
    seq(|syncs| - i, k requires 0 <= k < |syncs| - i => AfterCompletion(syncs[i + k], st))
  }

  lemma {:induction false} AfterTrace(s: Sys, i: nat)
    requires i <= |s.syncs|
    ensures AfterFrom(s, i) == s.(trace := s.trace + AfterCalls(s.syncs, s.status, i))
    decreases |s.syncs| - i
  {
    if i < |s.syncs| {
      var t := Emit(s, AfterCompletion(s.syncs[i], s.status));
      AfterTrace(t, i + 1);
      assert AfterCalls(s.syncs, s.status, i) ==
               [AfterCompletion(s.syncs[i], s.status)] + AfterCalls(s.syncs, s.status, i + 1);
      assert t.trace + AfterCalls(s.syncs, s.status, i + 1) == s.trace + AfterCalls(s.syncs, s.status, i);
    } else {
      assert s.trace + AfterCalls(s.syncs, s.status, i) == s.trace;
    }
  }

  /** Moving to NoTransaction, with or without notification, contacts nobody. */
  lemma ClosingCallsNobody(s: Sys, u: Sys)
    requires s.trace <= u.trace
    ensures var t := SetStatus(u, StatusNoTransaction);
            && Calls(News(s, t)) == Calls(News(s, u)) && s.trace <= t.trace
            && Calls(News(s, AfterFrom(t, 0))) == Calls(News(s, u)) && s.trace <= AfterFrom(t, 0).trace
            && t.status == StatusNoTransaction && t.entries == u.entries && t.parts == u.parts
            && AfterFrom(t, 0) == t.(trace := AfterFrom(t, 0).trace)
  {
    var t := SetStatus(u, StatusNoTransaction);
    AfterTrace(t, 0);
    var after, closing := AfterCalls(t.syncs, StatusNoTransaction, 0), [StatusSet(StatusNoTransaction)];
    NoCalls(closing);
    NoCalls(after);
    CallsParts(News(s, u), closing);
    CallsParts(News(s, u) + closing, after);
    assert News(s, t) == News(s, u) + closing;
    assert News(s, AfterFrom(t, 0)) == News(s, u) + closing + after;
  }

  // ------------------------------------------------------------------
  // Repeated commit and rollback
  // ------------------------------------------------------------------

  /** Commit of a committing transaction, or rollback of one that is rolling back. */
  predicate Repeats(s: Sys, pass: Pass) {
    (s.status == StatusCommitting && pass == RetryCommit) || (s.status == StatusRollingBack && pass == RetryRollback)
  }

  function Repeat(s: Sys, fates: Fates, pass: Pass, report: bool): (Sys, Outcome) {
    if pass == RetryCommit then CommitTransaction(s, fates, report) else RollbackTransaction(s, fates)
  }

  /** A repeated call contacts, in order and at most once each, only resources that have not given
      a normal answer yet; a settled entry stays as it is; the number of unsettled ones drops by
      exactly the number of normal answers; and the transaction is over exactly when none is left,
      which is exactly when the call returns normally. */
  predicate Progress(pass: Pass, s: Sys, t: Sys, end: Outcome) {
    var calls := Calls(News(s, t));
    && s.trace <= t.trace
    && PassReport(pass, 0, s.entries, t.entries, calls, end == Returned)
    && Left(t.entries, pass, 0) + Dones(calls) == Left(s.entries, pass, 0)
    && (t.status == StatusNoTransaction <==> end == Returned)
    && (t.status == StatusNoTransaction <==> Left(t.entries, pass, 0) == 0)
    && (t.status != StatusNoTransaction ==> t.status == s.status)
  }

  lemma InvIsDistinct(s: Sys)
    requires Inv(s)
    ensures Distinct(s.entries)
  {
  }

  lemma ReportCounts(pass: Pass, before: seq<Entry>, after: seq<Entry>, news: seq<Event>, complete: bool)
    requires PassReport(pass, 0, before, after, news, complete)
    ensures |news| <= |Contacts(before, pass, 0)| && (complete ==> |news| == |Contacts(before, pass, 0)|)
    ensures Calls(news) == news
  {
    hide Contacts;
    ContactedCounts(news);
    OnlyCalls(news);
  }

  /** Progress of the pass alone. */
  predicate PassProgress(pass: Pass, s: Sys, u: Sys, end: Outcome) {
    var calls := Calls(News(s, u));
    && s.trace <= u.trace
    && PassReport(pass, 0, s.entries, u.entries, calls, end == Returned)
    && Left(u.entries, pass, 0) + Dones(calls) == Left(s.entries, pass, 0)
    && (end == Returned <==> Left(u.entries, pass, 0) == 0)
  }

  lemma ReportedProgress(pass: Pass, s: Sys, u: Sys, h: bool, end: Outcome)
    requires pass == RetryCommit || pass == RetryRollback
    requires Reported(pass, 0, false, s, u, h, end)
    ensures PassProgress(pass, s, u, end)
  {
    LeftAreContacts(s.entries, pass, 0);
    hide Left, PassReport, Calls, Dones, Contacts, News;
    ReportCounts(pass, s.entries, u.entries, News(s, u), end == Returned);
  }

  lemma SweepProgress(s: Sys, fates: Fates, pass: Pass)
    requires Inv(s) && Repeats(s, pass)
    ensures var (u, h, end) := Sweep(s, fates, pass, 0, false); PassProgress(pass, s, u, end) && u.status == s.status
  {
    hide Sweep, Call, Reported, PassProgress;
    InvIsDistinct(s);
    SweepReport(s, fates, pass, 0, false);
    SweepKeeps(s, fates, pass, 0, false);
    var (u, h, end) := Sweep(s, fates, pass, 0, false);
    ReportedProgress(pass, s, u, h, end);
  }

  lemma RepeatUnfolds(s: Sys, fates: Fates, pass: Pass, report: bool)
    requires Repeats(s, pass)
    ensures var (u, _, end) := Sweep(s, fates, pass, 0, false);
            var t := SetStatus(u, StatusNoTransaction);
            Repeat(s, fates, pass, report) ==
              if end != Returned then (u, end) else (if pass == RetryCommit then t else AfterFrom(t, 0), Returned)
  {
  }

  /** Crash-retry progress. */
  lemma RetryProgress(s: Sys, fates: Fates, pass: Pass, report: bool)
    requires Inv(s) && Repeats(s, pass)
    ensures Progress(pass, s, Repeat(s, fates, pass, report).0, Repeat(s, fates, pass, report).1)
  {
    SweepProgress(s, fates, pass);
    hide Inv, Call, Sweep, PassReport, Left, Dones, Calls, News, SetStatus, AfterFrom, Repeat;
    var (u, _, end) := Sweep(s, fates, pass, 0, false);
    ClosingCallsNobody(s, u);
    RepeatUnfolds(s, fates, pass, report);
  }

  // ------------------------------------------------------------------
  // The first rollback
  // ------------------------------------------------------------------

  /** The first pass of a kind has run to its end: everybody it had to contact was contacted, in
      order and once, a vote is settled exactly where the answer was normal, and the flag says
      whether anybody is left unsettled. */
  predicate FullPass(pass: Pass, before: seq<Entry>, after: seq<Entry>, calls: seq<Event>, flag: bool) {
    && PassReport(pass, 0, before, after, calls, true)
    && (flag <==> exists j | 0 <= j < |after| :: Open(pass, after[j].rv))
  }

  lemma FirstPass(s: Sys, fates: Fates, pass: Pass)
    requires Distinct(s.entries) && Clean(s.entries, pass, 0)
    ensures var (u, h, end) := Sweep(s, fates, pass, 0, false);
            && s.trace <= u.trace && Calls(News(s, u)) == News(s, u)
            && (end == Returned ==> FullPass(pass, s.entries, u.entries, Calls(News(s, u)), h))
  {
    hide Call, Sweep, Left, PassReport, Calls, Dones, Contacts;
    SweepReport(s, fates, pass, 0, false);
    LeftAreContacts(s.entries, pass, 0);
    var (u, _, end) := Sweep(s, fates, pass, 0, false);
    ReportCounts(pass, s.entries, u.entries, News(s, u), end == Returned);
    NoneLeft(u.entries, pass, 0);
    SameLength(pass, s.entries, u.entries, News(s, u), end == Returned);
  }

  lemma SameLength(pass: Pass, before: seq<Entry>, after: seq<Entry>, news: seq<Event>, complete: bool)
    requires PassReport(pass, 0, before, after, news, complete)
    ensures |after| == |before|
  {
  }

  /** A rollback that runs to its end: it contacts exactly the commit voters and the never-asked,
      and HeuristicHazard is raised exactly if one of these is left without a normal answer. */
  predicate RolledBackFully(before: seq<Entry>, after: seq<Entry>, calls: seq<Event>, end: Outcome) {
    && (end == Returned || end == Raised(HeuristicHazard))
    && FullPass(FirstRollback, before, after, calls, end == Raised(HeuristicHazard))
  }

  lemma RollbackUnfolds(s: Sys, fates: Fates)
    requires s.status == StatusActive || s.status == StatusMarkedRollback
    ensures var (u, h, end) := Sweep(SetStatus(s, StatusRollingBack), fates, FirstRollback, 0, false);
            var t := SetStatus(u, StatusNoTransaction);
            RollbackTransaction(s, fates) ==
              if end != Returned then (u, end)
              else if h then (t, Raised(HeuristicHazard)) else (AfterFrom(t, 0), Returned)
  {
  }

  /** The pass of a first rollback, before the coordinator moves to NoTransaction. */
  lemma RollbackPass(s: Sys, fates: Fates)
    requires Inv(s) && (s.status == StatusActive || s.status == StatusMarkedRollback)
    ensures var (u, h, end) := Sweep(SetStatus(s, StatusRollingBack), fates, FirstRollback, 0, false);
            && s.trace <= u.trace && u.status == StatusRollingBack && AllRequests(Calls(News(s, u)), Rollback)
            && (end == Returned ==> FullPass(FirstRollback, s.entries, u.entries, Calls(News(s, u)), h))
  {
    InvIsDistinct(s);
    hide Inv, Sweep, Calls, News, FullPass;
    StepToRollingBack(s);
    var s0 := SetStatus(s, StatusRollingBack);
    assert s0.entries == s.entries && s0.status == StatusRollingBack;
    hide SetStatus;
    FirstPass(s0, fates, FirstRollback);
    SweepKeeps(s0, fates, FirstRollback, 0, false);
    SweepAsks(s0, fates, FirstRollback);
    OpeningCallsNobody(s, StatusRollingBack, Sweep(s0, fates, FirstRollback, 0, false).0);
  }

  lemma RollbackOutcome(s: Sys, fates: Fates)
    requires Inv(s) && (s.status == StatusActive || s.status == StatusMarkedRollback)
    ensures var (t, end) := RollbackTransaction(s, fates);
            && s.trace <= t.trace && (t.status == StatusNoTransaction || t.status == StatusRollingBack)
            && (t.status == StatusNoTransaction ==> RolledBackFully(s.entries, t.entries, Calls(News(s, t)), end))
            && (t.status == StatusRollingBack ==> end != Returned && AllRequests(Calls(News(s, t)), Rollback))
  {
    hide Inv, Sweep, Calls, News, SetStatus, AfterFrom, FullPass, RollbackTransaction;
    RollbackUnfolds(s, fates);
    RollbackPass(s, fates);
    ClosingCallsNobody(s, Sweep(SetStatus(s, StatusRollingBack), fates, FirstRollback, 0, false).0);
  }

  lemma SweepAsks(s: Sys, fates: Fates, pass: Pass)
    requires Distinct(s.entries)
    ensures var u := Sweep(s, fates, pass, 0, false).0; AllRequests(Calls(News(s, u)), PassRequest(pass))
  {
    SweepReport(s, fates, pass, 0, false);
    OnlyCalls(News(s, Sweep(s, fates, pass, 0, false).0));
  }

  /** A change of status in front of a stretch of history adds no request to it. */
  lemma OpeningCallsNobody(s: Sys, to: Status, u: Sys)
    requires SetStatus(s, to).trace <= u.trace
    ensures s.trace <= u.trace && Calls(News(s, u)) == Calls(News(SetStatus(s, to), u))
  {
    var t := SetStatus(s, to);
    assert News(s, u) == [StatusSet(to)] + News(t, u);
    NoCalls([StatusSet(to)]);
    CallsParts([StatusSet(to)], News(t, u));
  }

  // ------------------------------------------------------------------
  // The first phase
  // ------------------------------------------------------------------

  /** Votes when the resource at position k is the one that stopped the first phase. */
  predicate StoppedAt(entries: seq<Entry>, k: nat) {
    k < |entries| && forall j | 0 <= j < |entries| ::
      if j < k then FavourableVote(entries[j].rv)
      else if j == k then entries[j].rv == RvRolledBack
      else entries[j].rv == RvNotPrepared
  }

  predicate VotedUpTo(entries: seq<Entry>, k: nat) {
    k <= |entries| && forall j | 0 <= j < |entries| ::
      if j < k then FavourableVote(entries[j].rv) else entries[j].rv == RvNotPrepared
  }

  /** An answer to prepare that is not counted as a vote ends the operation. */
  lemma UncountedEscapes(s: Sys, fates: Fates, r: Ref)
    ensures var reply := Call(s, fates, Prepare, r).1; VoteCounted(reply) == None ==> Escape(reply) != Returned
  {
  }

  lemma {:induction false} PrepareShape(s: Sys, fates: Fates, i: nat)
    requires s.status == StatusPreparing && VotedUpTo(s.entries, i)
    ensures var (t, end) := PrepareFrom(s, fates, i);
            && (t.status == StatusMarkedRollback ==> end == Returned && exists k :: i <= k && StoppedAt(t.entries, k))
            && (t.status == StatusPreparing && end == Returned ==> VotedUpTo(t.entries, |t.entries|))
            && (t.status == StatusPreparing && end != Returned ==> exists k :: i <= k && VotedUpTo(t.entries, k))
            && (t.status == StatusMarkedRollback || t.status == StatusPreparing)
    decreases |s.entries| - i
  {
    hide Serve, Issued;
    if i < |s.entries| {
      var (t, reply) := Call(s, fates, Prepare, s.entries[i].r);
      match VoteCounted(reply)
      case None =>
        UncountedEscapes(s, fates, s.entries[i].r);
        assert VotedUpTo(t.entries, i);
      case Some(VoteCommit) => PrepareShape(SetVoteAt(t, i, RvVoteCommit), fates, i + 1);
      case Some(VoteReadOnly) => PrepareShape(SetVoteAt(t, i, RvVoteReadOnly), fates, i + 1);
      case Some(VoteRollback) => assert StoppedAt(SetVoteAt(t, i, RvRolledBack).entries, i);
    }
  }

  /** The first phase of a commit with two or more resources. */
  function FirstPhase(s: Sys, fates: Fates): (Sys, Outcome) {
    PrepareFrom(SetStatus(BeforeFrom(s, 0), StatusPreparing), fates, 0)
  }

  lemma FirstPhaseKeeps(s: Sys, fates: Fates)
    requires Inv(s) && s.status == StatusActive && |s.entries| >= 2
    ensures var (t, end) := FirstPhase(s, fates);
            && Inv(t) && (t.status == StatusPreparing || t.status == StatusMarkedRollback)
            && (t.status == StatusPreparing && end == Returned ==>
                  Read(t.trace).favourable && |Read(t.trace).prepared| == |t.entries|)
            && (end != Returned ==> t.status == StatusPreparing)
  {
    hide Read, Fits, PrepareFrom;
    BeforeKeeps(s, 0);
    StepToPreparing(BeforeFrom(s, 0));
    PrepareKeeps(SetStatus(BeforeFrom(s, 0), StatusPreparing), fates, 0);
  }

  lemma FirstPhaseShape(s: Sys, fates: Fates)
    requires Inv(s) && s.status == StatusActive && |s.entries| >= 2
    ensures var (t, end) := FirstPhase(s, fates);
            && (t.status == StatusMarkedRollback ==> end == Returned && exists k :: StoppedAt(t.entries, k))
            && (t.status == StatusPreparing && end == Returned ==> VotedUpTo(t.entries, |t.entries|))
  {
    BeforeGrows(s, 0);
    assert VotedUpTo(s.entries, 0);
    PrepareShape(SetStatus(BeforeFrom(s, 0), StatusPreparing), fates, 0);
  }

  lemma CommitUnfolds(s: Sys, fates: Fates, report: bool)
    requires s.status == StatusActive && |s.entries| >= 2
    ensures var (p, end) := FirstPhase(s, fates);
            CommitTransaction(s, fates, report) ==
              if end != Returned then (p, end)
              else if p.status == StatusMarkedRollback then RollbackInstead(p, fates)
              else CommitPrepared(p, fates, report)
  {
    BeforeGrows(s, 0);
  }

  /** The abort shape. When the first phase stops at a rollback vote, given or assumed, the entries
      before it hold favourable votes, it is entered as rolled back, and the later ones were never
      asked. The rollback then contacts exactly the commit voters before it and the never-asked
      after it, in order and once each, and commit raises HeuristicHazard if one of these is left
      without a normal answer, and TRANSACTION_ROLLEDBACK if none is. */
  lemma AbortShape(s: Sys, fates: Fates, report: bool)
    requires Inv(s) && s.status == StatusActive && |s.entries| >= 2
    requires FirstPhase(s, fates).0.status == StatusMarkedRollback
    ensures var p := FirstPhase(s, fates).0;
            var (t, end) := CommitTransaction(s, fates, report);
            && (exists k :: StoppedAt(p.entries, k))
            && (t.status == StatusNoTransaction || t.status == StatusRollingBack)
            && (t.status == StatusNoTransaction ==>
                  && (end == Raised(TransactionRolledBack) || end == Raised(HeuristicHazard))
                  && FullPass(FirstRollback, p.entries, t.entries, Calls(News(p, t)), end == Raised(HeuristicHazard)))
  {
    hide Inv, FirstPhase, RollbackTransaction, CommitTransaction, CommitPrepared, Calls, News, FullPass, StoppedAt;
    FirstPhaseKeeps(s, fates);
    FirstPhaseShape(s, fates);
    CommitUnfolds(s, fates, report);
    RollbackOutcome(FirstPhase(s, fates).0, fates);
  }

  // ------------------------------------------------------------------
  // The first commit
  // ------------------------------------------------------------------

  lemma {:induction false} EverybodyContacted(entries: seq<Entry>, pass: Pass, i: nat)
    requires i <= |entries| && forall j | i <= j < |entries| :: Eligible(pass, entries[j].rv)
    ensures Contacts(entries, pass, i) == Refs(entries)[i..]
    decreases |entries| - i
  {
    if i < |entries| {
      EverybodyContacted(entries, pass, i + 1);
      assert Refs(entries)[i..] == [entries[i].r] + Refs(entries)[i + 1..];
    }
  }

  /** A first commit pass that has run to its end: everybody was sent commit, in order and once; an
      entry is Committed exactly if its answer was normal; and HeuristicHazard is raised exactly if
      reports were asked for and some entry is not Committed. */
  predicate CommittedFully(before: seq<Entry>, after: seq<Entry>, calls: seq<Event>, report: bool, end: Outcome) {
    && |after| == |before| && AllRequests(calls, Commit) && Contacted(calls) == Refs(before)
    && (forall j | 0 <= j < |before| :: after[j].rv == RvCommitted <==> SaidDone(calls, before[j].r))
    && end == if report && exists j | 0 <= j < |after| :: after[j].rv != RvCommitted then Raised(HeuristicHazard)
              else Returned
  }

  lemma FullCommitPass(before: seq<Entry>, after: seq<Entry>, calls: seq<Event>, flag: bool, report: bool)
    requires FullPass(FirstCommit, before, after, calls, flag) && VotedUpTo(before, |before|)
    ensures CommittedFully(before, after, calls, report, if report && flag then Raised(HeuristicHazard) else Returned)
  {
    EverybodyContacted(before, FirstCommit, 0);
    forall j | 0 <= j < |before| ensures Open(FirstCommit, after[j].rv) <==> after[j].rv != RvCommitted {
    }
    forall j | 0 <= j < |before| ensures after[j].rv == RvCommitted <==> SaidDone(calls, before[j].r) {
    }
  }

  lemma CommitPass(s: Sys, fates: Fates)
    requires Inv(s) && s.status == StatusPreparing && VotedUpTo(s.entries, |s.entries|)
    requires Read(s.trace).favourable && |Read(s.trace).prepared| == |s.entries|
    ensures var (u, h, end) := Sweep(SetStatus(s, StatusCommitting), fates, FirstCommit, 0, false);
            && s.trace <= u.trace && u.status == StatusCommitting
            && (end == Returned ==> FullPass(FirstCommit, s.entries, u.entries, Calls(News(s, u)), h))
  {
    InvIsDistinct(s);
    hide Inv, Sweep, Calls, News, FullPass, Read;
    StepToCommitting(s);
    var s0 := SetStatus(s, StatusCommitting);
    assert s0.entries == s.entries && s0.status == StatusCommitting;
    hide SetStatus;
    FirstPass(s0, fates, FirstCommit);
    SweepKeeps(s0, fates, FirstCommit, 0, false);
    OpeningCallsNobody(s, StatusCommitting, Sweep(s0, fates, FirstCommit, 0, false).0);
  }

  /** Exact heuristic reporting: the other end of a commit with two or more resources. */
  lemma CommitReport(s: Sys, fates: Fates, report: bool)
    requires Inv(s) && s.status == StatusActive && |s.entries| >= 2
    requires FirstPhase(s, fates).0.status == StatusPreparing
    ensures var (p, voted) := FirstPhase(s, fates);
            var (t, end) := CommitTransaction(s, fates, report);
            && (voted != Returned ==> t == p && end == voted)
            && (voted == Returned ==>
                  t.status == StatusNoTransaction || (t.status == StatusCommitting && end != Returned))
            && (t.status == StatusNoTransaction ==>
                  CommittedFully(p.entries, t.entries, Calls(News(p, t)), report, end))
  {
    FirstPhaseKeeps(s, fates);
    FirstPhaseShape(s, fates);
    CommitUnfolds(s, fates, report);
    var (p, voted) := FirstPhase(s, fates);
    hide Inv, FirstPhase, CommitTransaction, Sweep, Calls, News, FullPass, Read, VotedUpTo, SetStatus;
    hide AfterFrom, CommittedFully;
    if voted == Returned {
      CommitPass(p, fates);
      var (u, h, end) := Sweep(SetStatus(p, StatusCommitting), fates, FirstCommit, 0, false);
      ClosingCallsNobody(p, u);
      if end == Returned {
        FullCommitPass(p.entries, u.entries, Calls(News(p, u)), h, report);
      }
    }
  }
}

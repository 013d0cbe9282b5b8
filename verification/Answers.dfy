/** What the coordinator answers when it refuses, fails or succeeds: each exception with its exact
    cause, and what a client may conclude from it. */
module Answers {
  import opened OtsTypes
  import opened Participants
  import opened CoordinatorSpec
  import opened Invariant
  import opened Runs
  import opened Growth
  import opened Histories
  import opened EndToEnd
  import opened Passes
  import opened Outcomes
  import opened Forecasts
  import opened Endings
  import opened Assurances

  // ------------------------------------------------------------------
  // Commit of a single resource
  // ------------------------------------------------------------------

  /** How the commit of a single resource ends, in terms of the commands that its participant has
      issued before and of what happens to the one message. */
  function LoneEnd(before: seq<Command>, fate: Fate, report: bool): Outcome {
    match fate
    case Delivered(db) =>
      if XaRollback in before then Blocked
      else if before != [] || db.prepareResult == -1 then Raised(TransactionRolledBack)
      else if db.prepareResult == 0 || db.commitOk then Returned
      else Raised(HeuristicRollback)
    case ReplyLost(_, e) => LostEnd(e, report)
    case NotExecuted(e) => LostEnd(e, report)
  }

  function LostEnd(e: SystemError, report: bool): Outcome {
    match e
    case ObjectNotExist | CommFailure => if report then Raised(HeuristicHazard) else Returned
    case OtherSystemError => Raised(SystemException(OtherSystemError))
  }

  /** Commit of a single resource foretold in full, whatever happened to it before: the outcome, and what
      its participant passes to the database. In particular HeuristicHazard is raised exactly if heuristics
      are reported and the answer is lost in one of the two tolerated ways. */
  lemma LoneForecast(s: Sys, fates: Fates, report: bool)
    requires Inv(s) && s.status == StatusActive && |s.entries| == 1
    ensures s.entries[0].r in s.parts
    ensures var (t, end) := CommitTransaction(s, fates, report);
            var r, fate := s.entries[0].r, fates(|s.trace| + |s.syncs|);
            var before := s.parts[r].commands;
            && end == LoneEnd(before, fate, report)
            && (end == Raised(HeuristicHazard) <==> report && Forgives(fate))
            && t.status == StatusActive && t.entries == s.entries && t.syncs == s.syncs && r in t.parts
            && t.parts == s.parts[r := t.parts[r]]
            && t.parts[r].commands ==
                 before + if fate.NotExecuted? then [] else LoneCommands(before, fate.db.prepareResult)
  {
    hide Inv, BeforeFrom, CommitTransaction, CommitOnlyResource;
    OnlyOneIsThere(s);
    BeforeGrows(s, 0);
    BeforeLength(s, 0);
    LoneUnfolds(s, fates, report);
    OnlyResourceEnds(BeforeFrom(s, 0), fates, report);
  }

  lemma OnlyResourceEnds(s: Sys, fates: Fates, report: bool)
    requires |s.entries| == 1 && s.entries[0].r in s.parts && Consistent(s.parts[s.entries[0].r])
    ensures var (t, end) := CommitOnlyResource(s, fates, report);
            var r, fate := s.entries[0].r, fates(|s.trace|);
            var before := s.parts[r].commands;
            && end == LoneEnd(before, fate, report)
            && t.status == s.status && t.entries == s.entries && t.syncs == s.syncs && r in t.parts
            && t.parts == s.parts[r := t.parts[r]]
            && t.parts[r].commands ==
                 before + if fate.NotExecuted? then [] else LoneCommands(before, fate.db.prepareResult)
  {
    hide CommitOnePhaseOf, Issued, LoneCommands, Consistent;
    var r := s.entries[0].r;
    assert s.parts == s.parts[r := s.parts[r]];
    assert s.parts[r].commands + [] == s.parts[r].commands;
    match fates(|s.trace|)
    case NotExecuted(_) =>
    case Delivered(db) => OnePhaseByCommands(s.parts[r], db);
    case ReplyLost(db, _) => OnePhaseByCommands(s.parts[r], db);
  }

  // ------------------------------------------------------------------
  // Passes that stop
  // ------------------------------------------------------------------

  /** The only ways in which a message stops a pass. */
  lemma StopAnswer(p: Participant, pass: Pass, fate: Fate)
    requires Consistent(p) && !Smooth(p, pass, fate)
    ensures var end := StopEnd(p, pass, fate);
            && (end == Blocked <==> fate.Delivered? && XaRollback in p.commands)
            && (end == Raised(NotPrepared) <==> fate.Delivered? && Commits(pass) && p.commands == [])
            && (end == Raised(HeuristicRollback) <==>
                  fate.Delivered? && Commits(pass) && p.commands == [XaPrepare] && !fate.db.commitOk)
            && (end.Raised? && end.ex.SystemException? <==> !fate.Delivered?)
            && (!fate.Delivered? ==>
                  end == Raised(SystemException(fate.error))
                  && (pass == FirstCommit || pass == FirstRollback ==> fate.error == OtherSystemError))
            && (end == Blocked || end == Raised(NotPrepared) || end == Raised(HeuristicRollback)
                || (end.Raised? && end.ex.SystemException?))
  {
  }

  /** The commit message j of a first pass that starts at n is the first to stop it: it is executed, its
      answer arrives and the database has failed, or it fails with an error that is not tolerated. */
  predicate Stops(fates: Fates, n: nat, j: nat) {
    if fates(n + j).Delivered? then !fates(n + j).db.commitOk else fates(n + j).error == OtherSystemError
  }

  predicate FirstToStop(fates: Fates, n: nat, j: nat) {
    Stops(fates, n, j) && forall i | 0 <= i < j :: !Stops(fates, n, i)
  }

  lemma {:induction false} StopAfterSmooth(entries: seq<Entry>, parts: map<Ref, Participant>, fates: Fates,
                                           n: nat, i: nat, j: nat)
    requires WellListed(entries, parts) && AllPrepared(entries, parts) && i <= j < |entries|
    requires forall k | 0 <= k < |entries| :: Eligible(FirstCommit, entries[k].rv)
    requires Stops(fates, n, j) && forall k | i <= k < j :: !Stops(fates, n, k)
    ensures StopOf(entries, parts, fates, FirstCommit, n + |entries|, i) == j
    decreases j - i
  {
    hide Eligible, FateAt, Smooth, WellListed;
    MessagesInOrder(entries, fates, FirstCommit, n, i);
    PreparedAnswers(parts[entries[i].r], fates(n + i));
    if i < j {
      assert !Stops(fates, n, i);
      StopAfterSmooth(entries, parts, fates, n, i + 1, j);
    }
  }

  /** A unanimous commit whose pass is stopped by message j: the caller is told that this resource has
      rolled back, although its xacommit was issued, or gets the system exception; and the transaction
      stays Committing. */
  lemma StoppedCommit(s: Sys, fates: Fates, report: bool, j: nat)
    requires Inv(s) && s.status == StatusActive && |s.entries| >= 2 && PhaseOf(s, fates).AllFavour?
    requires j < |s.entries| && FirstToStop(fates, CommitsFrom(s), j)
    ensures var (t, end) := CommitTransaction(s, fates, report); var fate := fates(CommitsFrom(s) + j);
            && t.status == StatusCommitting
            && end == Raised(if fate.Delivered? then HeuristicRollback else SystemException(OtherSystemError))
  {
    hide Inv, CommitTransaction, PhaseOf, VotesOf, PartsOf, StopOf, FateAt, PassEffect, Contacts, SomeLost, WellListed;
    hide VotedUpTo, Eligible, StopEnd;
    CommitForecast(s, fates, report);
    FavouredIsPrepared(s, fates);
    var entries, parts := VotesOf(s, fates), PartsOf(s, fates);
    FavourableContacted(entries, FirstCommit);
    StopAfterSmooth(entries, parts, fates, CommitsFrom(s), 0, j);
    MessagesInOrder(entries, fates, FirstCommit, CommitsFrom(s), j);
    PreparedStops(parts[entries[j].r], fates(CommitsFrom(s) + j));
  }

  lemma PreparedStops(p: Participant, fate: Fate)
    requires Consistent(p) && p.status == StatusPrepared
    ensures fate.Delivered? && !fate.db.commitOk ==> StopEnd(p, FirstCommit, fate) == Raised(HeuristicRollback)
    ensures !fate.Delivered? ==> StopEnd(p, FirstCommit, fate) == Raised(SystemException(fate.error))
  {
  }

  // ------------------------------------------------------------------
  // Registration
  // ------------------------------------------------------------------

  /** What happens to the message to a resource, also if the reference leads nowhere. */
  function FateOf(s: Sys, fates: Fates, r: Ref, n: nat): Fate {
    if r in s.parts then fates(n) else NotExecuted(ObjectNotExist)
  }

  /** The exception of a registration whose three messages, forget, BeginTrans and
      set_recoverycoordinator, have these fates. */
  function EnlistError(forget: Fate, begin: Fate, tell: Fate): Option<Exception> {
    if !forget.Delivered? then Some(SystemException(forget.error))
    else if !begin.Delivered? then Some(SystemException(begin.error))
    else if !begin.db.beginOk then Some(Inactive)
    else if !tell.Delivered? then Some(SystemException(tell.error))
    else None
  }

  lemma NewcomerForecast(s: Sys, fates: Fates, r: Ref)
    requires s.status == StatusActive && Find(s.entries, r) == |s.entries|
    ensures var (t, end, rc) := Register(s, fates, r); var n := |s.trace|;
            match EnlistError(FateOf(s, fates, r, n), FateOf(s, fates, r, n + 1), FateOf(s, fates, r, n + 2))
            case Some(ex) => end == Raised(ex) && rc == None && t.entries == s.entries
            case None =>
              end == Returned && rc == Some(s.nextRc) && t.entries == s.entries + [Entry(r, s.nextRc, RvNotPrepared)]
  {
    hide Issued;
  }

  /** Registration in every situation, with every answer. It is refused with TRANSACTION_ROLLEDBACK if and
      only if the transaction is marked, and with Inactive if and only if it is being ended or is over, or
      the database of a new resource does not begin. */
  lemma RegistrationForecast(s: Sys, fates: Fates, r: Ref)
    requires Resting(s)
    ensures var (t, end, rc) := Register(s, fates, r); var n, i := |s.trace|, Find(s.entries, r);
            var error := EnlistError(FateOf(s, fates, r, n), FateOf(s, fates, r, n + 1), FateOf(s, fates, r, n + 2));
            && t.status == s.status && (s.status != StatusActive ==> t == s && rc == None)
            && (end == Raised(TransactionRolledBack) <==> s.status == StatusMarkedRollback)
            && (end == Raised(Inactive) <==>
                  || s.status in {StatusPreparing, StatusCommitting, StatusRollingBack, StatusNoTransaction}
                  || (s.status == StatusActive && i == |s.entries| && error == Some(Inactive)))
            && (forall e :: end == Raised(SystemException(e)) <==>
                  s.status == StatusActive && i == |s.entries| && error == Some(SystemException(e)))
            && (end == Returned <==> s.status == StatusActive && (i < |s.entries| || error == None))
            && (end == Returned ==>
                  if i < |s.entries| then t == s && rc == Some(s.entries[i].rc)
                  else rc == Some(s.nextRc) && t.entries == s.entries + [Entry(r, s.nextRc, RvNotPrepared)])
            && (end != Returned ==> rc == None && t.entries == s.entries)
  {
    StatusesReached(s);
    hide Inv, Enlist;
    if s.status == StatusActive && Find(s.entries, r) == |s.entries| {
      NewcomerForecast(s, fates, r);
      NewcomerStaysActive(s, fates, r);
    }
  }

  lemma NewcomerStaysActive(s: Sys, fates: Fates, r: Ref)
    ensures Register(s, fates, r).0.status == s.status
  {
  }

  /** Who is refused with TRANSACTION_ROLLEDBACK may rely on it: nobody has been sent commit, nor ever will
      be, whatever is called. */
  lemma RefusalMeansRollback(s: Sys, fates: Fates, r: Ref, later: Fates, ops: seq<Op>)
    requires Resting(s) && Register(s, fates, r).1 == Raised(TransactionRolledBack)
    ensures NeverSent(Run(Register(s, fates, r).0, later, ops).trace, Commit)
  {
    hide Inv, Register, Run, NeverSent;
    RegistrationForecast(s, fates, r);
    MarkedIsDoomed(s, later, ops);
  }

  /** Once a transaction is not Active, nobody can join, whatever is called: the list keeps its length,
      and every registration is refused. */
  lemma {:induction false} RegistrationIsClosed(s: Sys, fates: Fates, ops: seq<Op>, r: Ref)
    requires Resting(s) && s.status != StatusActive
    ensures var t := Run(s, fates, ops); var end := Register(t, fates, r).1;
            && |t.entries| == |s.entries| && t.status != StatusActive
            && (end == Raised(Inactive) || (end == Raised(TransactionRolledBack) && t == s))
    decreases |ops|
  {
    hide Inv, Step;
    if ops == [] {
      RegistrationForecast(s, fates, r);
    } else {
      StepKeeps(s, fates, ops[0]);
      ClosedStays(s, fates, ops[0]);
      RegistrationIsClosed(Step(s, fates, ops[0]).0, fates, ops[1..], r);
    }
  }

  lemma ClosedStays(s: Sys, fates: Fates, op: Op)
    requires Resting(s) && s.status != StatusActive
    ensures var t := Step(s, fates, op).0;
            && |t.entries| == |s.entries| && t.status != StatusActive
            && (t == s || t.status != StatusMarkedRollback)
  {
    hide Inv, CommitTransaction, RollbackTransaction;
    match op
    case OpCommit(report) =>
      CommitGrows(s, fates, report);
      CommitKeeps(s, fates, report);
      ClosedCommit(s, fates, report);
    case OpRollback =>
      RollbackGrows(s, fates);
      RollbackKeeps(s, fates);
    case _ =>
  }

  lemma ClosedCommit(s: Sys, fates: Fates, report: bool)
    requires Resting(s) && s.status != StatusActive
    ensures CommitTransaction(s, fates, report).0.status != StatusActive
  {
    hide Inv, Sweep, RollbackTransaction;
    RollbackKeeps(s, fates);
    if s.status == StatusCommitting {
      FinishRollback(s, fates, RetryCommit);
    }
  }

  // ------------------------------------------------------------------
  // rollback_only and synchronization
  // ------------------------------------------------------------------

  /** rollback_only returns normally if and only if the transaction is marked from then on, which takes
      one that was not being ended; otherwise it raises Inactive and changes nothing. */
  lemma RollbackOnlyIff(s: Sys, fates: Fates)
    requires Resting(s)
    ensures var (t, end) := Step(s, fates, OpRollbackOnly);
            && (end == Returned <==> t.status == StatusMarkedRollback)
            && (end == Returned <==> s.status == StatusActive || s.status == StatusMarkedRollback)
            && (end == Returned ==> t.entries == s.entries && t.parts == s.parts && t.syncs == s.syncs)
            && (end != Returned ==> end == Raised(Inactive) && t == s)
  {
  }

  /** Who is told that a transaction is marked may rely on it: nobody has been sent commit, nor ever will
      be; and a first commit never returns normally. */
  lemma MarkingIsReliable(s: Sys, fates: Fates, later: Fates, ops: seq<Op>, report: bool)
    requires Resting(s) && Step(s, fates, OpRollbackOnly).1 == Returned
    ensures var t := Step(s, fates, OpRollbackOnly).0;
            && NeverSent(Run(t, later, ops).trace, Commit)
            && CommitTransaction(t, later, report).1 != Returned
  {
    hide Inv, Run, NeverSent, CommitTransaction;
    RollbackOnlyIff(s, fates);
    StepKeeps(s, fates, OpRollbackOnly);
    MarkedIsDoomed(Step(s, fates, OpRollbackOnly).0, later, ops);
    MarkedCommitRollsBackAll(Step(s, fates, OpRollbackOnly).0, later, report);
  }

  /** register_synchronization is accepted if and only if the transaction is Active; then the object is the
      last of those registered, and otherwise it raises Inactive and changes nothing. */
  lemma SyncAcceptedIff(s: Sys, fates: Fates, x: Sync)
    requires Resting(s)
    ensures var (t, end) := Step(s, fates, OpRegisterSync(x));
            && (end == Returned <==> s.status == StatusActive)
            && (end == Returned ==> SyncsJoined(t.trace) == SyncsJoined(s.trace) + [x] && t.parts == s.parts)
            && (end != Returned ==> end == Raised(Inactive) && t == s)
  {
    if s.status == StatusActive {
      assert (s.trace + [SyncJoined(x)])[..|s.trace|] == s.trace;
    }
  }
}

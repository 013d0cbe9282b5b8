/** What commit and rollback write to the recovery file, when recovery is compiled in: the coordinator
    and the file together. */
module Journal {
  import opened OtsTypes
  import opened CoordinatorSpec
  import opened Invariant
  import opened Runs
  import opened Outcomes
  import opened Forecasts
  import opened Endings
  import opened Participants
  import opened Notifications
  import opened Assurances
  import opened Pitfalls
  import opened Doubts
  import opened RecoveryLog
  import opened RecoveryRuns

  /** The accesses of a rollback whose record gets ticket h. The record is closed after the pass. */
  function RollbackJournal(s: Sys, fates: Fates, h: nat): seq<LogOp> {
    if (s.status == StatusActive || s.status == StatusMarkedRollback) && s.entries != [] then
      [DoOpenRollback(Refs(s.entries))]
      + if RollbackTransaction(s, fates).0.status == StatusNoTransaction then [DoClose(h)] else []
    else []
  }

  /** The accesses of a commit whose first record gets ticket h. An exception skips what comes after
      it, and a first phase that stops goes over to rollback without closing the record. */
  function CommitJournal(s: Sys, fates: Fates, report: bool, h: nat): seq<LogOp> {
    var (t, end) := CommitTransaction(s, fates, report);
    match s.status
    case StatusActive =>
      if s.entries == [] then []
      else if |s.entries| == 1 then
        [DoOpenCommit(Refs(s.entries))] + if end == Returned then [DoClose(h)] else []
      else
        var (p, voted) := FirstPhase(s, fates);
        [DoOpenCommit(Refs(s.entries))]
        + if voted != Returned then []
          else if p.status == StatusMarkedRollback then RollbackJournal(p, fates, h + 1)
          else [DoDecide(h)] + if t.status == StatusNoTransaction then [DoClose(h)] else []
    case StatusMarkedRollback => RollbackJournal(s, fates, h)
    case _ => []
  }

  // ------------------------------------------------------------------
  // Records that stay
  // ------------------------------------------------------------------

  /** No access names ticket h: nobody else knows the id of a record, and its own call is over. */
  predicate LeavesAlone(ops: seq<LogOp>, h: nat) {
    forall k | 0 <= k < |ops| :: ops[k] != DoDecide(h) && ops[k] != DoClose(h)
  }

  lemma OthersKeepTicket(w: World, op: LogOp, h: nat)
    requires h < |w.tickets| && op != DoDecide(h) && op != DoClose(h)
    ensures h < |Act(w, op).tickets| && Act(w, op).tickets[h] == w.tickets[h]
  {
  }

  lemma {:induction false} BusySlot(recs: seq<Record>, k: nat)
    requires k < |recs| && recs[k].flag != OVER
    ensures Busy(recs) >= 1
    decreases k
  {
    if k > 0 {
      BusySlot(recs[1..], k - 1);
    }
  }

  lemma {:induction false} OthersKeepTickets(w: World, ops: seq<LogOp>, h: nat)
    requires h < |w.tickets| && LeavesAlone(ops, h)
    ensures h < |ActAll(w, ops).tickets| && ActAll(w, ops).tickets[h] == w.tickets[h]
    decreases |ops|
  {
    if ops != [] {
      assert ops[0] != DoDecide(h) && ops[0] != DoClose(h);
      OthersKeepTicket(w, ops[0], h);
      hide Act;
      OthersKeepTickets(Act(w, ops[0]), ops[1..], h);
    }
  }

  /** A record of a commit that nobody closes stays in the file for good, and the header never counts
      down to 0 again. */
  lemma AbandonedForGood(w: World, ops: seq<LogOp>, h: nat)
    requires LogInv(w) && h < |w.tickets| && OnCommitPath(w.tickets[h]) && LeavesAlone(ops, h)
    ensures var v, rec := ActAll(w, ops), w.tickets[h];
            1 <= rec.id <= |v.log.slots| && v.log.slots[rec.id - 1] == rec && v.log.count >= 1
  {
    ActAllKeeps(w, ops);
    OthersKeepTickets(w, ops, h);
    var v := ActAll(w, ops);
    assert Kept(v, h);
    BusySlot(v.log.slots, w.tickets[h].id - 1);
  }

  // ------------------------------------------------------------------
  // Which commits leave one
  // ------------------------------------------------------------------

  lemma ActAllFirst(w: World, op: LogOp, ops: seq<LogOp>)
    ensures ActAll(w, [op] + ops) == ActAll(Act(w, op), ops)
  {
    hide Act;
    assert ([op] + ops)[1..] == ops;
  }

  lemma OpenedTicket(w: World, members: seq<nat>)
    ensures var v := Act(w, DoOpenCommit(members));
            && |v.tickets| == |w.tickets| + 1
            && v.tickets[|w.tickets|].flag == PREPARING && v.tickets[|w.tickets|].members == members
  {
  }

  /** Accesses that begin with a commit record and then leave it alone. */
  lemma LeftPreparing(w: World, members: seq<nat>, ops: seq<LogOp>)
    requires LeavesAlone(ops, |w.tickets|)
    ensures var v, h := ActAll(w, [DoOpenCommit(members)] + ops), |w.tickets|;
            h < |v.tickets| && v.tickets[h].flag == PREPARING && v.tickets[h].members == members
  {
    hide Act;
    ActAllFirst(w, DoOpenCommit(members), ops);
    OpenedTicket(w, members);
    OthersKeepTickets(Act(w, DoOpenCommit(members)), ops, |w.tickets|);
  }

  lemma DecidedTicket(w: World, h: nat, close: bool)
    requires h < |w.tickets| && w.tickets[h].flag == PREPARING
    ensures var v := ActAll(w, [DoDecide(h)] + if close then [DoClose(h)] else []);
            h < |v.tickets| && v.tickets[h].flag == if close then OVER else COMMITTING
  {
    var rest := if close then [DoClose(h)] else [];
    ActAllFirst(w, DoDecide(h), rest);
    if close {
      assert rest == [DoClose(h)] + [];
      ActAllFirst(Act(w, DoDecide(h)), DoClose(h), []);
    }
  }

  lemma ClosedTicket(w: World, h: nat)
    requires h < |w.tickets| && w.tickets[h].flag == PREPARING
    ensures var v := ActAll(w, [DoClose(h)]); h < |v.tickets| && v.tickets[h].flag == OVER
  {
    assert [DoClose(h)] == [DoClose(h)] + [];
    ActAllFirst(w, DoClose(h), []);
  }

  /** Which commits take their record back, in terms of the state before and of the messages. */
  predicate TakesRecordBack(s: Sys, fates: Fates, report: bool)
    requires |s.entries| == 1 ==> s.entries[0].r in s.parts
  {
    if |s.entries| == 1 then LoneReturns(s.parts[s.entries[0].r], fates(|s.trace| + |s.syncs|), report)
    else PhaseOf(s, fates).AllFavour? && AllSmoothCommits(fates, CommitsFrom(s), |s.entries|)
  }

  lemma TakesBackIff(s: Sys, fates: Fates, report: bool)
    requires Inv(s) && s.status == StatusActive && s.entries != []
    ensures |s.entries| == 1 ==> s.entries[0].r in s.parts
    ensures var (t, end) := CommitTransaction(s, fates, report);
            TakesRecordBack(s, fates, report) <==>
              if |s.entries| == 1 then end == Returned
              else PhaseOf(s, fates).AllFavour? && t.status == StatusNoTransaction
  {
    hide Inv, CommitTransaction, PhaseOf, CommitsFrom, LoneReturns, AllSmoothCommits;
    if |s.entries| == 1 {
      LoneReturnsIff(s, fates, report);
    } else {
      CommitEndings(s, fates, report);
    }
  }

  /** The commit of an Active transaction takes its record back if and only if its single resource votes
      read-only or commits and says so, or fails in a forgiven way; or all of several resources vote
      favourably and no message stops the commit pass. One whose commit pass is stopped leaves flag 2, and
      every other leaves flag 1; in particular a commit that falls back to rollback never takes its record
      back. */
  lemma RecordIsClosedIff(w: World, s: Sys, fates: Fates, report: bool)
    requires Resting(s) && s.status == StatusActive && s.entries != []
    ensures |s.entries| == 1 ==> s.entries[0].r in s.parts
    ensures var v, h := ActAll(w, CommitJournal(s, fates, report, |w.tickets|)), |w.tickets|;
            && h < |v.tickets|
            && (v.tickets[h].flag == OVER <==> TakesRecordBack(s, fates, report))
            && (v.tickets[h].flag == COMMITTING <==>
                  |s.entries| >= 2 && PhaseOf(s, fates).AllFavour? && !TakesRecordBack(s, fates, report))
            && (v.tickets[h].flag == PREPARING <==>
                  !TakesRecordBack(s, fates, report) && (|s.entries| == 1 || !PhaseOf(s, fates).AllFavour?))
            && (|s.entries| >= 2 && PhaseOf(s, fates).StopsAt? ==>
                  v.tickets[h].flag == PREPARING && v.tickets[h].members == Refs(s.entries))
  {
    hide Inv, Act, PhaseOf, FirstPhase, CommitTransaction, Refs, RollbackTransaction, LeavesAlone, TakesRecordBack;
    TakesBackIff(s, fates, report);
    var h, open := |w.tickets|, DoOpenCommit(Refs(s.entries));
    OpenedTicket(w, Refs(s.entries));
    NothingLeavesAlone(h);
    LeftPreparing(w, Refs(s.entries), []);
    if |s.entries| == 1 {
      ActAllFirst(w, open, [DoClose(h)]);
      ClosedTicket(Act(w, open), h);
    } else {
      FirstPhaseForecast(s, fates);
      var p, t := FirstPhase(s, fates).0, CommitTransaction(s, fates, report).0;
      RollbackLeavesAlone(p, fates, h);
      LeftPreparing(w, Refs(s.entries), RollbackJournal(p, fates, h + 1));
      var close := t.status == StatusNoTransaction;
      ActAllFirst(w, open, [DoDecide(h)] + if close then [DoClose(h)] else []);
      DecidedTicket(Act(w, open), h, close);
    }
  }

  lemma OpenedRollback(w: World, members: seq<nat>, close: bool)
    ensures var h, ops := |w.tickets|, [DoOpenRollback(members)] + if close then [DoClose(|w.tickets|)] else [];
            var v := ActAll(w, ops);
            && |v.tickets| == h + 1 && v.tickets[h].members == members
            && v.tickets[h].flag == if close then OVER else ROLLING_BACK
  {
    var h := |w.tickets|;
    var rest := if close then [DoClose(h)] else [];
    ActAllFirst(w, DoOpenRollback(members), rest);
    if close {
      assert rest == [DoClose(h)] + [];
      ActAllFirst(Act(w, DoOpenRollback(members)), DoClose(h), []);
    }
  }

  /** The one record that a rollback over this list has added to the file: it says who takes part, and it
      is taken back if and only if no message stops the pass. */
  predicate RecordsRollback(v: World, h: nat, entries: seq<Entry>, parts: map<Ref, Participant>, fates: Fates, n: nat)
    requires WellListed(entries, parts)
  {
    && |v.tickets| == h + 1 && v.tickets[h].members == Refs(entries)
    && v.tickets[h].flag ==
         if StopOf(entries, parts, fates, FirstRollback, n, 0) < |entries| then ROLLING_BACK else OVER
  }

  /** A rollback of a transaction with resources adds such a record, and so does the commit of a marked
      transaction. */
  lemma RollbackRecordIff(w: World, s: Sys, fates: Fates, report: bool)
    requires Inv(s) && (s.status == StatusActive || s.status == StatusMarkedRollback) && s.entries != []
    ensures WellListed(s.entries, s.parts)
    ensures var h, n := |w.tickets|, RollbackUntil(s);
            && RecordsRollback(ActAll(w, RollbackJournal(s, fates, h)), h, s.entries, s.parts, fates, n)
            && (s.status == StatusMarkedRollback ==>
                  RecordsRollback(ActAll(w, CommitJournal(s, fates, report, h)), h, s.entries, s.parts, fates, n))
  {
    hide Inv, RollbackTransaction, Refs, StopOf, PassEffect, RollbackEnd, ActAll, WellListed, CommitTransaction;
    RollbackForecast(s, fates);
    OpenedRollback(w, Refs(s.entries), RollbackTransaction(s, fates).0.status == StatusNoTransaction);
  }

  /** A commit that falls back to rollback adds such a record behind its own. */
  lemma FallbackAddsRecord(w: World, s: Sys, fates: Fates, report: bool, k: nat)
    requires Inv(s) && s.status == StatusActive && |s.entries| >= 2 && PhaseOf(s, fates) == StopsAt(k)
    ensures WellListed(VotesOf(s, fates), PartsOf(s, fates))
    ensures var v, h := ActAll(w, CommitJournal(s, fates, report, |w.tickets|)), |w.tickets|;
            RecordsRollback(v, h + 1, VotesOf(s, fates), PartsOf(s, fates), fates, AbortUntil(s, fates, k))
  {
    hide Inv, Act, PhaseOf, FirstPhase, CommitTransaction, RollbackJournal, VotesOf, PartsOf, WellListed, AbortUntil;
    hide RecordsRollback, RollbackUntil, PhaseEffect, Refs;
    FirstPhaseForecast(s, fates);
    FirstPhaseKeeps(s, fates);
    AbortEndIsTold(s, FirstPhase(s, fates).0, fates, k);
    var p, open := FirstPhase(s, fates).0, DoOpenCommit(Refs(s.entries));
    OpenedTicket(w, Refs(s.entries));
    RollbackRecordIff(Act(w, open), p, fates, report);
    ActAllFirst(w, open, RollbackJournal(p, fates, |w.tickets| + 1));
  }

  /** Transactions without resources, and calls that do not begin to end a transaction, leave the file
      alone. */
  lemma OthersWriteNothing(w: World, s: Sys, fates: Fates, report: bool)
    requires s.entries == [] || (s.status != StatusActive && s.status != StatusMarkedRollback)
    ensures ActAll(w, RollbackJournal(s, fates, |w.tickets|)) == w
    ensures ActAll(w, CommitJournal(s, fates, report, |w.tickets|)) == w
  {
    hide RollbackTransaction, CommitTransaction;
  }

  lemma NothingLeavesAlone(h: nat)
    ensures LeavesAlone([], h)
  {
  }

  lemma RollbackLeavesAlone(s: Sys, fates: Fates, h: nat)
    ensures LeavesAlone(RollbackJournal(s, fates, h + 1), h)
  {
    hide RollbackTransaction;
  }

  /** A commit that falls back to rollback leaves its record for good: after any later accesses it
      still says that the transaction is preparing, and the header still counts it. */
  lemma FallbackLeavesRecord(w: World, s: Sys, fates: Fates, report: bool, ops: seq<LogOp>)
    requires LogInv(w) && Resting(s) && s.status == StatusActive && |s.entries| >= 2 && PhaseOf(s, fates).StopsAt?
    requires LeavesAlone(ops, |w.tickets|)
    ensures var v := ActAll(w, CommitJournal(s, fates, report, |w.tickets|));
            var u := ActAll(v, ops);
            && u.log.count >= 1
            && exists k | 0 <= k < |u.log.slots| ::
                 u.log.slots[k].flag == PREPARING && u.log.slots[k].members == Refs(s.entries)
  {
    hide Inv, LogInv, PhaseOf, CommitJournal, Refs, LeavesAlone;
    RecordIsClosedIff(w, s, fates, report);
    ActAllKeeps(w, CommitJournal(s, fates, report, |w.tickets|));
    AbandonedForGood(ActAll(w, CommitJournal(s, fates, report, |w.tickets|)), ops, |w.tickets|);
  }

  /** It happens: two resources register, the answer to the first prepare is lost, and a new recovery
      file keeps the record of the commit for good. */
  lemma RecordIsLeft(s: Sys, a: Ref, b: Ref, report: bool, ops: seq<LogOp>)
    requires Initial(s) && a in s.parts && b in s.parts && a != b && LeavesAlone(ops, 0)
    ensures var u := Run(s, FirstPrepareUnanswered(), [OpRegister(a), OpRegister(b)]);
            var v := ActAll(ActAll(EMPTY, CommitJournal(u, FirstPrepareUnanswered(), report, 0)), ops);
            && CommitTransaction(u, FirstPrepareUnanswered(), report).0.status == StatusNoTransaction
            && v.log.count >= 1
            && exists k | 0 <= k < |v.log.slots| ::
                 v.log.slots[k].flag == PREPARING && v.log.slots[k].members == [a, b]
  {
    hide CommitTransaction, Inv, Run, CommitJournal, LeavesAlone;
    var F := FirstPrepareUnanswered();
    TwoRegistered(s, F, a, b);
    DoubtAfterAbort(s, a, b, report, F, []);
    var u := Run(s, F, [OpRegister(a), OpRegister(b)]);
    assert Refs(u.entries) == [a, b];
    UnansweredStops(u);
    FallbackLeavesRecord(EMPTY, u, F, report, ops);
  }

  lemma UnansweredStops(s: Sys)
    requires s.entries != [] && |s.trace| == 8 && s.syncs == []
    ensures PhaseOf(s, FirstPrepareUnanswered()).StopsAt?
  {
  }
}

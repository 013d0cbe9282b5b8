/** What an abort leaves at the participants, and what a normal return of rollback means. */
module Aborts {
  import opened OtsTypes
  import opened Participants
  import opened CoordinatorSpec
  import opened Invariant
  import opened Passes
  import opened Atomicity
  import opened Forecasts
  import opened Endings
  import opened Assurances

  // ------------------------------------------------------------------
  // A commit that falls back to rollback
  // ------------------------------------------------------------------

  /** Who is prepared and in doubt for good when a commit has fallen back to rollback after a first
      phase that stopped at position k: before k, read-only voters and those whose rollback message is
      not executed; the resource at k, which is never sent rollback, if it has prepared, now or
      earlier; after k, only those that had prepared earlier and are not reached. */
  predicate StaysPrepared(s: Sys, fates: Fates, k: nat, j: nat)
    requires j < |s.entries| && s.entries[j].r in s.parts
  {
    var p, asked := s.parts[s.entries[j].r], fates(PreparesFrom(s) + j);
    var told := FateAt(VotesOf(s, fates), fates, FirstRollback, AbortUntil(s, fates, k), j);
    if j < k then FavourableRv(asked) == RvVoteReadOnly || told.NotExecuted?
    else if j == k then p.status == StatusPrepared || (p.status == StatusActive && !asked.NotExecuted?)
    else p.status == StatusPrepared && told.NotExecuted?
  }

  lemma RollbackAnswers(p: Participant, pass: Pass, fate: Fate)
    requires Consistent(p) && !Commits(pass)
    ensures AfterFate(p, pass, fate).status == StatusPrepared <==> p.status == StatusPrepared && fate.NotExecuted?
    ensures fate.Delivered? && Smooth(p, pass, fate) ==>
              var q := AfterFate(p, pass, fate); XaRollback in q.commands || (XaCommit in p.commands && q == p)
  {
  }

  lemma PrepareAnswers(p: Participant, fate: Fate)
    requires Consistent(p)
    ensures Consistent(AfterPrepare(p, fate))
    ensures AfterPrepare(p, fate).status == StatusPrepared <==>
              p.status == StatusPrepared || (p.status == StatusActive && !fate.NotExecuted?)
  {
  }

  lemma {:induction false} StoppedFavourably(s: Sys, fates: Fates, n: nat, i: nat, j: nat)
    requires PhaseFrom(s, fates, n, i).StopsAt? && i <= j < PhaseFrom(s, fates, n, i).i && j < |s.entries|
    ensures BallotOf(s, s.entries[j].r, fates(n + j)) == Favourable
    decreases |s.entries| - i
  {
    hide BallotOf;
    if i < j {
      StoppedFavourably(s, fates, n, i + 1, j);
    }
  }

  lemma {:induction false} StopsInList(s: Sys, fates: Fates, n: nat, i: nat)
    ensures !PhaseFrom(s, fates, n, i).AllFavour? ==> i <= PhaseFrom(s, fates, n, i).i < |s.entries|
    decreases |s.entries| - i
  {
    if i < |s.entries| {
      StopsInList(s, fates, n, i + 1);
    }
  }

  lemma ActiveNotAsked(s: Sys, j: nat)
    requires Inv(s) && s.status == StatusActive && j < |s.entries|
    ensures s.entries[j].rv == RvNotPrepared && s.entries[j].r in s.parts && Consistent(s.parts[s.entries[j].r])
  {
  }

  /** The participant at position j after such a commit. */
  lemma AbortedPart(s: Sys, fates: Fates, report: bool, k: nat, j: nat)
    requires Inv(s) && s.status == StatusActive && |s.entries| >= 2 && j < |s.entries|
    requires PhaseOf(s, fates) == StopsAt(k) && CommitTransaction(s, fates, report).0.status == StatusNoTransaction
    ensures var t, r := CommitTransaction(s, fates, report).0, s.entries[j].r;
            var p := PartAt(s, s.parts[r], fates, j);
            var told := FateAt(VotesOf(s, fates), fates, FirstRollback, AbortUntil(s, fates, k), j);
            && r in s.parts && r in t.parts
            && t.parts[r] ==
                 if Eligible(FirstRollback, VotesOf(s, fates)[j].rv) then AfterFate(p, FirstRollback, told) else p
  {
    hide Inv, CommitTransaction, StopOf, FateAt, Contacts, AbortUntil, BallotOf, AfterFate, RollbackEnd, PhaseOf;
    hide PartsOf, PartAt, Smooth, VotesOf, Eligible, Distinct;
    CommitForecast(s, fates, report);
    PartsOfAt(s, fates, j);
  }

  /** A commit that falls back to rollback and ends the transaction leaves exactly these prepared. */
  lemma AbortLeavesPrepared(s: Sys, fates: Fates, report: bool, k: nat, j: nat)
    requires Inv(s) && s.status == StatusActive && |s.entries| >= 2 && j < |s.entries|
    requires PhaseOf(s, fates) == StopsAt(k) && CommitTransaction(s, fates, report).0.status == StatusNoTransaction
    ensures s.entries[j].r in s.parts
    ensures InDoubt(CommitTransaction(s, fates, report).0, s.entries[j].r) <==> StaysPrepared(s, fates, k, j)
  {
    hide Inv, CommitTransaction, FateAt, Contacts, AbortUntil, BallotOf, AfterFate, AfterPrepare, PhaseFrom;
    ActiveNotAsked(s, j);
    AbortedPart(s, fates, report, k, j);
    StopsInList(s, fates, PreparesFrom(s), 0);
    var asked, p := fates(PreparesFrom(s) + j), s.parts[s.entries[j].r];
    PrepareAnswers(p, asked);
    var told := FateAt(VotesOf(s, fates), fates, FirstRollback, AbortUntil(s, fates, k), j);
    RollbackAnswers(PartAt(s, p, fates, j), FirstRollback, told);
    if j < k {
      StoppedFavourably(s, fates, PreparesFrom(s), 0, j);
      FavouredPrepares(s, j, asked);
    }
  }

  lemma FavouredPrepares(s: Sys, j: nat, fate: Fate)
    requires j < |s.entries| && s.entries[j].r in s.parts && BallotOf(s, s.entries[j].r, fate) == Favourable
    ensures s.parts[s.entries[j].r].status == StatusActive && fate.Delivered?
  {
  }

  // ------------------------------------------------------------------
  // Rollback
  // ------------------------------------------------------------------

  /** A normal return of rollback: nothing is said about a transaction that is committing or stuck in
      Preparing, which stays as it is; otherwise the transaction is over, everybody who had to be
      contacted has rolled back or had committed alone before, and nobody else was touched. */
  lemma RollbackSuccess(s: Sys, fates: Fates)
    requires Inv(s) && RollbackTransaction(s, fates).1 == Returned
    ensures var t := RollbackTransaction(s, fates).0;
            if s.status == StatusCommitting || s.status == StatusPreparing then t == s
            else
              && s.status in {StatusActive, StatusMarkedRollback, StatusRollingBack} && t.status == StatusNoTransaction
              && forall j | 0 <= j < |s.entries| ::
                   var r := s.entries[j].r;
                   if Eligible(FirstRollback, s.entries[j].rv) then HasAborted(t, r) || HasCommitted(s, r)
                   else r in s.parts && r in t.parts && t.parts[r] == s.parts[r]
  {
    hide Inv, RollbackTransaction, HasAborted, HasCommitted;
    StatusesReached(s);
    RollbackTrivial(s, fates);
    if s.status in {StatusActive, StatusMarkedRollback, StatusRollingBack} {
      RollbackEndsNormally(s, fates);
      forall j | 0 <= j < |s.entries|
        ensures var r, t := s.entries[j].r, RollbackTransaction(s, fates).0;
                if Eligible(FirstRollback, s.entries[j].rv) then HasAborted(t, r) || HasCommitted(s, r)
                else r in s.parts && r in t.parts && t.parts[r] == s.parts[r]
      {
        RollbackSuccessAt(s, fates, j);
      }
    }
  }

  lemma RollbackTrivial(s: Sys, fates: Fates)
    ensures s.status == StatusCommitting || s.status == StatusPreparing ==>
              RollbackTransaction(s, fates) == (s, Returned)
    ensures s.status == StatusNoTransaction ==> RollbackTransaction(s, fates) == (s, Raised(InvalidTransaction))
  {
  }

  lemma RollbackEndsNormally(s: Sys, fates: Fates)
    requires Inv(s) && RollbackTransaction(s, fates).1 == Returned
    requires s.status in {StatusActive, StatusMarkedRollback, StatusRollingBack}
    ensures RollbackTransaction(s, fates).0.status == StatusNoTransaction
  {
    hide Inv, RollbackTransaction, StopOf, FateAt, StopEnd, SomeLost, PassEffect, Contacts, WellListed;
    if s.status == StatusRollingBack {
      RepeatForecast(s, fates, RetryRollback, false);
    } else {
      RollbackForecast(s, fates);
    }
  }

  lemma RollbackSuccessAt(s: Sys, fates: Fates, j: nat)
    requires Inv(s) && j < |s.entries| && RollbackTransaction(s, fates).1 == Returned
    requires s.status in {StatusActive, StatusMarkedRollback, StatusRollingBack}
    ensures var r, t := s.entries[j].r, RollbackTransaction(s, fates).0;
            if Eligible(FirstRollback, s.entries[j].rv) then HasAborted(t, r) || HasCommitted(s, r)
            else r in s.parts && r in t.parts && t.parts[r] == s.parts[r]
  {
    hide Inv, RollbackTransaction, StopOf, FateAt, StopEnd, Contacts, Smooth, AfterFate;
    InvIsListed(s);
    PartIsConsistent(s, s.entries[j].r);
    var pass := if s.status == StatusRollingBack then RetryRollback else FirstRollback;
    var n := if s.status == StatusRollingBack then |s.trace| + |Contacts(s.entries, pass, 0)| else RollbackUntil(s);
    if s.status == StatusRollingBack {
      RepeatForecast(s, fates, RetryRollback, false);
    } else {
      RollbackForecast(s, fates);
      assert !SomeLost(s.entries, fates, FirstRollback, n, 0);
      assert !Lost(s.entries, fates, FirstRollback, n, j);
    }
    StopOfAll(s.entries, s.parts, fates, pass, n, 0);
    SmoothRetryDelivered(s.parts[s.entries[j].r], pass, FateAt(s.entries, fates, pass, n, j));
    RollbackAnswers(s.parts[s.entries[j].r], pass, FateAt(s.entries, fates, pass, n, j));
  }

  lemma SmoothRetryDelivered(p: Participant, pass: Pass, fate: Fate)
    ensures !First(pass) && Smooth(p, pass, fate) ==> fate.Delivered?
  {
  }
}

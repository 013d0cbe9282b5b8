/** Busy-waits: exactly when an operation is caught in one. */
module Waits {
  import opened OtsTypes
  import opened Participants
  import opened CoordinatorSpec
  import opened Invariant
  import opened Growth
  import opened Passes
  import opened Forecasts
  import opened Endings
  import opened Assurances

  /** The pass contacts position j, whose participant is rolling back, the message arrives, and no
      earlier message stops the pass. */
  predicate CaughtAt(entries: seq<Entry>, parts: map<Ref, Participant>, fates: Fates, pass: Pass, n: nat, j: nat)
    requires WellListed(entries, parts) && j < |entries|
  {
    && Eligible(pass, entries[j].rv) && parts[entries[j].r].status == StatusRollingBack
    && FateAt(entries, fates, pass, n, j).Delivered?
    && forall i | 0 <= i < j && Eligible(pass, entries[i].rv) ::
         Smooth(parts[entries[i].r], pass, FateAt(entries, fates, pass, n, i))
  }

  predicate Caught(entries: seq<Entry>, parts: map<Ref, Participant>, fates: Fates, pass: Pass, n: nat)
    requires WellListed(entries, parts)
  {
    exists j | 0 <= j < |entries| :: CaughtAt(entries, parts, fates, pass, n, j)
  }

  predicate AllConsistent(entries: seq<Entry>, parts: map<Ref, Participant>) {
    forall j | 0 <= j < |entries| :: entries[j].r in parts && Consistent(parts[entries[j].r])
  }

  lemma {:induction false} StopIsFirst(entries: seq<Entry>, parts: map<Ref, Participant>,
                                       fates: Fates, pass: Pass, n: nat, i: nat)
    requires WellListed(entries, parts) && i <= |entries|
    ensures var k := StopOf(entries, parts, fates, pass, n, i);
            && (k < |entries| ==>
                  && Eligible(pass, entries[k].rv)
                  && !Smooth(parts[entries[k].r], pass, FateAt(entries, fates, pass, n, k)))
            && forall j | i <= j < k && Eligible(pass, entries[j].rv) ::
                 Smooth(parts[entries[j].r], pass, FateAt(entries, fates, pass, n, j))
    decreases |entries| - i
  {
    hide Smooth, FateAt, Eligible, WellListed;
    if i < |entries| {
      StopIsFirst(entries, parts, fates, pass, n, i + 1);
    }
  }

  /** The only answer that never comes is that of a participant that is rolling back. */
  lemma HungMeansRollingBack(p: Participant, pass: Pass, fate: Fate)
    requires Consistent(p)
    ensures StopEnd(p, pass, fate) == Blocked <==> fate.Delivered? && p.status == StatusRollingBack
    ensures fate.Delivered? && p.status == StatusRollingBack ==> !Smooth(p, pass, fate)
  {
  }

  lemma CaughtIff(entries: seq<Entry>, parts: map<Ref, Participant>, fates: Fates, pass: Pass, n: nat)
    requires WellListed(entries, parts) && AllConsistent(entries, parts)
    ensures var k := StopOf(entries, parts, fates, pass, n, 0);
            Caught(entries, parts, fates, pass, n) <==>
              k < |entries| && StopEnd(parts[entries[k].r], pass, FateAt(entries, fates, pass, n, k)) == Blocked
  {
    hide Smooth, FateAt, Eligible, StopEnd, StopOf, Consistent;
    StopIsFirst(entries, parts, fates, pass, n, 0);
    var k := StopOf(entries, parts, fates, pass, n, 0);
    if k < |entries| {
      HungMeansRollingBack(parts[entries[k].r], pass, FateAt(entries, fates, pass, n, k));
      if StopEnd(parts[entries[k].r], pass, FateAt(entries, fates, pass, n, k)) == Blocked {
        assert CaughtAt(entries, parts, fates, pass, n, k);
      }
    }
    if Caught(entries, parts, fates, pass, n) {
      var j :| 0 <= j < |entries| && CaughtAt(entries, parts, fates, pass, n, j);
      HungMeansRollingBack(parts[entries[j].r], pass, FateAt(entries, fates, pass, n, j));
      assert k == j;
    }
  }

  lemma InvIsConsistent(s: Sys)
    requires Inv(s)
    ensures WellListed(s.entries, s.parts) && AllConsistent(s.entries, s.parts)
    ensures s.status == StatusCommitting ==>
              forall j | 0 <= j < |s.entries| :: s.parts[s.entries[j].r].status != StatusRollingBack
  {
  }

  /** Rollback is caught in a busy-wait if and only if some message of its pass reaches a participant
      that is rolling back and no earlier message stops the pass. */
  lemma RollbackBlocksIff(s: Sys, fates: Fates)
    requires Inv(s)
    ensures WellListed(s.entries, s.parts)
    ensures RollbackTransaction(s, fates).1 == Blocked <==>
              match s.status
              case StatusActive | StatusMarkedRollback =>
                Caught(s.entries, s.parts, fates, FirstRollback, RollbackUntil(s))
              case StatusRollingBack =>
                Caught(s.entries, s.parts, fates, RetryRollback, |s.trace| + |Contacts(s.entries, RetryRollback, 0)|)
              case _ => false
  {
    hide Inv, Caught, StopOf, FateAt, StopEnd, PassEffect, Contacts, SomeLost, WellListed, AllConsistent;
    hide RollbackActive, RollbackAgain;
    InvIsConsistent(s);
    if s.status == StatusActive || s.status == StatusMarkedRollback {
      RollbackForecast(s, fates);
      CaughtIff(s.entries, s.parts, fates, FirstRollback, RollbackUntil(s));
    } else if s.status == StatusRollingBack {
      RepeatForecast(s, fates, RetryRollback, false);
      CaughtIff(s.entries, s.parts, fates, RetryRollback, |s.trace| + |Contacts(s.entries, RetryRollback, 0)|);
    }
  }

  // ------------------------------------------------------------------
  // Commit
  // ------------------------------------------------------------------

  lemma VotesAreConsistent(s: Sys, fates: Fates)
    requires Inv(s)
    ensures WellListed(s.entries, s.parts) && WellListed(VotesOf(s, fates), PartsOf(s, fates))
    ensures AllConsistent(VotesOf(s, fates), PartsOf(s, fates))
  {
    hide Inv, PartAt, PartsOf, WellListed, Consistent;
    InvIsConsistent(s);
    VotesAreListed(s, fates);
    forall j | 0 <= j < |s.entries|
      ensures s.entries[j].r in PartsOf(s, fates) && Consistent(PartsOf(s, fates)[s.entries[j].r])
    {
      PartAtIsConsistent(s, fates, j);
    }
  }

  lemma PartAtIsConsistent(s: Sys, fates: Fates, j: nat)
    requires WellListed(s.entries, s.parts) && j < |s.entries| && Consistent(s.parts[s.entries[j].r])
    ensures s.entries[j].r in PartsOf(s, fates) && Consistent(PartsOf(s, fates)[s.entries[j].r])
  {
    hide PhaseOf, Consistent;
    PartsOfAt(s, fates, j);
    PrepareIsConsistent(s.parts[s.entries[j].r], fates(PreparesFrom(s) + j));
  }

  lemma PrepareIsConsistent(p: Participant, fate: Fate)
    requires Consistent(p)
    ensures Consistent(AfterPrepare(p, fate))
  {
  }

  /** The commit pass over prepared participants is not caught. */
  lemma PreparedNotCaught(entries: seq<Entry>, parts: map<Ref, Participant>, fates: Fates, pass: Pass, n: nat)
    requires WellListed(entries, parts)
    requires forall j | 0 <= j < |entries| :: parts[entries[j].r].status != StatusRollingBack
    ensures !Caught(entries, parts, fates, pass, n)
  {
  }

  /** The commit of a single resource is caught. */
  predicate LoneCaught(s: Sys, fates: Fates)
    requires |s.entries| == 1 && s.entries[0].r in s.parts
  {
    s.parts[s.entries[0].r].status == StatusRollingBack && fates(|s.trace| + |s.syncs|).Delivered?
  }

  lemma LoneBlocksIff(s: Sys, fates: Fates, report: bool)
    requires Inv(s) && s.status == StatusActive && |s.entries| == 1
    ensures s.entries[0].r in s.parts
    ensures CommitTransaction(s, fates, report).1 == Blocked <==> LoneCaught(s, fates)
  {
    hide Inv, BeforeFrom, CommitTransaction;
    OnlyOneIsThere(s);
    BeforeLength(s, 0);
    LoneUnfolds(s, fates, report);
    OnePhaseHungIff(s.parts[s.entries[0].r], fates(|s.trace| + |s.syncs|));
  }

  lemma OnePhaseHungIff(p: Participant, fate: Fate)
    requires Consistent(p)
    ensures fate.Delivered? ==>
              (Escape(CommitOnePhaseOf(p, fate.db).1) == Blocked <==> p.status == StatusRollingBack)
              && !CommitOnePhaseOf(p, fate.db).1.Failed?
  {
  }

  /** Two or more resources: the first phase is caught, or the rollback that follows it. */
  predicate PhasesCaught(s: Sys, fates: Fates)
    requires WellListed(VotesOf(s, fates), PartsOf(s, fates))
  {
    match PhaseOf(s, fates)
    case StallsAt(k) => fates(PreparesFrom(s) + k).Delivered?
    case StopsAt(k) => Caught(VotesOf(s, fates), PartsOf(s, fates), fates, FirstRollback, AbortUntil(s, fates, k))
    case AllFavour => false
  }

  lemma PhasesBlockIff(s: Sys, fates: Fates, report: bool)
    requires Inv(s) && s.status == StatusActive && |s.entries| >= 2
    ensures WellListed(s.entries, s.parts) && WellListed(VotesOf(s, fates), PartsOf(s, fates))
    ensures CommitTransaction(s, fates, report).1 == Blocked <==> PhasesCaught(s, fates)
  {
    hide Inv, Caught, StopOf, FateAt, StopEnd, PassEffect, Contacts, SomeLost, WellListed, AllConsistent;
    hide CommitTransaction, VotesOf, PartsOf, PhaseOf, AbortUntil;
    VotesAreConsistent(s, fates);
    CommitForecast(s, fates, report);
    match PhaseOf(s, fates)
    case StallsAt(_) =>
    case StopsAt(k) => CaughtIff(VotesOf(s, fates), PartsOf(s, fates), fates, FirstRollback, AbortUntil(s, fates, k));
    case AllFavour =>
      FavouredNotRollingBack(s, fates);
      PreparedNotCaught(VotesOf(s, fates), PartsOf(s, fates), fates, FirstCommit, CommitsUntil(s));
      CaughtIff(VotesOf(s, fates), PartsOf(s, fates), fates, FirstCommit, CommitsUntil(s));
  }

  lemma FavouredNotRollingBack(s: Sys, fates: Fates)
    requires Inv(s) && s.status == StatusActive && PhaseOf(s, fates).AllFavour?
    ensures WellListed(VotesOf(s, fates), PartsOf(s, fates))
    ensures forall j | 0 <= j < |s.entries| :: PartsOf(s, fates)[VotesOf(s, fates)[j].r].status != StatusRollingBack
  {
    hide Inv, PhaseOf, VotesOf, PartsOf;
    FavouredIsPrepared(s, fates);
  }

  /** Commit is caught in a busy-wait if and only if the transaction is rolling back, or one of its
      messages reaches a participant that is rolling back: the one-phase commit of a single resource, a
      prepare, or a rollback of the pass that a marked or aborted transaction falls back to. */
  lemma CommitBlocksIff(s: Sys, fates: Fates, report: bool)
    requires Inv(s)
    ensures WellListed(s.entries, s.parts) && WellListed(VotesOf(s, fates), PartsOf(s, fates))
    ensures CommitTransaction(s, fates, report).1 == Blocked <==>
              || s.status == StatusRollingBack
              || (s.status == StatusMarkedRollback
                  && Caught(s.entries, s.parts, fates, FirstRollback, RollbackUntil(s)))
              || (s.status == StatusActive && |s.entries| == 1 && LoneCaught(s, fates))
              || (s.status == StatusActive && |s.entries| >= 2 && PhasesCaught(s, fates))
  {
    hide Inv, Caught, StopOf, FateAt, StopEnd, PassEffect, Contacts, SomeLost, AllConsistent, RollbackTransaction;
    hide VotesOf, PartsOf, PhaseOf, AbortUntil, LoneCaught, PhasesCaught, TwoPhase, CommitOnlyResource, CommitAgain;
    VotesAreConsistent(s, fates);
    InvIsConsistent(s);
    match s.status
    case StatusActive =>
      if |s.entries| == 0 {
        NothingToCommit(s, fates, report);
      } else if |s.entries| == 1 {
        LoneBlocksIff(s, fates, report);
      } else {
        PhasesBlockIff(s, fates, report);
      }
    case StatusMarkedRollback => RollbackBlocksIff(s, fates);
    case StatusCommitting => RetryNotCaught(s, fates, report);
    case _ =>
  }

  lemma NothingToCommit(s: Sys, fates: Fates, report: bool)
    requires s.status == StatusActive && s.entries == []
    ensures CommitTransaction(s, fates, report).1 == Returned
  {
    BeforeGrows(s, 0);
  }

  lemma RetryNotCaught(s: Sys, fates: Fates, report: bool)
    requires Inv(s) && s.status == StatusCommitting
    ensures CommitTransaction(s, fates, report).1 != Blocked
  {
    hide Inv, StopOf, FateAt, StopEnd, PassEffect, Contacts, AllConsistent, CommitTransaction;
    InvIsConsistent(s);
    RepeatForecast(s, fates, RetryCommit, report);
    var n := |s.trace| + |Contacts(s.entries, RetryCommit, 0)|;
    PreparedNotCaught(s.entries, s.parts, fates, RetryCommit, n);
    CaughtIff(s.entries, s.parts, fates, RetryCommit, n);
  }
}

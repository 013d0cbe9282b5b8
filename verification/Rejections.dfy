/** What a client may conclude from TRANSACTION_ROLLEDBACK. */
module Rejections {
  import opened OtsTypes
  import opened Participants
  import opened CoordinatorSpec
  import opened Invariant
  import opened Growth
  import opened Passes
  import opened Outcomes
  import opened Atomicity
  import opened Assurances

  predicate SameCommitters(s: Sys, t: Sys) {
    t.parts.Keys == s.parts.Keys
    && forall r | r in s.parts :: XaCommit in t.parts[r].commands <==> XaCommit in s.parts[r].commands
  }

  lemma CallCommitsNobody(s: Sys, fates: Fates, req: Request, r: Ref)
    requires req == Prepare || req == Rollback
    ensures SameCommitters(s, Call(s, fates, req, r).0)
    ensures Escape(Call(s, fates, req, r).1) != Raised(TransactionRolledBack)
  {
  }

  lemma {:induction false} PrepareCommitsNobody(s: Sys, fates: Fates, i: nat)
    ensures var (t, end) := PrepareFrom(s, fates, i); SameCommitters(s, t) && end != Raised(TransactionRolledBack)
    decreases |s.entries| - i
  {
    hide Call;
    if i < |s.entries| && s.status != StatusMarkedRollback {
      CallCommitsNobody(s, fates, Prepare, s.entries[i].r);
      var (t, reply) := Call(s, fates, Prepare, s.entries[i].r);
      match VoteCounted(reply)
      case None =>
      case Some(VoteCommit) => PrepareCommitsNobody(SetVoteAt(t, i, RvVoteCommit), fates, i + 1);
      case Some(VoteReadOnly) => PrepareCommitsNobody(SetVoteAt(t, i, RvVoteReadOnly), fates, i + 1);
      case Some(VoteRollback) =>
        PrepareCommitsNobody(SetStatus(SetVoteAt(t, i, RvRolledBack), StatusMarkedRollback), fates, i + 1);
    }
  }

  lemma NeverSaysRolledBack(s: Sys, fates: Fates, pass: Pass, r: Ref)
    ensures Escape(Call(s, fates, PassRequest(pass), r).1) != Raised(TransactionRolledBack)
  {
  }

  lemma {:induction false} SweepCommits(s: Sys, fates: Fates, pass: Pass, i: nat, heuristics: bool)
    requires Distinct(s.entries)
    ensures var (t, _, end) := Sweep(s, fates, pass, i, heuristics);
            end != Raised(TransactionRolledBack) && (!Commits(pass) ==> SameCommitters(s, t))
    decreases |s.entries| - i
  {
    hide Call, Sweep;
    SweepSkips(s, fates, pass, i, heuristics);
    if i < |s.entries| {
      if !Eligible(pass, s.entries[i].rv) {
        SweepCommits(s, fates, pass, i + 1, heuristics);
      } else {
        SweepUnfolds(s, fates, pass, i, heuristics);
        NeverSaysRolledBack(s, fates, pass, s.entries[i].r);
        CallCommitsNobody(s, fates, Rollback, s.entries[i].r);
        var (t, reply) := Call(s, fates, PassRequest(pass), s.entries[i].r);
        if reply == Done || Forgiven(pass, reply) {
          var u := if reply == Done then SetVoteAt(t, i, Settled(pass)) else t;
          SweepCommits(u, fates, pass, i + 1, heuristics || reply != Done);
        }
      }
    }
  }

  lemma RollbackCommitsNobody(s: Sys, fates: Fates)
    requires Distinct(s.entries)
    ensures SameCommitters(s, RollbackTransaction(s, fates).0)
    ensures RollbackTransaction(s, fates).1 != Raised(TransactionRolledBack)
  {
    hide Sweep;
    var s0 := SetStatus(s, StatusRollingBack);
    SweepCommits(s0, fates, FirstRollback, 0, false);
    SweepCommits(s, fates, RetryRollback, 0, false);
    AfterGrows(SetStatus(Sweep(s0, fates, FirstRollback, 0, false).0, StatusNoTransaction), 0);
    AfterGrows(SetStatus(Sweep(s, fates, RetryRollback, 0, false).0, StatusNoTransaction), 0);
  }

  lemma CommitPreparedNeverSays(s: Sys, fates: Fates, report: bool)
    requires Distinct(s.entries)
    ensures CommitPrepared(s, fates, report).1 != Raised(TransactionRolledBack)
  {
    SweepCommits(SetStatus(s, StatusCommitting), fates, FirstCommit, 0, false);
  }

  lemma OnePhaseRefusal(s: Sys, fates: Fates, report: bool)
    requires |s.entries| == 1 && s.entries[0].r in s.parts && Consistent(s.parts[s.entries[0].r])
    requires CommitOnlyResource(s, fates, report).1 == Raised(TransactionRolledBack)
    ensures SameCommitters(s, CommitOnlyResource(s, fates, report).0)
  {
    OnePhaseCommands(s.parts[s.entries[0].r], fates(|s.trace|).db);
  }

  /** When commit raises TRANSACTION_ROLLEDBACK, it has made nobody commit: afterwards somebody has
      committed exactly if somebody had before, which takes an earlier commit of a single resource. */
  lemma RolledBackCommitsNobody(s: Sys, fates: Fates, report: bool)
    requires Inv(s) && CommitTransaction(s, fates, report).1 == Raised(TransactionRolledBack)
    ensures forall r :: HasCommitted(CommitTransaction(s, fates, report).0, r) <==> HasCommitted(s, r)
  {
    InvIsDistinct(s);
    StatusesReached(s);
    hide Inv, Sweep, PrepareFrom, RollbackTransaction, CommitPrepared, CommitOnlyResource;
    match s.status
    case StatusActive =>
      BeforeGrows(s, 0);
      var s1 := BeforeFrom(s, 0);
      if |s1.entries| == 1 {
        OnlyOneIsThere(s);
        OnePhaseRefusal(s1, fates, report);
      } else if |s1.entries| >= 2 {
        var s2 := SetStatus(s1, StatusPreparing);
        PrepareCommitsNobody(s2, fates, 0);
        PrepareGrows(s2, fates, 0);
        var p := PrepareFrom(s2, fates, 0).0;
        StillDistinct(s2, p);
        RollbackCommitsNobody(p, fates);
        CommitPreparedNeverSays(p, fates, report);
      }
    case StatusMarkedRollback => RollbackCommitsNobody(s, fates);
    case StatusCommitting => SweepCommits(s, fates, RetryCommit, 0, false);
    case _ =>
  }

  lemma StillDistinct(s: Sys, t: Sys)
    requires Distinct(s.entries) && GrowsInPlace(s, t)
    ensures Distinct(t.entries)
  {
    assert forall j | 0 <= j < |s.entries| :: SameResource(s.entries[j], t.entries[j]);
  }
}

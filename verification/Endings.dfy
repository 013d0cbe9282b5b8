/** Commit and rollback foretold in full: status, outcome and participants afterwards, in terms of the
    state before the call and of what happens to each message, without following the loops. */
module Endings {
  import opened OtsTypes
  import opened Participants
  import opened CoordinatorSpec
  import opened Protocol
  import opened Invariant
  import opened Runs
  import opened Growth
  import opened Passes
  import opened Outcomes
  import opened Forecasts

  lemma InvIsListed(s: Sys)
    requires Inv(s)
    ensures WellListed(s.entries, s.parts)
  {
  }

  // ------------------------------------------------------------------
  // Rollback
  // ------------------------------------------------------------------

  /** How long the history is when a first rollback has contacted everybody. */
  function RollbackUntil(s: Sys): nat {
    |s.trace| + 1 + |Contacts(s.entries, FirstRollback, 0)|
  }

  /** How a first rollback over these entries and participants ends. */
  function RollbackEnd(entries: seq<Entry>, parts: map<Ref, Participant>, fates: Fates, n: nat): Outcome
    requires WellListed(entries, parts)
  {
    var k := StopOf(entries, parts, fates, FirstRollback, n, 0);
    if k < |entries| then StopEnd(parts[entries[k].r], FirstRollback, FateAt(entries, fates, FirstRollback, n, k))
    else if SomeLost(entries, fates, FirstRollback, n, 0) then Raised(HeuristicHazard)
    else Returned
  }

  /** It is over exactly if no message stops it, and every participant is where its message left it. */
  predicate RollsBack(entries: seq<Entry>, parts: map<Ref, Participant>, fates: Fates, n: nat, t: Sys)
    requires WellListed(entries, parts)
  {
    var k := StopOf(entries, parts, fates, FirstRollback, n, 0);
    && t.status == (if k < |entries| then StatusRollingBack else StatusNoTransaction)
    && PassEffect(entries, parts, t.parts, fates, FirstRollback, n, 0, k)
  }

  /** Rollback of a transaction that is not being ended yet, foretold in full. */
  lemma RollbackForecast(s: Sys, fates: Fates)
    requires Inv(s) && (s.status == StatusActive || s.status == StatusMarkedRollback)
    ensures WellListed(s.entries, s.parts)
    ensures var (t, end) := RollbackTransaction(s, fates);
            && end == RollbackEnd(s.entries, s.parts, fates, RollbackUntil(s))
            && RollsBack(s.entries, s.parts, fates, RollbackUntil(s), t)
            && (t.status != StatusNoTransaction ==> end != Returned)
  {
    hide Inv, Sweep, StopOf, StopEnd, FateAt, SomeLost, PassEffect, Contacts, RollbackTransaction, AfterFrom;
    hide WellListed;
    InvIsListed(s);
    StepToRollingBack(s);
    var s0 := SetStatus(s, StatusRollingBack);
    PassForecast(s0, fates, FirstRollback, RollbackUntil(s), 0, false);
    SweepKeeps(s0, fates, FirstRollback, 0, false);
    RollbackUnfolds(s, fates);
    AfterGrows(SetStatus(Sweep(s0, fates, FirstRollback, 0, false).0, StatusNoTransaction), 0);
  }

  lemma EndChangesNobody(s: Sys)
    ensures var t := SetStatus(s, StatusNoTransaction);
            && t.status == StatusNoTransaction && t.parts == s.parts
            && AfterFrom(t, 0).status == StatusNoTransaction && AfterFrom(t, 0).parts == s.parts
  {
    AfterGrows(SetStatus(s, StatusNoTransaction), 0);
  }

  /** A repeated commit or rollback, foretold in full. */
  lemma RepeatForecast(s: Sys, fates: Fates, pass: Pass, report: bool)
    requires Inv(s) && Repeats(s, pass)
    ensures WellListed(s.entries, s.parts)
    ensures var (t, end) := Repeat(s, fates, pass, report);
            var n := |s.trace| + |Contacts(s.entries, pass, 0)|;
            var k := StopOf(s.entries, s.parts, fates, pass, n, 0);
            && t.status == (if k < |s.entries| then s.status else StatusNoTransaction)
            && end == (if k < |s.entries|
                       then StopEnd(s.parts[s.entries[k].r], pass, FateAt(s.entries, fates, pass, n, k)) else Returned)
            && (k < |s.entries| ==> end != Returned)
            && PassEffect(s.entries, s.parts, t.parts, fates, pass, n, 0, k)
  {
    hide Inv, Sweep, StopOf, StopEnd, FateAt, SomeLost, PassEffect, Contacts, WellListed, AfterFrom, Repeat, SetStatus;
    InvIsListed(s);
    PassForecast(s, fates, pass, |s.trace| + |Contacts(s.entries, pass, 0)|, 0, false);
    SweepKeeps(s, fates, pass, 0, false);
    RepeatUnfolds(s, fates, pass, report);
    EndChangesNobody(Sweep(s, fates, pass, 0, false).0);
  }

  // ------------------------------------------------------------------
  // Commit
  // ------------------------------------------------------------------

  /** The list and the participants as the first phase leaves them. */
  function VotesOf(s: Sys, fates: Fates): (entries: seq<Entry>)
    ensures |entries| == |s.entries| && forall j | 0 <= j < |s.entries| :: entries[j].r == s.entries[j].r
  {
    seq(|s.entries|, j requires 0 <= j < |s.entries| =>
      EntryAfter(s.entries[j], PhaseOf(s, fates), fates(PreparesFrom(s) + j), j, |s.entries|))
  }

  /** The resource at position j after the first phase. */
  function PartAt(s: Sys, p: Participant, fates: Fates, j: nat): Participant {
    if j < |s.entries| && j < AskedOf(PhaseOf(s, fates), |s.entries|) then AfterPrepare(p, fates(PreparesFrom(s) + j))
    else p
  }

  function PartsOf(s: Sys, fates: Fates): map<Ref, Participant> {
    map r | r in s.parts :: PartAt(s, s.parts[r], fates, Find(s.entries, r))
  }

  lemma VotesAreExact(s: Sys, t: Sys, fates: Fates)
    requires PhaseEffect(s, t, fates, PreparesFrom(s), 0, PhaseOf(s, fates))
    ensures t.entries == VotesOf(s, fates)
  {
    hide PhaseOf, EntryAfter, AfterPrepare, AskedOf, PreparesFrom, NotListed;
  }

  lemma PartIsExact(s: Sys, t: Sys, fates: Fates, r: Ref)
    requires PhaseEffect(s, t, fates, PreparesFrom(s), 0, PhaseOf(s, fates)) && r in s.parts
    ensures r in t.parts && t.parts[r] == PartAt(s, s.parts[r], fates, Find(s.entries, r))
  {
    hide PhaseOf, EntryAfter, AfterPrepare, AskedOf, PreparesFrom, Find;
    var j := Find(s.entries, r);
    if j == |s.entries| {
      assert NotListed(s.entries, r, 0);
    }
  }

  lemma PartsAreExact(s: Sys, t: Sys, fates: Fates)
    requires PhaseEffect(s, t, fates, PreparesFrom(s), 0, PhaseOf(s, fates))
    ensures t.parts == PartsOf(s, fates)
  {
    hide PhaseOf, PreparesFrom, PartAt, Find;
    assert t.parts.Keys == s.parts.Keys;
    hide PhaseEffect;
    forall r | r in s.parts ensures t.parts[r] == PartAt(s, s.parts[r], fates, Find(s.entries, r)) {
      PartIsExact(s, t, fates, r);
    }
  }

  lemma VotesAreListed(s: Sys, fates: Fates)
    requires WellListed(s.entries, s.parts)
    ensures WellListed(VotesOf(s, fates), PartsOf(s, fates))
  {
    hide VotesOf, PartAt, Find;
  }

  lemma PartsOfAt(s: Sys, fates: Fates, j: nat)
    requires WellListed(s.entries, s.parts) && j < |s.entries|
    ensures PartsOf(s, fates)[s.entries[j].r] == PartAt(s, s.parts[s.entries[j].r], fates, j)
  {
    hide PartAt;
    FindAt(s.entries, j);
  }

  /** How long the history is when the rollback that follows a first phase stopped at position k has
      contacted everybody, and when the commit pass that follows a unanimous one has. */
  function AbortUntil(s: Sys, fates: Fates, k: nat): nat {
    PreparesFrom(s) + k + 3 + |Contacts(VotesOf(s, fates), FirstRollback, 0)|
  }

  function CommitsUntil(s: Sys): nat {
    CommitsFrom(s) + |s.entries|
  }

  function AbortEnd(end: Outcome): Outcome {
    if end == Returned then Raised(TransactionRolledBack) else end
  }

  /** How the commit pass over these entries and participants ends. */
  function CommitEnd(entries: seq<Entry>, parts: map<Ref, Participant>, fates: Fates, n: nat, report: bool): Outcome
    requires WellListed(entries, parts)
  {
    var k := StopOf(entries, parts, fates, FirstCommit, n, 0);
    if k < |entries| then StopEnd(parts[entries[k].r], FirstCommit, FateAt(entries, fates, FirstCommit, n, k))
    else if report && SomeLost(entries, fates, FirstCommit, n, 0) then Raised(HeuristicHazard)
    else Returned
  }

  predicate CommitsAll(entries: seq<Entry>, parts: map<Ref, Participant>, fates: Fates, n: nat, t: Sys)
    requires WellListed(entries, parts)
  {
    var k := StopOf(entries, parts, fates, FirstCommit, n, 0);
    && t.status == (if k < |entries| then StatusCommitting else StatusNoTransaction)
    && PassEffect(entries, parts, t.parts, fates, FirstCommit, n, 0, k)
  }

  /** The committing half. */
  lemma CommitPreparedForecast(s: Sys, fates: Fates, report: bool, n: nat)
    requires Inv(s) && s.status == StatusPreparing && VotedUpTo(s.entries, |s.entries|)
    requires Read(s.trace).favourable && |Read(s.trace).prepared| == |s.entries| && n == |s.trace| + 1 + |s.entries|
    ensures WellListed(s.entries, s.parts)
    ensures var (t, end) := CommitPrepared(s, fates, report);
            && end == CommitEnd(s.entries, s.parts, fates, n, report) && CommitsAll(s.entries, s.parts, fates, n, t)
            && (t.status != StatusNoTransaction ==> end != Returned)
  {
    hide Inv, Read, Sweep, StopOf, StopEnd, FateAt, SomeLost, PassEffect, Contacts, WellListed, AfterFrom, VotedUpTo;
    InvIsListed(s);
    FavourableContacted(s.entries, FirstCommit);
    StepToCommitting(s);
    var s0 := SetStatus(s, StatusCommitting);
    PassForecast(s0, fates, FirstCommit, n, 0, false);
    SweepKeeps(s0, fates, FirstCommit, 0, false);
    AfterGrows(SetStatus(Sweep(s0, fates, FirstCommit, 0, false).0, StatusNoTransaction), 0);
  }

  /** What a commit of an Active transaction with two or more resources leaves, and how it ends. */
  predicate CommitForetold(s: Sys, fates: Fates, report: bool, t: Sys, end: Outcome)
    requires WellListed(s.entries, s.parts) && WellListed(VotesOf(s, fates), PartsOf(s, fates))
  {
    var entries, parts := VotesOf(s, fates), PartsOf(s, fates);
    match PhaseOf(s, fates)
    case StallsAt(k) =>
      && t.status == StatusPreparing && end == StallEnd(fates(PreparesFrom(s) + k))
      && t.entries == entries && t.parts == parts
    case StopsAt(k) =>
      && end == AbortEnd(RollbackEnd(entries, parts, fates, AbortUntil(s, fates, k)))
      && RollsBack(entries, parts, fates, AbortUntil(s, fates, k), t)
    case AllFavour =>
      && end == CommitEnd(entries, parts, fates, CommitsUntil(s), report)
      && CommitsAll(entries, parts, fates, CommitsUntil(s), t)
  }

  /** Commit of an Active transaction with two or more resources, foretold in full. */
  lemma CommitForecast(s: Sys, fates: Fates, report: bool)
    requires Inv(s) && s.status == StatusActive && |s.entries| >= 2
    ensures WellListed(s.entries, s.parts) && WellListed(VotesOf(s, fates), PartsOf(s, fates))
    ensures var (t, end) := CommitTransaction(s, fates, report);
            && CommitForetold(s, fates, report, t, end)
            && (t.status != StatusNoTransaction ==> end != Returned)
            && (!PhaseOf(s, fates).AllFavour? ==> end != Returned)
  {
    hide Inv, Read, FirstPhase, CommitTransaction, CommitPrepared, RollbackTransaction, PhaseOf, VotedUpTo, StoppedAt;
    hide WellListed, PhaseEffect, StallEnd, RollbackEnd, RollsBack, CommitEnd, CommitsAll, Contacts, VotesOf, PartsOf;
    InvIsListed(s);
    VotesAreListed(s, fates);
    FirstPhaseForecast(s, fates);
    FirstPhaseKeeps(s, fates);
    CommitUnfolds(s, fates, report);
    var p := FirstPhase(s, fates).0;
    VotesAreExact(s, p, fates);
    PartsAreExact(s, p, fates);
    match PhaseOf(s, fates)
    case StallsAt(_) =>
    case StopsAt(_) => RollbackForecast(p, fates);
    case AllFavour =>
      FirstPhaseVotes(s, fates);
      CommitPreparedForecast(p, fates, report, CommitsUntil(s));
  }

  lemma FirstPhaseVotes(s: Sys, fates: Fates)
    requires Inv(s) && s.status == StatusActive && |s.entries| >= 2
    ensures var (p, end) := FirstPhase(s, fates);
            p.status == StatusPreparing && end == Returned ==> VotedUpTo(p.entries, |p.entries|)
  {
    FirstPhaseShape(s, fates);
  }

  // ------------------------------------------------------------------
  // The same in simple cases
  // ------------------------------------------------------------------

  /** When everybody from position i on is contacted, the messages go out one after the other. */
  lemma MessagesInOrder(entries: seq<Entry>, fates: Fates, pass: Pass, n: nat, j: nat)
    requires j < |entries| && forall i | 0 <= i < |entries| :: Eligible(pass, entries[i].rv)
    ensures FateAt(entries, fates, pass, n + |entries|, j) == fates(n + j)
  {
    EverybodyContacted(entries, pass, j);
  }

  lemma {:induction false} StopOfAll(entries: seq<Entry>, parts: map<Ref, Participant>,
                                     fates: Fates, pass: Pass, n: nat, i: nat)
    requires WellListed(entries, parts) && i <= |entries|
    ensures StopOf(entries, parts, fates, pass, n, i) == |entries| <==>
              forall j | i <= j < |entries| && Eligible(pass, entries[j].rv) ::
                Smooth(parts[entries[j].r], pass, FateAt(entries, fates, pass, n, j))
    decreases |entries| - i
  {
    hide Smooth, FateAt, Eligible;
    if i < |entries| {
      StopOfAll(entries, parts, fates, pass, n, i + 1);
    }
  }

  /** Some answer to k messages from n on does not come back. */
  predicate AnswerLost(fates: Fates, n: nat, j: nat) {
    !fates(n + j).Delivered?
  }

  predicate AnyLost(fates: Fates, n: nat, k: nat) {
    exists j | 0 <= j < k :: AnswerLost(fates, n, j)
  }

  lemma LostInOrder(entries: seq<Entry>, fates: Fates, pass: Pass, n: nat)
    requires forall i | 0 <= i < |entries| :: Eligible(pass, entries[i].rv)
    ensures SomeLost(entries, fates, pass, n + |entries|, 0) <==> AnyLost(fates, n, |entries|)
  {
    hide FateAt;
    forall j | 0 <= j < |entries| ensures Lost(entries, fates, pass, n + |entries|, j) <==> AnswerLost(fates, n, j) {
      MessagesInOrder(entries, fates, pass, n, j);
    }
    if AnyLost(fates, n, |entries|) {
      var j :| 0 <= j < |entries| && AnswerLost(fates, n, j);
      assert Lost(entries, fates, pass, n + |entries|, j);
    }
    if SomeLost(entries, fates, pass, n + |entries|, 0) {
      var j :| 0 <= j < |entries| && Lost(entries, fates, pass, n + |entries|, j);
      assert AnswerLost(fates, n, j);
    }
  }

  /** A rollback between operations: everybody is contacted, in order. */
  lemma RestingRollback(s: Sys, fates: Fates)
    requires Resting(s) && (s.status == StatusActive || s.status == StatusMarkedRollback)
    ensures var (t, end) := RollbackTransaction(s, fates);
            t.status == StatusNoTransaction ==>
              end == if AnyLost(fates, |s.trace| + 1, |s.entries|) then Raised(HeuristicHazard) else Returned
  {
    hide Inv, StopOf, FateAt, PassEffect, RollbackTransaction, SomeLost, AnyLost, WellListed, StopEnd;
    hide Contacts;
    RestingNobodyVoted(s);
    RollbackForecast(s, fates);
    EverybodyContacted(s.entries, FirstRollback, 0);
    assert RollbackUntil(s) == |s.trace| + 1 + |s.entries|;
    LostInOrder(s.entries, fates, FirstRollback, |s.trace| + 1);
  }

  lemma RestingNobodyVoted(s: Sys)
    requires Resting(s) && (s.status == StatusActive || s.status == StatusMarkedRollback)
    ensures NobodyVoted(s.entries)
  {
  }

  /** A commit message to a prepared resource does not stop the first pass. */
  predicate SmoothCommit(fates: Fates, n: nat, j: nat) {
    match fates(n + j)
    case Delivered(db) => db.commitOk
    case ReplyLost(_, e) => Tolerated(e)
    case NotExecuted(e) => Tolerated(e)
  }

  predicate AllSmoothCommits(fates: Fates, n: nat, k: nat) {
    forall j | 0 <= j < k :: SmoothCommit(fates, n, j)
  }

  predicate Executed(fate: Fate) {
    !fate.NotExecuted?
  }

  /** A prepared participant has issued its xacommit exactly if its commit message was executed, and
      the database has carried it out exactly if it then answered so; otherwise it is still prepared. */
  predicate CommitEffect(t: Sys, r: Ref, fate: Fate) {
    && r in t.parts
    && (XaCommit in t.parts[r].commands <==> Executed(fate))
    && (t.parts[r].applied <==> Executed(fate) && fate.db.commitOk)
    && (t.parts[r].status == StatusPrepared <==> !Executed(fate))
  }

  predicate CommitEffects(entries: seq<Entry>, t: Sys, fates: Fates, n: nat) {
    forall j | 0 <= j < |entries| :: CommitEffect(t, entries[j].r, fates(n + j))
  }

  predicate AllPrepared(entries: seq<Entry>, parts: map<Ref, Participant>) {
    forall j | 0 <= j < |entries| ::
      && entries[j].r in parts && parts[entries[j].r].status == StatusPrepared && Consistent(parts[entries[j].r])
  }

  lemma PreparedAnswers(p: Participant, fate: Fate)
    requires Consistent(p) && p.status == StatusPrepared
    ensures var q := AfterFate(p, FirstCommit, fate);
            && (XaCommit in q.commands <==> Executed(fate)) && (q.applied <==> Executed(fate) && fate.db.commitOk)
            && (q.status == StatusPrepared <==> !Executed(fate))
    ensures Smooth(p, FirstCommit, fate) <==> if fate.Delivered? then fate.db.commitOk else Tolerated(fate.error)
  {
  }

  /** The commit pass over prepared resources that all have voted favourably. */
  lemma PreparedPass(entries: seq<Entry>, parts: map<Ref, Participant>, t: Sys, fates: Fates, n: nat)
    requires AllPrepared(entries, parts) && WellListed(entries, parts) && VotedUpTo(entries, |entries|)
    ensures StopOf(entries, parts, fates, FirstCommit, n + |entries|, 0) == |entries| <==>
              AllSmoothCommits(fates, n, |entries|)
    ensures PassEffect(entries, parts, t.parts, fates, FirstCommit, n + |entries|, 0, |entries|) ==>
              CommitEffects(entries, t, fates, n)
  {
    hide Smooth, AfterFate, Executed, FateAt, StopOf;
    StopOfAll(entries, parts, fates, FirstCommit, n + |entries|, 0);
    forall j | 0 <= j < |entries|
      ensures FateAt(entries, fates, FirstCommit, n + |entries|, j) == fates(n + j)
      ensures Smooth(parts[entries[j].r], FirstCommit, fates(n + j)) <==> SmoothCommit(fates, n, j)
      ensures PassEffect(entries, parts, t.parts, fates, FirstCommit, n + |entries|, 0, |entries|) ==>
                CommitEffect(t, entries[j].r, fates(n + j))
    {
      MessagesInOrder(entries, fates, FirstCommit, n, j);
      PreparedAnswers(parts[entries[j].r], fates(n + j));
    }
    if AllSmoothCommits(fates, n, |entries|) {
      forall j | 0 <= j < |entries| ensures Smooth(parts[entries[j].r], FirstCommit, fates(n + j)) {
        assert SmoothCommit(fates, n, j);
      }
    }
  }

  /** The participants that have voted favourably are prepared. */
  lemma FavouredIsPrepared(s: Sys, fates: Fates)
    requires Inv(s) && s.status == StatusActive && PhaseOf(s, fates).AllFavour?
    ensures WellListed(VotesOf(s, fates), PartsOf(s, fates))
    ensures AllPrepared(VotesOf(s, fates), PartsOf(s, fates)) && VotedUpTo(VotesOf(s, fates), |s.entries|)
  {
    hide Inv, BallotOf, PartsOf, PartAt, WellListed;
    InvIsListed(s);
    VotesAreListed(s, fates);
    AllAreFavourable(s, fates, PreparesFrom(s), 0);
    forall j | 0 <= j < |s.entries|
      ensures s.entries[j].r in PartsOf(s, fates)
      ensures var p := PartsOf(s, fates)[s.entries[j].r]; p.status == StatusPrepared && Consistent(p)
    {
      FavouredPart(s, fates, j);
    }
  }

  lemma FavouredPart(s: Sys, fates: Fates, j: nat)
    requires Inv(s) && PhaseOf(s, fates).AllFavour? && j < |s.entries|
    requires BallotOf(s, s.entries[j].r, fates(PreparesFrom(s) + j)) == Favourable
    ensures s.entries[j].r in PartsOf(s, fates)
    ensures var p := PartsOf(s, fates)[s.entries[j].r]; p.status == StatusPrepared && Consistent(p)
  {
    hide Inv, PhaseOf;
    InvIsListed(s);
    PartIsConsistent(s, s.entries[j].r);
    PartsOfAt(s, fates, j);
  }

  lemma PartIsConsistent(s: Sys, r: Ref)
    requires Inv(s) && r in s.parts
    ensures Consistent(s.parts[r])
  {
  }

  lemma {:induction false} AllAreFavourable(s: Sys, fates: Fates, n: nat, i: nat)
    requires PhaseFrom(s, fates, n, i).AllFavour?
    ensures forall j | i <= j < |s.entries| :: BallotOf(s, s.entries[j].r, fates(n + j)) == Favourable
    decreases |s.entries| - i
  {
    hide BallotOf;
    if i < |s.entries| {
      AllAreFavourable(s, fates, n, i + 1);
    }
  }

  /** The endings of a commit of two or more resources, and what the participants have done when it is
      over. */
  lemma CommitEndings(s: Sys, fates: Fates, report: bool)
    requires Inv(s) && s.status == StatusActive && |s.entries| >= 2
    ensures var (t, end) := CommitTransaction(s, fates, report);
            var n, k := CommitsFrom(s), |s.entries|;
            match PhaseOf(s, fates)
            case StallsAt(_) => t.status == StatusPreparing && end != Returned
            case StopsAt(_) => end != Returned && (t.status == StatusNoTransaction || t.status == StatusRollingBack)
            case AllFavour =>
              && t.status == (if AllSmoothCommits(fates, n, k) then StatusNoTransaction else StatusCommitting)
              && (end == Returned <==> AllSmoothCommits(fates, n, k) && !(report && AnyLost(fates, n, k)))
              && (AllSmoothCommits(fates, n, k) ==> CommitEffects(s.entries, t, fates, n))
  {
    hide Inv, CommitTransaction, PhaseOf, VotesOf, PartsOf, AllPrepared, VotedUpTo, StopOf, PassEffect, StallEnd;
    hide AllSmoothCommits, AnyLost, SomeLost, WellListed, StopEnd;
    CommitForecast(s, fates, report);
    if PhaseOf(s, fates).AllFavour? {
      FavouredIsPrepared(s, fates);
      var t := CommitTransaction(s, fates, report).0;
      UnanimousEndings(s, t, VotesOf(s, fates), PartsOf(s, fates), fates, CommitsFrom(s));
    }
  }

  lemma UnanimousEndings(s: Sys, t: Sys, entries: seq<Entry>, parts: map<Ref, Participant>, fates: Fates, n: nat)
    requires WellListed(s.entries, s.parts) && entries == VotesOf(s, fates)
    requires AllPrepared(entries, parts) && WellListed(entries, parts) && VotedUpTo(entries, |entries|)
    ensures StopOf(entries, parts, fates, FirstCommit, n + |s.entries|, 0) == |entries| <==>
              AllSmoothCommits(fates, n, |s.entries|)
    ensures SomeLost(entries, fates, FirstCommit, n + |s.entries|, 0) <==> AnyLost(fates, n, |s.entries|)
    ensures PassEffect(entries, parts, t.parts, fates, FirstCommit, n + |s.entries|, 0, |entries|) ==>
              CommitEffects(s.entries, t, fates, n)
  {
    hide PhaseOf, VotesOf, CommitEffect, AllPrepared, AllSmoothCommits, PassEffect, StopOf, SomeLost, AnyLost;
    hide WellListed, VotedUpTo, Lost, PartsOf;
    PreparedPass(entries, parts, t, fates, n);
    FavourableContacted(entries, FirstCommit);
    LostInOrder(entries, fates, FirstCommit, n);
    SameRefsSameEffects(entries, s.entries, t, fates, n);
  }

  lemma FavourableContacted(entries: seq<Entry>, pass: Pass)
    requires VotedUpTo(entries, |entries|) && pass == FirstCommit
    ensures forall i | 0 <= i < |entries| :: Eligible(pass, entries[i].rv)
    ensures |Contacts(entries, pass, 0)| == |entries|
  {
    EverybodyContacted(entries, pass, 0);
  }

  lemma SameRefsSameEffects(a: seq<Entry>, b: seq<Entry>, t: Sys, fates: Fates, n: nat)
    requires |a| == |b| && forall j | 0 <= j < |a| :: a[j].r == b[j].r
    ensures CommitEffects(a, t, fates, n) ==> CommitEffects(b, t, fates, n)
  {
    hide CommitEffect;
    forall j | 0 <= j < |b| && CommitEffects(a, t, fates, n) ensures CommitEffect(t, b[j].r, fates(n + j)) {
      assert CommitEffect(t, a[j].r, fates(n + j));
    }
  }
}

/** Properties of every history that the protocol accepts, at every point of it, also in the
    middle of an operation. */
module Histories {
  import opened OtsTypes
  import opened CoordinatorSpec
  import opened Protocol

  /** Event k is a request of this kind. */
  predicate Requests(trace: seq<Event>, k: nat, req: Request)
    requires k < |trace|
  {
    trace[k].Called? && trace[k].req == req
  }

  predicate NeverSent(trace: seq<Event>, req: Request) {
    forall k | 0 <= k < |trace| :: !Requests(trace, k, req)
  }

  /** The status in which a request goes out. */
  function SendingStatus(req: Request): Status {
    match req
    case Prepare => StatusPreparing
    case Commit => StatusCommitting
    case Rollback => StatusRollingBack
    case _ => StatusActive
  }

  lemma SentInStatus(trace: seq<Event>, k: nat)
    requires Accepted(trace) && k < |trace| && trace[k].Called?
    ensures StatusAfter(trace, k) == SendingStatus(trace[k].req) && StatusAfter(trace, k + 1) == StatusAfter(trace, k)
  {
    hide Read, Accepted;
    AcceptedAt(trace, k);
  }

  // ------------------------------------------------------------------
  // Unanimity
  // ------------------------------------------------------------------

  /** Everybody who joined was asked, in order of joining and once, and answered favourably. */
  predicate Unanimous(v: View) {
    v.favourable && v.prepared == v.joined
  }

  lemma UnanimityStep(v: View, e: Event)
    requires Allowed(v, e) && Next(v, e).status == StatusCommitting
    requires v.status == StatusCommitting ==> Unanimous(v)
    ensures Unanimous(Next(v, e))
  {
  }

  lemma {:induction false} CommittingIsUnanimous(trace: seq<Event>, k: nat)
    requires Accepted(trace) && k <= |trace| && StatusAfter(trace, k) == StatusCommitting
    ensures Unanimous(Read(trace[..k]))
    decreases k
  {
    if k == 0 {
      assert false;
    } else {
      AcceptedAt(trace, k - 1);
      if StatusAfter(trace, k - 1) == StatusCommitting {
        CommittingIsUnanimous(trace, k - 1);
      }
      UnanimityStep(Read(trace[..k - 1]), trace[k - 1]);
    }
  }

  /** What v settles w keeps: membership once the status has left Active, and the votes once it
      has left Preparing. */
  predicate Keeps(v: View, w: View) {
    && (v.status != StatusActive ==> w.joined == v.joined)
    && (Rank(v.status) >= 2 ==> w.prepared == v.prepared && w.favourable == v.favourable)
  }

  lemma KeepsStep(v: View, e: Event)
    requires Allowed(v, e) && Rank(v.status) <= 4
    ensures Keeps(v, Next(v, e))
  {
  }

  lemma {:induction false} MembershipIsFixed(trace: seq<Event>, j: nat, k: nat)
    requires Accepted(trace) && j <= k <= |trace|
    ensures Keeps(Read(trace[..j]), Read(trace[..k]))
    decreases k - j
  {
    hide Read, Next, Follows;
    if j < k {
      MembershipIsFixed(trace, j, k - 1);
      StatusMovesForward(trace, j, k - 1);
      StepAt(trace, k - 1);
    }
  }

  lemma StepAt(trace: seq<Event>, k: nat)
    requires Accepted(trace) && k < |trace|
    ensures Keeps(Read(trace[..k]), Read(trace[..k + 1]))
  {
    AcceptedAt(trace, k);
    StatusIsRanked(trace[..k]);
    KeepsStep(Read(trace[..k]), trace[k]);
  }

  lemma {:induction false} FavourableMeansAllFavoured(trace: seq<Event>, k: nat)
    requires k < |trace| && Requests(trace, k, Prepare) && Read(trace).favourable
    ensures Favours(trace[k].reply)
    decreases |trace|
  {
    if k < |trace| - 1 {
      FavourableMeansAllFavoured(trace[..|trace| - 1], k);
    }
  }

  lemma CommittingVotes(trace: seq<Event>, k: nat)
    requires Accepted(trace) && k <= |trace| && StatusAfter(trace, k) == StatusCommitting
    ensures Sent(trace[..k], Prepare) == Read(trace).joined && Sent(trace, Prepare) == Read(trace).joined
    ensures Read(trace).favourable
  {
    hide Read, Accepted;
    assert trace[..|trace|] == trace;
    CommittingIsUnanimous(trace, k);
    MembershipIsFixed(trace, k, |trace|);
    SentIsRead(trace[..k]);
    SentIsRead(trace);
  }

  /** Two-phase commit messages go out only after a unanimous vote: if one was sent, or if the
      status ever was Committing, then every joined resource was asked exactly once, in order of
      joining, and every answer was favourable. No rollback is ever sent besides. */
  lemma CommitNeedsUnanimity(trace: seq<Event>, k: nat)
    requires Accepted(trace) && k <= |trace|
    requires StatusAfter(trace, k) == StatusCommitting || (k < |trace| && Requests(trace, k, Commit))
    ensures Sent(trace[..k], Prepare) == Read(trace).joined && Sent(trace, Prepare) == Read(trace).joined
    ensures forall j | 0 <= j < |trace| && Requests(trace, j, Prepare) :: j < k && Favours(trace[j].reply)
    ensures NeverSent(trace, Rollback)
  {
    hide Read, Accepted, Sent;
    if k < |trace| && Requests(trace, k, Commit) {
      SentInStatus(trace, k);
    }
    CommittingVotes(trace, k);
    forall j | 0 <= j < |trace| && trace[j].Called?
      ensures trace[j].req != Rollback && (trace[j].req == Prepare ==> j < k && Favours(trace[j].reply))
    {
      SentElsewhere(trace, j, k);
      if trace[j].req == Prepare {
        FavourableMeansAllFavoured(trace, j);
      }
    }
  }

  /** A request at j, seen from a point k: their statuses are in order. */
  lemma SentElsewhere(trace: seq<Event>, j: nat, k: nat)
    requires Accepted(trace) && j < |trace| && k <= |trace| && trace[j].Called?
    ensures j < k ==> Forward(SendingStatus(trace[j].req), StatusAfter(trace, k))
    ensures k <= j ==> Forward(StatusAfter(trace, k), SendingStatus(trace[j].req))
  {
    SentInStatus(trace, j);
    if j < k {
      StatusMovesForward(trace, j, k);
    } else {
      StatusMovesForward(trace, k, j);
    }
  }

  // ------------------------------------------------------------------
  // Abort
  // ------------------------------------------------------------------

  /** From the moment a transaction is marked or rolling back nobody is ever asked to prepare, to
      commit, or to commit in one phase; and no two-phase commit message was sent before. */
  lemma DoomedNeverCommits(trace: seq<Event>, k: nat)
    requires Accepted(trace) && k <= |trace|
    requires StatusAfter(trace, k) == StatusMarkedRollback || StatusAfter(trace, k) == StatusRollingBack
    ensures NeverSent(trace, Commit)
    ensures forall j | k <= j < |trace| :: trace[j].Called? ==> trace[j].req == Rollback
  {
    hide Read, Accepted;
    forall j | 0 <= j < |trace| && trace[j].Called?
      ensures trace[j].req != Commit && (k <= j ==> trace[j].req == Rollback)
    {
      SentElsewhere(trace, j, k);
    }
  }

  // ------------------------------------------------------------------
  // Recovery answers
  // ------------------------------------------------------------------

  /** The only resource of the transaction has decided by itself, in a one-phase commit. */
  predicate SoleVerdict(trace: seq<Event>) {
    exists k | 0 <= k < |trace| ::
      Requests(trace, k, CommitOnePhase) && (XaCommit in trace[k].issued || XaRollback in trace[k].issued)
  }

  lemma {:induction false} EarlyDecisionIsSole(trace: seq<Event>)
    requires Accepted(trace)
    ensures Read(trace).decision == Undecided ==> Early(Read(trace).status)
    ensures (Read(trace).decision != Undecided && Early(Read(trace).status)) ==> SoleVerdict(trace)
    decreases |trace|
  {
    if trace != [] {
      var k := |trace| - 1;
      assert trace[..k + 1] == trace;
      AcceptedAt(trace, k);
      EarlyDecisionIsSole(trace[..k]);
      SoleVerdictStays(trace, k);
      DecisionStep(Read(trace[..k]), trace[k]);
    }
  }

  lemma SoleVerdictStays(trace: seq<Event>, k: nat)
    requires k < |trace|
    ensures SoleVerdict(trace[..k]) ==> SoleVerdict(trace)
    ensures Requests(trace, k, CommitOnePhase) && (XaCommit in trace[k].issued || XaRollback in trace[k].issued) ==>
              SoleVerdict(trace)
  {
    if SoleVerdict(trace[..k]) {
      var j :| 0 <= j < k && Requests(trace[..k], j, CommitOnePhase)
                && (XaCommit in trace[..k][j].issued || XaRollback in trace[..k][j].issued);
      assert Requests(trace, j, CommitOnePhase);
    }
  }

  predicate Early(st: Status) {
    st == StatusActive || st == StatusPreparing
  }

  lemma DecisionStep(v: View, e: Event)
    requires Allowed(v, e) && (v.decision == Undecided ==> Early(v.status))
    ensures Next(v, e).decision == Undecided ==> Early(Next(v, e).status)
    ensures Early(Next(v, e).status) ==> Early(v.status)
    ensures Early(Next(v, e).status) && Next(v, e).decision != v.decision ==>
              e.Called? && e.req == CommitOnePhase && (XaCommit in e.issued || XaRollback in e.issued)
  {
  }

  /** The last status that a history assigns. */
  function LastAssigned(trace: seq<Event>): Option<Status> {
    if trace == [] then None
    else match trace[|trace| - 1]
      case StatusSet(to) => Some(to)
      case _ => LastAssigned(trace[..|trace| - 1])
  }

  lemma {:induction false} LastAssignedIsRead(trace: seq<Event>)
    requires Accepted(trace)
    ensures Read(trace).status == (if LastAssigned(trace) == None then StatusActive else LastAssigned(trace).value)
    ensures LastAssigned(trace) != Some(StatusActive)
    decreases |trace|
  {
    if trace != [] {
      LastAssignedIsRead(trace[..|trace| - 1]);
    }
  }

  /** What replay_completion answers at any point of a history, also inside an operation. Committing
      is answered only if the votes were unanimous and no rollback is ever sent; MarkedRollback and
      RollingBack only if no two-phase commit message is ever sent; and the question is refused
      exactly while there is no decision, except that a decision of the only resource by itself
      goes unnoticed. A given answer is the status that the coordinator has assigned last. */
  lemma RecoveryAnswersAreSound(trace: seq<Event>, k: nat)
    requires Accepted(trace) && k <= |trace|
    ensures var answer, v := ReplayCompletion(StatusAfter(trace, k)), Read(trace[..k]);
            && (answer == Some(StatusCommitting) ==> Unanimous(v) && NeverSent(trace, Rollback))
            && (answer == Some(StatusMarkedRollback) || answer == Some(StatusRollingBack) ==> NeverSent(trace, Commit))
            && (v.decision == Undecided ==> answer == None)
            && (answer == None ==> v.decision == Undecided || SoleVerdict(trace[..k]))
            && (answer != None ==>
                  answer.value in {StatusMarkedRollback, StatusRollingBack, StatusCommitting, StatusNoTransaction})
            && (answer == None <==> LastAssigned(trace[..k]) in {None, Some(StatusPreparing)})
            && (answer != None ==> answer == LastAssigned(trace[..k]))
  {
    AcceptedPrefix(trace, k);
    LastAssignedIsRead(trace[..k]);
    EarlyDecisionIsSole(trace[..k]);
    StatusIsRanked(trace[..k]);
    if StatusAfter(trace, k) == StatusCommitting {
      CommittingIsUnanimous(trace, k);
      CommitNeedsUnanimity(trace, k);
    }
    if StatusAfter(trace, k) == StatusMarkedRollback || StatusAfter(trace, k) == StatusRollingBack {
      DoomedNeverCommits(trace, k);
    }
  }

  // ------------------------------------------------------------------
  // Synchronization
  // ------------------------------------------------------------------

  /** The objects that after_completion was called on, in order. */
  function Notified(trace: seq<Event>): seq<Sync> {
    if trace == [] then [] else
    var e := trace[|trace| - 1];
    Notified(trace[..|trace| - 1]) + (if e.AfterCompletion? then [e.x] else [])
  }

  /** The objects that were registered, in order. */
  function SyncsJoined(trace: seq<Event>): seq<Sync> {
    if trace == [] then [] else
    var e := trace[|trace| - 1];
    SyncsJoined(trace[..|trace| - 1]) + (if e.SyncJoined? then [e.x] else [])
  }

  lemma NotifiedStep(v: View, e: Event)
    requires Allowed(v, e) && v.notified <= |v.syncs|
    ensures Next(v, e).notified <= |Next(v, e).syncs|
    ensures e.AfterCompletion? ==>
              && Next(v, e).syncs[..Next(v, e).notified] == v.syncs[..v.notified] + [e.x]
              && e.st == StatusNoTransaction
    ensures !e.AfterCompletion? ==> Next(v, e).syncs[..Next(v, e).notified] == v.syncs[..v.notified]
    ensures Next(v, e).syncs == v.syncs + (if e.SyncJoined? then [e.x] else [])
  {
  }

  /** Per transaction the after_completion calls form at most one pass: their targets are an
      initial part of the registered objects, each once and in order of registration. */
  lemma {:induction false} AfterPassIsOne(trace: seq<Event>)
    requires Accepted(trace)
    ensures Notified(trace) <= SyncsJoined(trace)
    ensures Read(trace).syncs == SyncsJoined(trace) && Read(trace).notified <= |SyncsJoined(trace)|
    ensures Notified(trace) == SyncsJoined(trace)[..Read(trace).notified]
    decreases |trace|
  {
    if trace != [] {
      var k := |trace| - 1;
      assert trace[..k + 1] == trace;
      AcceptedAt(trace, k);
      AfterPassIsOne(trace[..k]);
      NotifiedStep(Read(trace[..k]), trace[k]);
    }
  }

  /** It comes after the last message to a resource and reports NoTransaction. */
  lemma AfterPassComesLast(trace: seq<Event>, j: nat, k: nat)
    requires Accepted(trace) && j < |trace| && k < |trace| && trace[j].Called? && trace[k].AfterCompletion?
    ensures j < k && trace[k].st == StatusNoTransaction
  {
    AcceptedAt(trace, k);
    SentElsewhere(trace, j, k);
  }
}

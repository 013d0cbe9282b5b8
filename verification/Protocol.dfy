/** The reference two-phase-commit protocol: an automaton that reads a history event by event and
    says which event may come next. It knows nothing of the coordinator's loops or of its list. */
module Protocol {
  import opened OtsTypes
  import opened CoordinatorSpec

  datatype Decision = Undecided | ToCommit | ToAbort

  /** What a history amounts to. */
  datatype View = View(
    status: Status,
    joined: seq<Ref>,       // in registration order
    syncs: seq<Sync>,       // in registration order
    prepared: seq<Ref>,     // in the order in which prepare was sent
    favourable: bool,       // every prepare so far was answered with a commit or read-only vote
    notified: nat,          // how many after_completion calls were made
    committed: set<Ref>,    // who has been made to issue xacommit
    aborted: set<Ref>,      // who has been made to issue xarollback
    decision: Decision,     // the first decision taken, by the coordinator or by its only resource
    late: bool)             // a resource joined after another one had issued xacommit

  const START := View(StatusActive, [], [], [], true, 0, {}, {}, Undecided, false)

  predicate Favours(reply: Reply) {
    reply == Voted(VoteCommit) || reply == Voted(VoteReadOnly)
  }

  function Decide(d: Decision, to: Decision): Decision {
    if d == Undecided then to else d
  }

  function DecisionOf(v: View, e: Event): Decision {
    match e
    case StatusSet(StatusCommitting) => Decide(v.decision, ToCommit)
    case StatusSet(StatusMarkedRollback) => Decide(v.decision, ToAbort)
    case StatusSet(StatusRollingBack) => Decide(v.decision, ToAbort)
    case StatusSet(StatusNoTransaction) => Decide(v.decision, ToCommit)  // nobody to ask
    case Called(CommitOnePhase, _, _, issued) =>
      if XaCommit in issued then Decide(v.decision, ToCommit)
      else if XaRollback in issued then Decide(v.decision, ToAbort)
      else v.decision
    case _ => v.decision
  }

  function Next(v: View, e: Event): View {
    var w := v.(decision := DecisionOf(v, e));
    match e
    case Joined(r) => w.(joined := v.joined + [r], late := v.late || v.committed != {})
    case SyncJoined(x) => w.(syncs := v.syncs + [x])
    case StatusSet(to) => w.(status := to)
    case Called(req, r, reply, issued) =>
      var u := w.(committed := if XaCommit in issued then v.committed + {r} else v.committed,
                  aborted := if XaRollback in issued then v.aborted + {r} else v.aborted);
      if req == Prepare then u.(prepared := v.prepared + [r], favourable := v.favourable && Favours(reply)) else u
    case BeforeCompletion(_) => w
    case AfterCompletion(_, _) => w.(notified := v.notified + 1)
  }

  function Read(trace: seq<Event>): View {
    if trace == [] then START else Next(Read(trace[..|trace| - 1]), trace[|trace| - 1])
  }

  predicate MayMove(v: View, to: Status) {
    match to
    case StatusPreparing => v.status == StatusActive && |v.joined| >= 2
    case StatusMarkedRollback => v.status == StatusActive || (v.status == StatusPreparing && !v.favourable)
    case StatusCommitting => v.status == StatusPreparing && v.favourable && v.prepared == v.joined
    case StatusRollingBack => v.status == StatusActive || v.status == StatusMarkedRollback
    case StatusNoTransaction =>
      v.status == StatusCommitting || v.status == StatusRollingBack || (v.status == StatusActive && v.joined == [])
    case _ => false
  }

  /** The protocol proper: which event may follow a history. */
  predicate Allowed(v: View, e: Event) {
    match e
    case Joined(r) => v.status == StatusActive && r !in v.joined
    case SyncJoined(_) => v.status == StatusActive
    case StatusSet(to) => MayMove(v, to)
    case Called(Prepare, r, _, _) =>
      v.status == StatusPreparing && v.favourable && |v.prepared| < |v.joined| && r == v.joined[|v.prepared|]
    case Called(Commit, r, _, _) => v.status == StatusCommitting && r in v.joined
    case Called(Rollback, r, _, _) => v.status == StatusRollingBack && r in v.joined
    case Called(CommitOnePhase, r, _, _) => v.status == StatusActive && v.joined == [r]
    case Called(_, _, _, _) => v.status == StatusActive
    case BeforeCompletion(x) => v.status == StatusActive && x in v.syncs
    case AfterCompletion(x, st) =>
      v.status == StatusNoTransaction && st == StatusNoTransaction && v.notified < |v.syncs| && x == v.syncs[v.notified]
  }

  // ------------------------------------------------------------------
  // Atomic commitment: one decision, and effects that follow it
  // ------------------------------------------------------------------

  datatype Abstract = Abstract(decision: Decision, committed: set<Ref>, aborted: set<Ref>)

  function AbstractOf(v: View): Abstract {
    Abstract(v.decision, v.committed, v.aborted)
  }

  /** A step of the abstract machine: it may take the decision once, and it may let one more
      participant take effect in the direction of the decision. */
  predicate AbstractStep(a: Abstract, b: Abstract) {
    && (a.decision != Undecided ==> b.decision == a.decision)
    && a.committed <= b.committed && a.aborted <= b.aborted
    && (b.committed != a.committed ==> b.decision == ToCommit)
    && (b.aborted != a.aborted ==> b.decision == ToAbort)
  }

  predicate Follows(v: View, e: Event) {
    Allowed(v, e) && (Next(v, e).late || AbstractStep(AbstractOf(v), AbstractOf(Next(v, e))))
  }

  /** Every event of the history is a step of the protocol, and a step of the abstract machine. */
  predicate Accepted(trace: seq<Event>) {
    trace == [] ||
    (Accepted(trace[..|trace| - 1]) && Follows(Read(trace[..|trace| - 1]), trace[|trace| - 1]))
  }

  lemma AcceptedExtended(trace: seq<Event>, e: Event)
    ensures Read(trace + [e]) == Next(Read(trace), e)
    ensures Accepted(trace) && Follows(Read(trace), e) ==> Accepted(trace + [e])
  {
    assert (trace + [e])[..|trace|] == trace;
  }

  /** The view after k events, and the step from there. */
  lemma {:induction false} AcceptedAt(trace: seq<Event>, k: nat)
    requires Accepted(trace) && k < |trace|
    ensures Accepted(trace[..k]) && Read(trace[..k + 1]) == Next(Read(trace[..k]), trace[k])
    ensures Follows(Read(trace[..k]), trace[k])
    decreases |trace|
  {
    var n := |trace| - 1;
    if k == n {
      assert trace[..k + 1] == trace;
    } else {
      AcceptedAt(trace[..n], k);
      assert trace[..n][..k] == trace[..k] && trace[..n][..k + 1] == trace[..k + 1];
    }
  }

  lemma AcceptedPrefix(trace: seq<Event>, k: nat)
    requires Accepted(trace) && k <= |trace|
    ensures Accepted(trace[..k])
  {
    if k < |trace| {
      AcceptedAt(trace, k);
    } else {
      assert trace[..k] == trace;
    }
  }

  // ------------------------------------------------------------------
  // Properties of every accepted history
  // ------------------------------------------------------------------

  function Rank(st: Status): nat {
    match st
    case StatusActive => 0
    case StatusPreparing => 1
    case StatusMarkedRollback => 2
    case StatusRollingBack | StatusCommitting => 3
    case StatusNoTransaction => 4
    case _ => 5
  }

  /** One move forward, or none. */
  predicate Forward(u: Status, v: Status) {
    && (u == v || Rank(u) < Rank(v)) && Rank(v) <= 4
    && (u == StatusMarkedRollback ==> v != StatusCommitting)
  }

  lemma StepMovesForward(v: View, e: Event)
    requires Rank(v.status) <= 4 && Allowed(v, e)
    ensures Forward(v.status, Next(v, e).status)
    ensures Next(v, e).status != v.status ==> e == StatusSet(Next(v, e).status)
  {
  }

  lemma {:induction false} StatusIsRanked(trace: seq<Event>)
    requires Accepted(trace)
    ensures Rank(Read(trace).status) <= 4
    decreases |trace|
  {
    if trace != [] {
      var k := |trace| - 1;
      assert trace[..k + 1] == trace;
      AcceptedAt(trace, k);
      StatusIsRanked(trace[..k]);
      StepMovesForward(Read(trace[..k]), trace[k]);
    }
  }

  lemma StatusAt(trace: seq<Event>, k: nat)
    requires Accepted(trace) && k < |trace|
    ensures Forward(Read(trace[..k]).status, Read(trace[..k + 1]).status)
    ensures Read(trace[..k + 1]).status != Read(trace[..k]).status ==>
              trace[k] == StatusSet(Read(trace[..k + 1]).status)
  {
    AcceptedAt(trace, k);
    StatusIsRanked(trace[..k]);
    StepMovesForward(Read(trace[..k]), trace[k]);
  }

  function StatusAfter(trace: seq<Event>, k: nat): Status
    requires k <= |trace|
  {
    Read(trace[..k]).status
  }

  /** The status only moves forward along the ranks, also inside an operation, and never comes to
      Prepared, Committed, RolledBack or Unknown. Committing and RollingBack, of equal rank, never
      follow one another, and a marked transaction never commits. */
  lemma {:induction false} StatusMovesForward(trace: seq<Event>, j: nat, k: nat)
    requires Accepted(trace) && j <= k <= |trace|
    ensures Forward(StatusAfter(trace, j), StatusAfter(trace, k))
    decreases k - j
  {
    if j == k {
      AcceptedPrefix(trace, j);
      StatusIsRanked(trace[..j]);
    } else {
      StatusMovesForward(trace, j, k - 1);
      StatusAt(trace, k - 1);
    }
  }

  /** No decision is ever revised, and what participants have done follows it. */
  lemma {:induction false} EffectsFollowDecision(trace: seq<Event>)
    requires Accepted(trace) && !Read(trace).late
    ensures var v := Read(trace);
            (v.committed != {} ==> v.decision == ToCommit) && (v.aborted != {} ==> v.decision == ToAbort)
    decreases |trace|
  {
    if trace != [] {
      var k := |trace| - 1;
      assert trace[..k + 1] == trace;
      AcceptedAt(trace, k);
      EffectsFollowDecision(trace[..k]);
    }
  }

  /** The requests of one kind, in the order in which they were sent. */
  function Sent(trace: seq<Event>, req: Request): seq<Ref> {
    if trace == [] then [] else
    var e := trace[|trace| - 1];
    Sent(trace[..|trace| - 1], req) + (if e.Called? && e.req == req then [e.r] else [])
  }

  lemma {:induction false} SentIsRead(trace: seq<Event>)
    ensures Sent(trace, Prepare) == Read(trace).prepared
    decreases |trace|
  {
    if trace != [] {
      SentIsRead(trace[..|trace| - 1]);
    }
  }
}

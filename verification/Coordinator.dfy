/** The coordinator as an object: fields updated in place, loops over the list, remote calls through
    the ORB. Every method is proved to do what CoordinatorSpec says. */
module Coordinators {
  import opened OtsTypes
  import opened Participants
  import opened CoordinatorSpec

  /** The request broker: which servant answers to which reference, and what the network does. */
  class Orb {
    var servants: map<Ref, PgResource>
    const fates: Fates

    ghost predicate Valid()
      reads this
    {
      forall a, b | a in servants && b in servants && a != b :: servants[a] != servants[b]
    }

    ghost function Objects(): set<PgResource>
      reads this
    {
      set r | r in servants :: servants[r]
    }

    ghost function Parts(): map<Ref, Participant>
      reads this, Objects()
    {
      map r | r in servants :: servants[r].State()
    }

    constructor (servants: map<Ref, PgResource>, fates: Fates)
      requires forall a, b | a in servants && b in servants && a != b :: servants[a] != servants[b]
      ensures Valid() && this.servants == servants && this.fates == fates
    {
      this.servants := servants;
      this.fates := fates;
    }

    /** Executes a request at the object behind a reference. */
    method Execute(req: Request, r: Ref, db: Database) returns (reply: Reply, issued: seq<Command>)
      requires Valid() && r in servants
      modifies Objects()
      ensures Valid() && servants == old(servants)
      ensures (Parts()[r], reply) == Serve(old(Parts())[r], req, db)
      ensures Parts() == old(Parts())[r := Parts()[r]]
      ensures issued == Issued(old(Parts())[r], req, db)
    {
      var servant := servants[r];
      ghost var before := servant.State();
      var sent := |servant.commands|;
      reply := servant.Dispatch(req, db);
      issued := servant.commands[sent..];
      assert servant.commands == before.commands + Issued(before, req, db);
      assert forall x | x in servants && x != r :: servants[x].State() == old(servants[x].State());
    }
  }

  class Coordinator {
    var status: Status
    var list: seq<Entry>
    var syncs: seq<Sync>
    var nextRc: nat
    var trace: seq<Event>
    const orb: Orb

    ghost predicate Valid()
      reads this, orb
    {
      orb.Valid()
    }

    /** The state of the transaction. */
    ghost function Model(): Sys
      reads this, orb, orb.Objects()
    {
      Sys(status, list, syncs, nextRc, trace, orb.Parts())
    }

    constructor (orb: Orb)
      requires orb.Valid()
      ensures Valid() && this.orb == orb && Model() == NewTransaction(orb.Parts())
    {
      status, list, syncs, nextRc, trace := StatusActive, [], [], 0, [];
      this.orb := orb;
    }

    /** An entry of the history. */
    method Record(e: Event)
      requires Valid()
      modifies this`trace
      ensures Valid() && Model() == Emit(old(Model()), e)
    {
      trace := trace + [e];
    }

    /** Assignment to the status, recorded in the history. */
    method AssignStatus(to: Status)
      requires Valid()
      modifies this`status, this`trace
      ensures Valid() && Model() == SetStatus(old(Model()), to)
    {
      status := to;
      trace := trace + [StatusSet(to)];
    }

    /** A remote call. */
    method Invoke(req: Request, r: Ref) returns (reply: Reply)
      requires Valid()
      modifies this`trace, orb.Objects()
      ensures Valid() && (Model(), reply) == Call(old(Model()), orb.fates, req, r)
      ensures orb.servants == old(orb.servants)
    {
      hide Serve, Issued;
      var fate := if r in orb.servants then orb.fates(|trace|) else NotExecuted(ObjectNotExist);
      var issued: seq<Command> := [];
      match fate {
        case NotExecuted(e) =>
          reply := Failed(e);
        case Delivered(db) =>
          reply, issued := orb.Execute(req, r, db);
        case ReplyLost(db, e) =>
          reply, issued := orb.Execute(req, r, db);
          reply := Failed(e);
      }
      Record(Called(req, r, reply, issued));
    }

    method FindResource(r: Ref) returns (i: nat)
      ensures i == Find(list, r)
    {
      i := 0;
      while i < |list|
        invariant i <= |list| && forall j | 0 <= j < i :: list[j].r != r
      {
        if list[i].r == r {
          FindIsFirst(list, r, i);
          return;
        }
        i := i + 1;
      }
      FindIsFirst(list, r, i);
    }

    /** Creates a recovery coordinator for a resource and lists it. */
    method IntroduceResource(r: Ref) returns (end: Outcome, rc: Option<nat>)
      requires Valid()
      modifies this, orb.Objects()
      ensures Valid() && (Model(), end, rc) == Introduce(old(Model()), orb.fates, r)
      ensures orb.servants == old(orb.servants)
    {
      hide Call;
      ghost var before := Model();
      var created := nextRc;
      nextRc := nextRc + 1;
      assert Model() == before.(nextRc := created + 1);
      var reply := Invoke(SetRecoveryCoordinator(created), r);
      if reply.Failed? {
        return Escape(reply), None;
      }
      ghost var told := Model();
      list := list + [Entry(r, created, RvNotPrepared)];
      assert Model() == told.(entries := list);
      Record(Joined(r));
      return Returned, Some(created);
    }

    /** Registration of a resource that is not in the list. */
    method EnlistResource(r: Ref) returns (end: Outcome, rc: Option<nat>)
      requires Valid()
      modifies this, orb.Objects()
      ensures Valid() && (Model(), end, rc) == Enlist(old(Model()), orb.fates, r)
      ensures orb.servants == old(orb.servants)
    {
      hide Call, Introduce;
      var reply := Invoke(Forget, r);
      if reply.Failed? {
        return Escape(reply), None;
      }
      reply := Invoke(BeginTrans, r);
      if reply.Failed? {
        return Escape(reply), None;
      }
      if reply == Began(false) {
        return Raised(Inactive), None;
      }
      end, rc := IntroduceResource(r);
    }

    method RegisterResource(r: Ref) returns (end: Outcome, rc: Option<nat>)
      requires Valid()
      modifies this, orb.Objects()
      ensures Valid() && (Model(), end, rc) == Register(old(Model()), orb.fates, r)
      ensures orb.servants == old(orb.servants)
    {
      hide Call, Enlist;
      match status {
        case StatusActive =>
          var i := FindResource(r);
          if i < |list| {
            return Returned, Some(list[i].rc);
          }
          end, rc := EnlistResource(r);
        case StatusMarkedRollback =>
          return Raised(TransactionRolledBack), None;
        case _ =>
          return Raised(Inactive), None;
      }
    }

    method RegisterSynchronization(x: Sync) returns (end: Outcome)
      requires Valid()
      modifies this
      ensures Valid() && (Model(), end) == RegisterSync(old(Model()), x)
    {
      if status != StatusActive {
        return Raised(Inactive);
      }
      ghost var before := Model();
      syncs := syncs + [x];
      assert Model() == before.(syncs := before.syncs + [x]);
      Record(SyncJoined(x));
      end := Returned;
    }

    method MarkRollbackOnly() returns (end: Outcome)
      requires Valid()
      modifies this
      ensures Valid() && (Model(), end) == RollbackOnly(old(Model()))
    {
      match status {
        case StatusActive =>
          AssignStatus(StatusMarkedRollback);
          end := Returned;
        case StatusMarkedRollback =>
          end := Returned;
        case _ =>
          end := Raised(Inactive);
      }
    }

    method BeforeAll()
      requires Valid()
      modifies this`trace
      ensures Valid() && Model() == BeforeFrom(old(Model()), 0)
    {
      var i := 0;
      while i < |syncs|
        invariant i <= |syncs| && Valid() && BeforeFrom(Model(), i) == BeforeFrom(old(Model()), 0)
      {
        Record(BeforeCompletion(syncs[i]));
        i := i + 1;
      }
    }

    method AfterAll()
      requires Valid()
      modifies this`trace
      ensures Valid() && Model() == AfterFrom(old(Model()), 0)
    {
      var i := 0;
      while i < |syncs|
        invariant i <= |syncs| && Valid() && AfterFrom(Model(), i) == AfterFrom(old(Model()), 0)
      {
        Record(AfterCompletion(syncs[i], status));
        i := i + 1;
      }
    }

    method EnterVote(i: nat, rv: ResourceVote)
      requires Valid() && i < |list|
      modifies this`list
      ensures Valid() && Model() == SetVoteAt(old(Model()), i, rv)
    {
      list := list[i := list[i].(rv := rv)];
    }

    /** The loop that asks every resource to prepare, until one votes rollback. */
    method PrepareAll() returns (end: Outcome)
      requires Valid()
      modifies this, orb.Objects()
      ensures Valid() && (Model(), end) == PrepareFrom(old(Model()), orb.fates, 0)
      ensures orb.servants == old(orb.servants)
    {
      hide Call;
      var i := 0;
      while i < |list| && status != StatusMarkedRollback
        invariant i <= |list| && Valid() && orb.servants == old(orb.servants)
        invariant PrepareFrom(Model(), orb.fates, i) == PrepareFrom(old(Model()), orb.fates, 0)
        decreases |list| - i
      {
        var reply := Invoke(Prepare, list[i].r);
        match VoteCounted(reply) {
          case None =>
            return Escape(reply);
          case Some(VoteCommit) =>
            EnterVote(i, RvVoteCommit);
          case Some(VoteReadOnly) =>
            EnterVote(i, RvVoteReadOnly);
          case Some(VoteRollback) =>
            EnterVote(i, RvRolledBack);
            AssignStatus(StatusMarkedRollback);
        }
        i := i + 1;
      }
      end := Returned;
    }

    method ChangeVote(r: Ref, rv: ResourceVote)
      requires Valid()
      modifies this`list
      ensures Valid() && Model() == ChangeResourceVote(old(Model()), r, rv)
    {
      var i := FindResource(r);
      if i < |list| {
        EnterVote(i, rv);
      }
    }

    /** One of the four second-phase loops. */
    method SweepAll(pass: Pass) returns (heuristics: bool, end: Outcome)
      requires Valid()
      modifies this, orb.Objects()
      ensures Valid() && (Model(), heuristics, end) == Sweep(old(Model()), orb.fates, pass, 0, false)
      ensures orb.servants == old(orb.servants)
    {
      hide Call;
      heuristics := false;
      var i := 0;
      while i < |list|
        invariant i <= |list| && Valid() && orb.servants == old(orb.servants)
        invariant Sweep(Model(), orb.fates, pass, i, heuristics) == Sweep(old(Model()), orb.fates, pass, 0, false)
        decreases |list| - i
      {
        var entry := list[i];
        if Eligible(pass, entry.rv) {
          var reply := Invoke(PassRequest(pass), entry.r);
          if reply == Done {
            ChangeVote(entry.r, Settled(pass));
          } else if Forgiven(pass, reply) {
            heuristics := true;
          } else {
            return heuristics, Escape(reply);
          }
        }
        i := i + 1;
      }
      end := Returned;
    }

    method RollbackAll() returns (end: Outcome)
      requires Valid()
      modifies this, orb.Objects()
      ensures Valid() && (Model(), end) == RollbackTransaction(old(Model()), orb.fates)
      ensures orb.servants == old(orb.servants)
    {
      var heuristics;
      match status {
        case StatusActive | StatusMarkedRollback =>
          AssignStatus(StatusRollingBack);
          heuristics, end := SweepAll(FirstRollback);
          if end != Returned {
            return;
          }
          AssignStatus(StatusNoTransaction);
          if heuristics {
            return Raised(HeuristicHazard);
          }
        case StatusCommitted =>
          return Raised(WrongTransaction);
        case StatusNoTransaction =>
          return Raised(InvalidTransaction);
        case StatusRollingBack =>
          heuristics, end := SweepAll(RetryRollback);
          if end != Returned {
            return;
          }
          AssignStatus(StatusNoTransaction);
        case _ =>
          return Returned;
      }
      AfterAll();
      end := Returned;
    }

    /** The rollback that commit falls back to, and the exception that follows it. */
    method RollbackAndRaise() returns (end: Outcome)
      requires Valid()
      modifies this, orb.Objects()
      ensures Valid() && (Model(), end) == RollbackInstead(old(Model()), orb.fates)
      ensures orb.servants == old(orb.servants)
    {
      end := RollbackAll();
      if end == Returned {
        end := Raised(TransactionRolledBack);
      }
    }

    method CommitTheOnlyResource(report: bool) returns (end: Outcome)
      requires Valid() && |list| == 1
      modifies this, orb.Objects()
      ensures Valid() && (Model(), end) == CommitOnlyResource(old(Model()), orb.fates, report)
      ensures orb.servants == old(orb.servants)
    {
      var reply := Invoke(CommitOnePhase, list[0].r);
      if reply.Failed? && Tolerated(reply.error) {
        return if report then Raised(HeuristicHazard) else Returned;
      }
      end := Escape(reply);
    }

    method CommitAllPrepared(report: bool) returns (end: Outcome)
      requires Valid()
      modifies this, orb.Objects()
      ensures Valid() && (Model(), end) == CommitPrepared(old(Model()), orb.fates, report)
      ensures orb.servants == old(orb.servants)
    {
      AssignStatus(StatusCommitting);
      var heuristics;
      heuristics, end := SweepAll(FirstCommit);
      if end != Returned {
        return;
      }
      AssignStatus(StatusNoTransaction);
      AfterAll();
      end := if report && heuristics then Raised(HeuristicHazard) else Returned;
    }

    method CommitInTwoPhases(report: bool) returns (end: Outcome)
      requires Valid()
      modifies this, orb.Objects()
      ensures Valid() && (Model(), end) == TwoPhase(old(Model()), orb.fates, report)
      ensures orb.servants == old(orb.servants)
    {
      AssignStatus(StatusPreparing);
      end := PrepareAll();
      if end != Returned {
        return;
      }
      if status == StatusMarkedRollback {
        end := RollbackAndRaise();
      } else {
        end := CommitAllPrepared(report);
      }
    }

    method CommitAll(report: bool) returns (end: Outcome)
      requires Valid()
      modifies this, orb.Objects()
      ensures Valid() && (Model(), end) == CommitTransaction(old(Model()), orb.fates, report)
      ensures orb.servants == old(orb.servants)
    {
      match status {
        case StatusActive =>
          BeforeAll();
          if |list| == 0 {
            AssignStatus(StatusNoTransaction);
            end := Returned;
          } else if |list| == 1 {
            end := CommitTheOnlyResource(report);
          } else {
            end := CommitInTwoPhases(report);
          }
        case StatusMarkedRollback =>
          end := RollbackAndRaise();
        case StatusRolledBack =>
          end := Raised(TransactionRolledBack);
        case StatusCommitting =>
          var heuristics;
          heuristics, end := SweepAll(RetryCommit);
          if end == Returned {
            AssignStatus(StatusNoTransaction);
          }
        case StatusRollingBack =>
          end := Blocked;  // waits for RolledBack
        case _ =>
          end := Returned;
      }
    }
  }

  lemma {:induction false} FindIsFirst(entries: seq<Entry>, r: Ref, i: nat)
    requires i <= |entries| && (forall j | 0 <= j < i :: entries[j].r != r)
    requires i < |entries| ==> entries[i].r == r
    ensures Find(entries, r) == i
  {
    var k := Find(entries, r);
    if k < i {
      assert false;
    }
  }
}

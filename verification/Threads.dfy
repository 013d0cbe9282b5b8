/** Any number of threads using Current at the same time, in any interleaving. */
module Threads {
  import opened OtsTypes
  import opened Participants
  import opened CoordinatorSpec
  import opened Invariant
  import opened Runs
  import opened Growth
  import opened Forecasts
  import opened Endings
  import opened Currents

  type ControlId = nat

  /** The slots, all transactions ever begun, and the id for the next one. Every transaction has its
      own participants. */
  datatype World = World(slots: map<Thread, ControlId>, txs: map<ControlId, Sys>, next: ControlId, factory: bool)

  /** What a thread may do next. */
  datatype Act =
    | ActBegin(name: Option<string>, parts: map<Ref, Participant>)
    | ActCommit(report: bool)
    | ActRollback
    | ActRollbackOnly
    | ActRegister(r: Ref)                     // with the coordinator of the current control
    | ActRegisterSync(x: Sync)
    | ActSuspend
    | ActResume(control: Option<ControlId>)

  datatype Turn = Turn(t: Thread, act: Act)

  /** An environment for each transaction. */
  type Environment = ControlId -> Fates

  function OpOf(act: Act): Option<Op> {
    match act
    case ActCommit(report) => Some(OpCommit(report))
    case ActRollback => Some(OpRollback)
    case ActRollbackOnly => Some(OpRollbackOnly)
    case ActRegister(r) => Some(OpRegister(r))
    case ActRegisterSync(x) => Some(OpRegisterSync(x))
    case _ => None
  }

  predicate Ends(act: Act) {
    act.ActCommit? || act.ActRollback?
  }

  /** An operation on the transaction of the thread. A control that is not one of ours is dead. */
  function OnTransaction(w: World, env: Environment, t: Thread, op: Op): (World, Ending) {
    if t !in w.slots then (w, NoTransaction)
    else
      var c := w.slots[t];
      if c !in w.txs then (w, Ended(Raised(SystemException(ObjectNotExist))))
      else
        var (s, end) := Step(w.txs[c], env(c), op);
        (w.(txs := w.txs[c := s]), Ended(end))
  }

  function Take(w: World, env: Environment, turn: Turn): (World, Ending) {
    var t := turn.t;
    match turn.act
    case ActBegin(name, parts) =>
      (match BeginRefusal(name, w.factory, t in w.slots)
       case Some(why) => (w, why)
       case None =>
         (World(w.slots[t := w.next], w.txs[w.next := NewTransaction(parts)], w.next + 1, w.factory), Ended(Returned)))
    case ActSuspend => (w.(slots := w.slots - {t}), Ended(Returned))
    case ActResume(control) => (w.(slots := Resumed(w.slots, t, control)), Ended(Returned))
    case _ =>
      var (v, end) := OnTransaction(w, env, t, OpOf(turn.act).value);
      (if Ends(turn.act) then v.(slots := Freed(w.slots, t, end)) else v, end)
  }

  function TakeAll(w: World, env: Environment, turns: seq<Turn>): World
    decreases |turns|
  {
    if turns == [] then w else TakeAll(Take(w, env, turns[0]).0, env, turns[1..])
  }

  // ------------------------------------------------------------------
  // Who can touch what
  // ------------------------------------------------------------------

  predicate Sane(w: World) {
    forall c | c in w.txs :: c < w.next
  }

  predicate Holds(w: World, t: Thread, c: ControlId) {
    t in w.slots && w.slots[t] == c
  }

  predicate Held(w: World, c: ControlId) {
    exists t | t in w.slots :: w.slots[t] == c
  }

  lemma OperationReach(w: World, env: Environment, t: Thread, op: Op)
    ensures var v := OnTransaction(w, env, t, op).0;
            && v == w.(txs := v.txs) && v.txs.Keys == w.txs.Keys
            && (forall c | c in w.txs && !Holds(w, t, c) :: v.txs[c] == w.txs[c])
  {
    hide Step;
  }

  /** A turn reaches at most one slot, its own, and one transaction, that of its own slot. */
  lemma TurnReach(w: World, env: Environment, turn: Turn)
    requires Sane(w)
    ensures var v := Take(w, env, turn).0;
            && Sane(v) && w.next <= v.next && v.factory == w.factory && w.txs.Keys <= v.txs.Keys
            && (forall t, c | t != turn.t :: Holds(v, t, c) <==> Holds(w, t, c))
            && (forall c | c in w.txs && !Holds(w, turn.t, c) :: v.txs[c] == w.txs[c])
            && (forall c | c in w.txs && Holds(v, turn.t, c) ::
                  Holds(w, turn.t, c) || turn.act == ActResume(Some(c)))
  {
    hide OnTransaction;
    if OpOf(turn.act).Some? {
      OperationReach(w, env, turn.t, OpOf(turn.act).value);
    }
  }

  lemma {:induction false} NotResumedNotTouched(w: World, env: Environment, turns: seq<Turn>, c: ControlId)
    requires Sane(w) && c in w.txs && !Held(w, c)
    requires forall k | 0 <= k < |turns| :: turns[k].act != ActResume(Some(c))
    ensures var v := TakeAll(w, env, turns);
            Sane(v) && v.factory == w.factory && c in v.txs && v.txs[c] == w.txs[c] && !Held(v, c)
    decreases |turns|
  {
    hide Take;
    if turns != [] {
      TurnReach(w, env, turns[0]);
      var v := Take(w, env, turns[0]).0;
      assert forall u :: !Holds(w, u, c);
      assert forall u | u in v.slots :: Holds(v, u, v.slots[u]);
      NotResumedNotTouched(v, env, turns[1..], c);
    }
  }

  /** The thread-context frame. A thread that is in transaction c cannot begin another; it suspends,
      and can begin exactly if there is a factory. Whatever this thread and any other threads do
      then, in any interleaving and with any result, if nobody resumes c in between, resuming it
      puts the thread back into c and finds c exactly as it was. */
  lemma NestedWork(w: World, env: Environment, t: Thread, c: ControlId,
                   name: string, parts: map<Ref, Participant>, turns: seq<Turn>)
    requires Sane(w) && c in w.txs && forall u, d | Holds(w, u, d) :: d == c <==> u == t
    requires Holds(w, t, c) && forall k | 0 <= k < |turns| :: turns[k].act != ActResume(Some(c))
    ensures var begin := Turn(t, ActBegin(Some(name), parts));
            var w1 := Take(w, env, Turn(t, ActSuspend)).0;
            var w2 := TakeAll(w1, env, turns);
            var w3 := Take(w2, env, Turn(t, ActResume(Some(c)))).0;
            && Take(w, env, begin).1 != Ended(Returned)
            && (Take(w1, env, begin).1 == Ended(Returned) <==> w.factory)
            && Holds(w3, t, c) && c in w3.txs && w3.txs[c] == w.txs[c]
            && (forall u, d | u != t :: Holds(w3, u, d) <==> Holds(w2, u, d))
  {
    var w1 := Take(w, env, Turn(t, ActSuspend)).0;
    forall u | u in w1.slots ensures w1.slots[u] != c {
      assert Holds(w, u, w.slots[u]);
    }
    NotResumedNotTouched(w1, env, turns, c);
  }

  /** Begin, in every situation: each refusal with its cause; and it returns normally exactly if there is a
      name, a factory and no current transaction; then the thread is in a transaction that nobody else is in, which is a
      new one if its participants are. */
  lemma BeginIff(w: World, env: Environment, t: Thread, name: Option<string>, parts: map<Ref, Participant>)
    requires Sane(w) && forall u | u in w.slots :: w.slots[u] < w.next
    ensures var (v, end) := Take(w, env, Turn(t, ActBegin(name, parts)));
            && (end == Ended(Returned) <==> name != None && w.factory && t !in w.slots)
            && (end == BadParam <==> name == None)
            && (end == NoImplement <==> name != None && !w.factory)
            && (end == SubtransactionsUnavailable <==> name != None && w.factory && t in w.slots)
            && (end != Ended(Returned) ==> v == w)
            && (end == Ended(Returned) ==>
                  && t in v.slots && v.slots[t] !in w.txs && v.slots[t] in v.txs
                  && (forall u | Holds(v, u, v.slots[t]) :: u == t)
                  && (Initial(v.txs[v.slots[t]]) <==> forall r | r in parts :: Fresh(parts[r])))
  {
  }

  /** Suspend and resume touch the slot of their thread only: suspend empties it, resume of a control puts
      it in, whatever was there, and resume of nil changes nothing. */
  lemma SuspendAndResume(w: World, env: Environment, t: Thread, c: ControlId)
    ensures var (v, end) := Take(w, env, Turn(t, ActSuspend));
            && end == Ended(Returned) && v == w.(slots := v.slots) && v.slots.Keys == w.slots.Keys - {t}
            && forall u, d | u != t :: Holds(v, u, d) <==> Holds(w, u, d)
    ensures Take(w, env, Turn(t, ActResume(None))) == (w, Ended(Returned))
    ensures var (v, end) := Take(w, env, Turn(t, ActResume(Some(c))));
            && end == Ended(Returned) && v == w.(slots := v.slots) && Holds(v, t, c)
            && forall u, d | u != t :: Holds(v, u, d) <==> Holds(w, u, d)
  {
  }

  /** A thread without a transaction is told so by every operation on it, and nothing happens. */
  lemma OutsideTransaction(w: World, env: Environment, t: Thread, act: Act)
    requires t !in w.slots && !act.ActBegin? && !act.ActSuspend? && !act.ActResume?
    ensures Take(w, env, Turn(t, act)) == (w, NoTransaction)
  {
  }

  /** Every transaction begun among new participants, by whatever thread, is and stays in a state
      that its coordinator alone could have reached. */
  predicate AllRest(w: World) {
    forall c | c in w.txs :: Resting(w.txs[c])
  }

  predicate AmongNew(turn: Turn) {
    turn.act.ActBegin? ==> forall r | r in turn.act.parts :: Fresh(turn.act.parts[r])
  }

  lemma TurnRests(w: World, env: Environment, turn: Turn)
    requires AllRest(w) && AmongNew(turn)
    ensures AllRest(Take(w, env, turn).0)
  {
    hide Step, Inv;
    if turn.act.ActBegin? {
      InitialFits(NewTransaction(turn.act.parts));
    } else if turn.t in w.slots && w.slots[turn.t] in w.txs && OpOf(turn.act).Some? {
      StepKeeps(w.txs[w.slots[turn.t]], env(w.slots[turn.t]), OpOf(turn.act).value);
    }
  }

  lemma {:induction false} EveryTransactionRests(w: World, env: Environment, turns: seq<Turn>)
    requires AllRest(w) && forall k | 0 <= k < |turns| :: AmongNew(turns[k])
    ensures AllRest(TakeAll(w, env, turns))
    decreases |turns|
  {
    hide Take;
    if turns != [] {
      TurnRests(w, env, turns[0]);
      EveryTransactionRests(Take(w, env, turns[0]).0, env, turns[1..]);
    }
  }

  // ------------------------------------------------------------------
  // After commit and rollback
  // ------------------------------------------------------------------

  /** After a commit or rollback a thread can begin a new transaction exactly if that call returned
      normally or raised NoTransaction. */
  lemma BeginAfterEnd(w: World, env: Environment, t: Thread, act: Act, name: string, parts: map<Ref, Participant>)
    requires Ends(act) && w.factory
    ensures var (v, end) := Take(w, env, Turn(t, act));
            Take(v, env, Turn(t, ActBegin(Some(name), parts))).1 == Ended(Returned) <==>
              end == Ended(Returned) || end == NoTransaction
  {
    hide Step;
  }

  /** The commit or rollback of this transaction, if it ends it, raises an exception all the same: a
      marked transaction, a first phase that stops at a rollback vote, an answer to the first commit
      pass that is lost while heuristics are reported, or one to the first rollback pass. */
  predicate EndsWithException(s: Sys, fates: Fates, act: Act) {
    match act
    case ActCommit(report) =>
      || s.status == StatusMarkedRollback
      || (s.status == StatusActive && |s.entries| >= 2 && PhaseOf(s, fates).StopsAt?)
      || (s.status == StatusActive && |s.entries| >= 2 && PhaseOf(s, fates).AllFavour?
          && report && AnyLost(fates, CommitsFrom(s), |s.entries|))
    case ActRollback =>
      || s.status == StatusNoTransaction
      || ((s.status == StatusActive || s.status == StatusMarkedRollback)
          && AnyLost(fates, |s.trace| + 1, |s.entries|))
    case _ => false
  }

  lemma CommitEndsIff(s: Sys, fates: Fates, report: bool)
    requires Resting(s) && CommitTransaction(s, fates, report).0.status == StatusNoTransaction
    ensures CommitTransaction(s, fates, report).1 != Returned <==> EndsWithException(s, fates, ActCommit(report))
  {
    hide Inv, PhaseOf, CommitsFrom, Sweep, TwoPhase, RollbackTransaction;
    if s.status == StatusActive {
      BeforeGrows(s, 0);
      if |s.entries| >= 2 {
        CommitEndings(s, fates, report);
      }
    } else if s.status == StatusCommitting {
      FinishRollback(s, fates, RetryCommit);
    }
  }

  lemma RollbackEndsIff(s: Sys, fates: Fates)
    requires Resting(s) && RollbackTransaction(s, fates).0.status == StatusNoTransaction
    ensures RollbackTransaction(s, fates).1 != Returned <==> EndsWithException(s, fates, ActRollback)
  {
    hide Inv, Sweep, AnyLost;
    if s.status == StatusActive || s.status == StatusMarkedRollback {
      RestingRollback(s, fates);
    } else if s.status == StatusRollingBack {
      FinishRollback(s, fates, RetryRollback);
    }
  }

  /** When a commit or rollback has ended the transaction of a thread, the thread is still in it
      exactly if the call ended it with an exception. */
  lemma EndedStaysIff(w: World, env: Environment, t: Thread, c: ControlId, act: Act)
    requires Ends(act) && Holds(w, t, c) && c in w.txs && Resting(w.txs[c])
    requires Take(w, env, Turn(t, act)).0.txs[c].status == StatusNoTransaction
    ensures c in Take(w, env, Turn(t, act)).0.txs
    ensures Holds(Take(w, env, Turn(t, act)).0, t, c) <==> EndsWithException(w.txs[c], env(c), act)
  {
    hide Inv, CommitTransaction, RollbackTransaction, EndsWithException;
    match act
    case ActCommit(report) => CommitEndsIff(w.txs[c], env(c), report);
    case ActRollback => RollbackEndsIff(w.txs[c], env(c));
  }

  /** A thread that is left in an ended transaction is refused when it rolls back again; but committing
      again reports success, without sending anything, and frees the slot. */
  lemma SecondCommitReportsSuccess(w: World, env: Environment, t: Thread, c: ControlId, act: Act, report: bool)
    requires Ends(act) && Holds(w, t, c) && c in w.txs && Resting(w.txs[c])
    requires Take(w, env, Turn(t, act)).0.txs[c].status == StatusNoTransaction
    requires EndsWithException(w.txs[c], env(c), act)
    ensures var v := Take(w, env, Turn(t, act)).0;
            && Holds(v, t, c)
            && Take(v, env, Turn(t, ActRollback)) == (v, Ended(Raised(InvalidTransaction)))
            && Take(v, env, Turn(t, ActCommit(report))) == (v.(slots := v.slots - {t}), Ended(Returned))
  {
    hide Inv, EndsWithException, Take;
    EndedStaysIff(w, env, t, c, act);
    InAnEndedTransaction(Take(w, env, Turn(t, act)).0, env, t, c, report);
  }

  lemma InAnEndedTransaction(w: World, env: Environment, t: Thread, c: ControlId, report: bool)
    requires Holds(w, t, c) && c in w.txs && w.txs[c].status == StatusNoTransaction
    ensures Take(w, env, Turn(t, ActRollback)) == (w, Ended(Raised(InvalidTransaction)))
    ensures Take(w, env, Turn(t, ActCommit(report))) == (w.(slots := w.slots - {t}), Ended(Returned))
  {
    hide Sweep, AfterFrom, CommitActive, RollbackInstead, CommitAgain;
    assert w.txs[c := w.txs[c]] == w.txs;
  }

  /** A thread that rolls back a transaction whose commit has stopped on the way, in the first phase or
      in the second, is told of success and leaves it; nothing is sent. */
  lemma RollbackLeavesUnfinished(w: World, env: Environment, t: Thread, c: ControlId)
    requires Holds(w, t, c) && c in w.txs && w.txs[c].status in {StatusPreparing, StatusCommitting}
    ensures Take(w, env, Turn(t, ActRollback)) == (w.(slots := w.slots - {t}), Ended(Returned))
  {
    hide Sweep, AfterFrom;
    assert w.txs[c := w.txs[c]] == w.txs;
  }

  /** It happens: a thread begins a transaction, marks it and commits it; the commit raises
      TRANSACTION_ROLLEDBACK, and the second one reports success. */
  lemma SuccessAfterRollback(env: Environment, t: Thread, name: string, report: bool)
    ensures var w := World(map[], map[], 0, true);
            var w1 := Take(w, env, Turn(t, ActBegin(Some(name), map[]))).0;
            var w2 := Take(w1, env, Turn(t, ActRollbackOnly)).0;
            var (w3, first) := Take(w2, env, Turn(t, ActCommit(report)));
            var (w4, second) := Take(w3, env, Turn(t, ActCommit(report)));
            first == Ended(Raised(TransactionRolledBack)) && second == Ended(Returned) && w4.txs == w3.txs
  {
    var s0 := NewTransaction(map[]);
    var s1 := SetStatus(s0, StatusMarkedRollback);
    var s2 := SetStatus(s1, StatusRollingBack);
    var s3 := SetStatus(s2, StatusNoTransaction);
    assert Sweep(s2, env(0), FirstRollback, 0, false) == (s2, false, Returned);
    assert AfterFrom(s3, 0) == s3;
    assert CommitTransaction(s1, env(0), report) == (s3, Raised(TransactionRolledBack));
    assert CommitTransaction(s3, env(0), report) == (s3, Returned);
  }
}

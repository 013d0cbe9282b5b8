/** Servers that call servers: a transaction carried through any tree of calls, with failing servers,
    lost requests and lost replies, and what that does to the transaction. */
module CallTrees {
  import opened OtsTypes
  import opened Interceptors

  type ControlId = nat

  /** One call and what the called server does. References carry the policy of their server. */
  datatype Server = Server(
    target: Option<ushort>,  // NonTxTargetPolicy at the caller
    policy: Option<ushort>,  // OTS policy at the server
    deeds: seq<Deed>,
    status: ReplyStatus,     // how the server replies
    delivery: Delivery,      // of the call itself
    atServer: Marking,       // of the messages that mark the transaction, if there is a reason to
    atCaller: Marking)

  datatype Deed = Enlists(r: Ref) | Invokes(server: Server)

  datatype Happening =
    | Serving(policy: ushort, caller: Option<ControlId>, slot: Option<ControlId>)
    | Answered(policy: ushort, context: Option<ControlId>, call: Server)
    | Enrolled(c: ControlId, r: Ref)
    | Marked(c: ControlId)
    | RefusedByServer
    | Died(slot: Option<ControlId>)  // an assertion failed in a thread with this slot

  function Marks(marks: Option<ControlId>, m: Marking): seq<Happening> {
    if marks.Some? && Reaches(m) then [Marked(marks.value)] else []
  }

  function Enrolls(slot: Option<ControlId>, r: Ref): seq<Happening> {
    if slot.Some? then [Enrolled(slot.value, r)] else []
  }

  /** A call from a thread with this slot. The second result says whether the caller survives. */
  function Invoke(slot: Option<ControlId>, n: Server): (seq<Happening>, bool)
    decreases n, |n.deeds| + 2
  {
    var target, value := TargetPolicyOf(n.target), PolicyOf(n.policy);
    match SendRequest(target, Some(value), slot)
    case TurnedAway(_) => ([], true)
    case LetThrough(context) =>
      var (log, sent, sentBack) :=
        if n.delivery == RequestLost then ([], SYSTEM_EXCEPTION, None) else Serve(slot, context, n);
      var (status, back) := if n.delivery == Arrives then (sent, sentBack) else (SYSTEM_EXCEPTION, None);
      var told := log + [Answered(value, context, n)];
      match ReceiveReply(target, Some(value), slot, status, back)
      case AssertionFails => (told + [Died(slot)], false)
      case Handled(_, marks) => (told + Marks(marks, n.atCaller), true)
  }

  /** What the server does, and the status and the context of its reply. */
  function Serve(caller: Option<ControlId>, context: Option<ControlId>, n: Server)
      : (seq<Happening>, ReplyStatus, Option<ControlId>)
    decreases n, |n.deeds| + 1
  {
    var value := PolicyOf(n.policy);
    match ReceiveRequest(value, context, None)
    case TurnedAway(_) => ([RefusedByServer], SYSTEM_EXCEPTION, None)
    case LetThrough(slot) =>
      var (done, alive) := Do(slot, n, 0);
      var log := [Serving(value, caller, slot)] + done;
      if !alive then (log, SYSTEM_EXCEPTION, None)
      else match SendReply(value, slot, n.status)
        case AssertionFails => (log + [Died(slot)], SYSTEM_EXCEPTION, None)
        case Handled(back, marks) => (log + Marks(marks, n.atServer), n.status, back)
  }

  function Do(slot: Option<ControlId>, n: Server, i: nat): (seq<Happening>, bool)
    decreases n, |n.deeds| - i
  {
    if i >= |n.deeds| then ([], true)
    else match n.deeds[i]
      case Enlists(r) =>
        var (rest, alive) := Do(slot, n, i + 1);
        (Enrolls(slot, r) + rest, alive)
      case Invokes(server) =>
        var (log, alive) := Invoke(slot, server);
        if !alive then (log, false) else
        var (rest, alive') := Do(slot, n, i + 1);
        (log + rest, alive')
  }

  // ------------------------------------------------------------------
  // Propagation
  // ------------------------------------------------------------------

  /** A server works in the transaction of its caller exactly if its policy is neither FORBIDS nor
      INTERNAL, and a call tells its server about the transaction of the caller or about none. */
  predicate Propagates(slot: Option<ControlId>, h: Happening) {
    match h
    case Serving(value, caller, s) =>
      && s == (if value == FORBIDS || value == INTERNAL then None else caller) && (caller == None || caller == slot)
      && (value == REQUIRES ==> s != None)
    case Answered(value, context, n) =>
      && value == (if n.policy == None then FORBIDS else n.policy.value)
      && (context == None || (context == slot && value != FORBIDS && value != INTERNAL))
    case Enrolled(c, _) => slot == Some(c)
    case Marked(c) => slot == Some(c)
    case RefusedByServer => false
    case Died(s) => s == None
  }

  predicate AllPropagate(slot: Option<ControlId>, log: seq<Happening>) {
    forall k | 0 <= k < |log| :: Propagates(slot, log[k])
  }

  lemma Narrowed(slot: Option<ControlId>, inner: Option<ControlId>, log: seq<Happening>)
    requires AllPropagate(inner, log) && (inner == None || inner == slot)
    ensures AllPropagate(slot, log)
  {
    forall k | 0 <= k < |log| ensures Propagates(slot, log[k]) {
      assert Propagates(inner, log[k]);
    }
  }

  lemma {:induction false} InvokePropagates(slot: Option<ControlId>, n: Server)
    ensures var (log, alive) := Invoke(slot, n); AllPropagate(slot, log) && (slot != None ==> alive)
    decreases n, |n.deeds| + 2
  {
    var target, value := TargetPolicyOf(n.target), PolicyOf(n.policy);
    match SendRequest(target, Some(value), slot)
    case TurnedAway(_) =>
    case LetThrough(context) =>
      ServePropagates(slot, context, n);
  }

  lemma {:induction false} ServePropagates(caller: Option<ControlId>, context: Option<ControlId>, n: Server)
    requires SendRequest(TargetPolicyOf(n.target), Some(PolicyOf(n.policy)), caller) == LetThrough(context)
    ensures var (log, status, back) := Serve(caller, context, n);
            && AllPropagate(caller, log) && (back == None || back == context)
            && (context != None ==> status == n.status)
    decreases n, |n.deeds| + 1
  {
    var value := PolicyOf(n.policy);
    match ReceiveRequest(value, context, None)
    case TurnedAway(_) => assert false;
    case LetThrough(slot) =>
      DoPropagates(slot, n, 0);
      Narrowed(caller, slot, Do(slot, n, 0).0);
  }

  lemma {:induction false} DoPropagates(slot: Option<ControlId>, n: Server, i: nat)
    ensures var (log, alive) := Do(slot, n, i); AllPropagate(slot, log) && (slot != None ==> alive)
    decreases n, |n.deeds| - i
  {
    if i < |n.deeds| {
      DoPropagates(slot, n, i + 1);
      match n.deeds[i]
      case Enlists(r) =>
      case Invokes(server) => InvokePropagates(slot, server);
    }
  }

  // ------------------------------------------------------------------
  // Which calls are made
  // ------------------------------------------------------------------

  /** A thread with this slot may call this server: one that requires a transaction only within one, one
      that forbids it, or says nothing, not within one unless the caller permits that, and every other. */
  predicate MayCall(slot: Option<ControlId>, n: Server) {
    match n.policy
    case Some(policy) =>
      if policy == REQUIRES then slot != None
      else policy == FORBIDS ==> slot == None || n.target == None || n.target == Some(PERMIT)
    case None => slot == None || n.target == None || n.target == Some(PERMIT)
  }

  /** The transaction that a call carries along. */
  function CarriedTo(slot: Option<ControlId>, n: Server): Option<ControlId> {
    if n.policy == None || n.policy == Some(FORBIDS) || n.policy == Some(INTERNAL) then None else slot
  }

  /** A call is made if and only if policies and slot allow it, and otherwise nothing happens at all. It
      carries the transaction of the caller exactly as the policy says, and the server, if the request
      arrives, begins to work in what the call carries. */
  lemma CallIsMadeIff(slot: Option<ControlId>, n: Server)
    ensures var (log, alive) := Invoke(slot, n);
            && ((exists k | 0 <= k < |log| :: log[k].Answered? && log[k].call == n) <==> MayCall(slot, n))
            && (!MayCall(slot, n) ==> log == [] && alive)
            && (MayCall(slot, n) ==>
                  Answered(if n.policy == None then FORBIDS else n.policy.value, CarriedTo(slot, n), n) in log)
            && (MayCall(slot, n) && n.delivery != RequestLost ==>
                  log[0].Serving? && log[0].caller == slot && log[0].slot == CarriedTo(slot, n))
  {
    var target, value := TargetPolicyOf(n.target), PolicyOf(n.policy);
    match SendRequest(target, Some(value), slot)
    case TurnedAway(_) =>
    case LetThrough(context) =>
      AnswerIsLogged(slot, context, n);
      if n.delivery != RequestLost {
        ServerBegins(slot, context, n);
      }
  }

  lemma AnswerIsLogged(slot: Option<ControlId>, context: Option<ControlId>, n: Server)
    requires SendRequest(TargetPolicyOf(n.target), Some(PolicyOf(n.policy)), slot) == LetThrough(context)
    ensures var log, served := Invoke(slot, n).0, if n.delivery == RequestLost then [] else Serve(slot, context, n).0;
            && served + [Answered(PolicyOf(n.policy), context, n)] <= log
            && log[|served|] == Answered(PolicyOf(n.policy), context, n)
  {
    hide Serve, Marks;
  }

  lemma ServerBegins(slot: Option<ControlId>, context: Option<ControlId>, n: Server)
    requires SendRequest(TargetPolicyOf(n.target), Some(PolicyOf(n.policy)), slot) == LetThrough(context)
    ensures var log := Serve(slot, context, n).0; log != [] && log[0] == Serving(PolicyOf(n.policy), slot, context)
  {
    hide Do;
  }

  // ------------------------------------------------------------------
  // Processes that end
  // ------------------------------------------------------------------

  /** A call of this server without a transaction ends the calling process: the server neither requires
      a transaction nor is internal, and a message is lost, or the server replies with a system
      exception, or it dies itself. */
  predicate KillsCaller(n: Server)
    decreases n, |n.deeds| + 2
  {
    var value := PolicyOf(n.policy);
    && value != REQUIRES && value != INTERNAL
    && (n.delivery != Arrives || n.status == SYSTEM_EXCEPTION || DiesWithout(n))
  }

  /** A server that works without a transaction dies if one of its own calls ends it, or if it has a
      policy that no reply without a transaction is foreseen for. */
  predicate DiesWithout(n: Server)
    decreases n, |n.deeds| + 1
  {
    (exists i | 0 <= i < |n.deeds| :: Kills(n.deeds[i])) || PolicyOf(n.policy) !in {FORBIDS, INTERNAL, ADAPTS}
  }

  predicate Kills(d: Deed)
    decreases d, 0
  {
    d.Invokes? && KillsCaller(d.server)
  }

  /** A call ends the calling process if and only if the caller has no transaction and the tree of calls
      below meets the condition above. */
  lemma {:induction false} CallerDiesIff(slot: Option<ControlId>, n: Server)
    ensures !Invoke(slot, n).1 <==> slot == None && KillsCaller(n)
    decreases n, |n.deeds| + 2
  {
    if slot != None {
      InvokePropagates(slot, n);
    } else {
      ServerDiesIff(n);
      var target, value := TargetPolicyOf(n.target), PolicyOf(n.policy);
      match SendRequest(target, Some(value), slot)
      case TurnedAway(_) =>
      case LetThrough(context) => ServePropagates(slot, context, n);
    }
  }

  lemma {:induction false} ServerDiesIff(n: Server)
    ensures PolicyOf(n.policy) != REQUIRES && PolicyOf(n.policy) != INTERNAL ==>
              (Serve(None, None, n).1 == SYSTEM_EXCEPTION <==> n.status == SYSTEM_EXCEPTION || DiesWithout(n))
    decreases n, |n.deeds| + 1
  {
    DeedsKillIff(n, 0);
  }

  lemma {:induction false} DeedsKillIff(n: Server, i: nat)
    ensures !Do(None, n, i).1 <==> exists j | i <= j < |n.deeds| :: Kills(n.deeds[j])
    decreases n, |n.deeds| - i
  {
    if i < |n.deeds| {
      DeedsKillIff(n, i + 1);
      match n.deeds[i]
      case Enlists(_) =>
      case Invokes(server) => CallerDiesIff(None, server);
    }
  }

  /** A chain of servers, each of which calls the next and would reply normally; the last answer is lost. */
  function Chain(depth: nat): Server {
    Server(None, Some(ADAPTS), if depth == 0 then [] else [Invokes(Chain(depth - 1))], SUCCESSFUL,
           if depth == 0 then AnswerLost else Arrives, Marking(Arrives, Arrives), Marking(Arrives, Arrives))
  }

  /** The last call of the chain. */
  lemma LastOfChain()
    ensures Invoke(None, Chain(0)) ==
              ([Serving(ADAPTS, None, None)] + [Answered(ADAPTS, None, Chain(0))] + [Died(None)], false)
  {
    var served: seq<Happening> := [Serving(ADAPTS, None, None)];
    assert served + [] == served;
    assert Do(None, Chain(0), 0) == ([], true);
    assert Serve(None, None, Chain(0)) == (served, SUCCESSFUL, None);
  }

  /** A call of the chain, when the next one ends its process. */
  lemma LinkOfChain(depth: nat)
    requires depth > 0 && !Invoke(None, Chain(depth - 1)).1
    ensures var log := Invoke(None, Chain(depth - 1)).0;
            Invoke(None, Chain(depth)) ==
              ([Serving(ADAPTS, None, None)] + log + [Answered(ADAPTS, None, Chain(depth))] + [Died(None)], false)
  {
    var log := Invoke(None, Chain(depth - 1)).0;
    assert Do(None, Chain(depth), 0) == (log, false);
    assert Serve(None, None, Chain(depth)) == ([Serving(ADAPTS, None, None)] + log, SYSTEM_EXCEPTION, None);
  }

  lemma LastWithin(c: ControlId)
    ensures Invoke(Some(c), Chain(0)) ==
              ([Serving(ADAPTS, Some(c), Some(c))] + [Answered(ADAPTS, Some(c), Chain(0))] + [Marked(c)], true)
  {
    var served: seq<Happening> := [Serving(ADAPTS, Some(c), Some(c))];
    assert served + [] == served;
    assert Do(Some(c), Chain(0), 0) == ([], true);
    assert Serve(Some(c), Some(c), Chain(0)) == (served, SUCCESSFUL, Some(c));
  }

  lemma LinkWithin(depth: nat, c: ControlId)
    requires depth > 0 && Invoke(Some(c), Chain(depth - 1)).1
    ensures var log := Invoke(Some(c), Chain(depth - 1)).0;
            Invoke(Some(c), Chain(depth)) ==
              ([Serving(ADAPTS, Some(c), Some(c))] + log + [Answered(ADAPTS, Some(c), Chain(depth))], true)
  {
    var log := Invoke(Some(c), Chain(depth - 1)).0;
    var served := [Serving(ADAPTS, Some(c), Some(c))] + log;
    assert log + [] == log && served + [] == served;
    assert Do(Some(c), Chain(depth), 1) == ([], true);
    assert Do(Some(c), Chain(depth), 0) == (log, true);
    assert Serve(Some(c), Some(c), Chain(depth)) == (served, SUCCESSFUL, Some(c));
    var told := served + [Answered(ADAPTS, Some(c), Chain(depth))];
    assert told + [] == told;
  }

  /** One lost answer ends every process of such a chain, however long, and the caller's, when nobody
      has a transaction; within a transaction it ends none. */
  lemma {:induction false} DeathSpreads(depth: nat, c: ControlId)
    ensures !Invoke(None, Chain(depth)).1 && multiset(Invoke(None, Chain(depth)).0)[Died(None)] == depth + 1
    ensures Invoke(Some(c), Chain(depth)).1 && forall slot :: Died(slot) !in Invoke(Some(c), Chain(depth)).0
    decreases depth
  {
    hide Invoke;
    if depth == 0 {
      LastOfChain();
      LastWithin(c);
    } else {
      DeathSpreads(depth - 1, c);
      LinkOfChain(depth);
      LinkWithin(depth, c);
    }
  }

  // ------------------------------------------------------------------
  // Marking
  // ------------------------------------------------------------------

  predicate IsMark(c: ControlId, h: Happening) {
    h == Marked(c)
  }

  /** The server replies with a system exception. */
  predicate FailsAtServer(n: Server) {
    n.delivery != RequestLost && n.status == SYSTEM_EXCEPTION
  }

  /** The caller gets a system exception: the server's, or because a message was lost. */
  predicate FailsAtCaller(n: Server) {
    n.delivery != Arrives || n.status == SYSTEM_EXCEPTION
  }

  /** A call made within transaction c that fails, and whose failure reaches the coordinator: from
      the server, from the caller, or from both. */
  predicate IsNoticedFailure(c: ControlId, h: Happening) {
    && h.Answered? && h.context == Some(c)
    && ((FailsAtServer(h.call) && Reaches(h.call.atServer)) || (FailsAtCaller(h.call) && Reaches(h.call.atCaller)))
  }

  predicate HasMark(log: seq<Happening>, c: ControlId) {
    exists k | 0 <= k < |log| :: IsMark(c, log[k])
  }

  predicate HasNoticedFailure(log: seq<Happening>, c: ControlId) {
    exists k | 0 <= k < |log| :: IsNoticedFailure(c, log[k])
  }

  lemma Joint(a: seq<Happening>, b: seq<Happening>, c: ControlId)
    ensures HasMark(a + b, c) <==> HasMark(a, c) || HasMark(b, c)
    ensures HasNoticedFailure(a + b, c) <==> HasNoticedFailure(a, c) || HasNoticedFailure(b, c)
  {
    var ab := a + b;
    assert forall k | 0 <= k < |a| :: a[k] == ab[k];
    assert forall k | 0 <= k < |b| :: b[k] == ab[|a| + k];
    assert forall k | |a| <= k < |ab| :: ab[k] == b[k - |a|];
  }

  lemma Single(h: Happening, c: ControlId)
    ensures HasMark([h], c) <==> IsMark(c, h)
    ensures HasNoticedFailure([h], c) <==> IsNoticedFailure(c, h)
  {
    assert [h][0] == h;
  }

  /** A transaction is marked by a tree of calls if and only if some call that was made within it, at
      any depth, fails with a system exception, thrown by the server or because the request or the
      reply is lost, and an interceptor that sees the failure reaches the coordinator. */
  lemma {:induction false} MarkedIffSomeCallFails(slot: Option<ControlId>, n: Server, c: ControlId)
    ensures var log := Invoke(slot, n).0; HasMark(log, c) <==> HasNoticedFailure(log, c)
    decreases n, |n.deeds| + 2
  {
    hide HasMark, HasNoticedFailure;
    NothingYet(c);
    var target, value := TargetPolicyOf(n.target), PolicyOf(n.policy);
    match SendRequest(target, Some(value), slot)
    case TurnedAway(_) =>
    case LetThrough(context) =>
      ServeMarks(slot, context, n, c);
      ServePropagates(slot, context, n);
      var (log, sent, sentBack) :=
        if n.delivery == RequestLost then ([], SYSTEM_EXCEPTION, None) else Serve(slot, context, n);
      var (status, back) := if n.delivery == Arrives then (sent, sentBack) else (SYSTEM_EXCEPTION, None);
      var answer := Answered(value, context, n);
      Single(answer, c);
      Joint(log, [answer], c);
      match ReceiveReply(target, Some(value), slot, status, back)
      case AssertionFails =>
        Single(Died(slot), c);
        Joint(log + [answer], [Died(slot)], c);
      case Handled(_, marks) =>
        MarksOnly(marks, n.atCaller, c);
        Joint(log + [answer], Marks(marks, n.atCaller), c);
  }

  lemma NothingYet(c: ControlId)
    ensures !HasMark([], c) && !HasNoticedFailure([], c)
  {
  }

  lemma MarksOnly(marks: Option<ControlId>, m: Marking, c: ControlId)
    ensures HasMark(Marks(marks, m), c) <==> marks == Some(c) && Reaches(m)
    ensures !HasNoticedFailure(Marks(marks, m), c)
  {
    if marks.Some? && Reaches(m) {
      Single(Marked(marks.value), c);
    }
  }

  /** Seen from the server, its own failure marks the transaction before the caller hears of it. */
  lemma {:induction false} ServeMarks(caller: Option<ControlId>, context: Option<ControlId>, n: Server, c: ControlId)
    requires SendRequest(TargetPolicyOf(n.target), Some(PolicyOf(n.policy)), caller) == LetThrough(context)
    ensures var (log, status, _) := Serve(caller, context, n);
            HasMark(log, c) <==>
              HasNoticedFailure(log, c) || (context == Some(c) && status == SYSTEM_EXCEPTION && Reaches(n.atServer))
    decreases n, |n.deeds| + 1
  {
    hide HasMark, HasNoticedFailure;
    var value := PolicyOf(n.policy);
    match ReceiveRequest(value, context, None)
    case TurnedAway(_) => assert false;
    case LetThrough(slot) =>
      DoMarks(slot, n, 0, c);
      DoPropagates(slot, n, 0);
      var (done, alive) := Do(slot, n, 0);
      var start := Serving(value, caller, slot);
      Single(start, c);
      Joint([start], done, c);
      match SendReply(value, slot, n.status)
      case AssertionFails =>
        Single(Died(slot), c);
        Joint([start] + done, [Died(slot)], c);
      case Handled(back, marks) =>
        MarksOnly(marks, n.atServer, c);
        Joint([start] + done, Marks(marks, n.atServer), c);
  }

  lemma {:induction false} DoMarks(slot: Option<ControlId>, n: Server, i: nat, c: ControlId)
    ensures var log := Do(slot, n, i).0; HasMark(log, c) <==> HasNoticedFailure(log, c)
    decreases n, |n.deeds| - i
  {
    hide HasMark, HasNoticedFailure;
    NothingYet(c);
    if i < |n.deeds| {
      DoMarks(slot, n, i + 1, c);
      var rest := Do(slot, n, i + 1).0;
      match n.deeds[i]
      case Enlists(r) =>
        EnrollsOnly(slot, r, c);
        Joint(Enrolls(slot, r), rest, c);
      case Invokes(server) =>
        MarkedIffSomeCallFails(slot, server, c);
        Joint(Invoke(slot, server).0, rest, c);
    }
  }

  lemma EnrollsOnly(slot: Option<ControlId>, r: Ref, c: ControlId)
    ensures !HasMark(Enrolls(slot, r), c) && !HasNoticedFailure(Enrolls(slot, r), c)
  {
  }
}

/** The interceptors that carry a transaction along with a call: the policy that a reference
    publishes, what the client side adds to a request, what the server side makes of it, and how a
    failure marks the transaction. */
module Interceptors {
  import opened OtsTypes
  import opened CoordinatorSpec
  import opened Coordinators

  /** CORBA::UShort */
  newtype ushort = x: int | 0 <= x < 0x1_0000

  const REQUIRES: ushort := 1
  const FORBIDS: ushort := 2
  const ADAPTS: ushort := 3
  const INTERNAL: ushort := 4

  const PREVENT: ushort := 0
  const PERMIT: ushort := 1

  datatype ReplyStatus = SUCCESSFUL | SYSTEM_EXCEPTION | USER_EXCEPTION | LOCATION_FORWARD | TRANSPORT_RETRY

  /** What the network does with a message to an object whose answer does not matter. */
  datatype Delivery = Arrives | RequestLost | AnswerLost

  /** The two messages by which an interceptor marks a transaction: it asks the control for the
      coordinator, and it tells the coordinator. Every exception is caught and ignored. */
  datatype Marking = Marking(ask: Delivery, tell: Delivery)

  predicate Reaches(m: Marking) {
    m.ask == Arrives && m.tell != RequestLost
  }

  datatype Refusal = TransactionRequired | TransactionForbidden

  /** A request is turned away with an exception, or goes on with a transaction or without one. */
  datatype Admission<+C> = TurnedAway(why: Refusal) | LetThrough(carried: Option<C>)

  /** What becomes of a reply: the context it carries on and the transaction that is marked, or an
      assertion that fails and ends the process. */
  datatype ReplyAction<+C> = Handled(context: Option<C>, marks: Option<C>) | AssertionFails

  /** The OTS policy of a server: what is configured, or the default. */
  function PolicyOf(configured: Option<ushort>): ushort {
    if configured.Some? then configured.value else FORBIDS
  }

  function TargetPolicyOf(configured: Option<ushort>): ushort {
    if configured.Some? then configured.value else PERMIT
  }

  /** Client side, before a request leaves. The slot is that of the calling thread. */
  function SendRequest<C>(target: ushort, published: Option<ushort>, slot: Option<C>): Admission<C> {
    match published
    case None =>
      if target == PREVENT && slot.None? then TurnedAway(TransactionForbidden) else LetThrough(None)
    case Some(value) =>
      if target == PERMIT && value == FORBIDS then LetThrough(None)
      else if value == REQUIRES && slot.None? then TurnedAway(TransactionRequired)
      else if value == FORBIDS && slot.Some? then TurnedAway(TransactionForbidden)
      else LetThrough(if value == INTERNAL then None else slot)
  }

  /** Server side, before a request is served. What is carried on is the slot of the serving thread. */
  function ReceiveRequest<C>(value: ushort, context: Option<C>, slot: Option<C>): Admission<C> {
    if value == INTERNAL then LetThrough(slot)
    else if value == REQUIRES && context.None? then TurnedAway(TransactionRequired)
    else if value == FORBIDS && context.Some? then TurnedAway(TransactionForbidden)
    else LetThrough(if context.Some? then context else slot)
  }

  /** Server side, after a request was served. */
  function SendReply<C>(value: ushort, slot: Option<C>, status: ReplyStatus): ReplyAction<C> {
    if value == FORBIDS || value == INTERNAL then Handled(None, None)
    else if slot.None? then (if value == ADAPTS then Handled(None, None) else AssertionFails)
    else Handled(slot, if status == SYSTEM_EXCEPTION then slot else None)
  }

  /** Client side, when the reply is there. Without a context in the reply the slot of the calling
      thread is used instead. */
  function ReceiveReply<C>(target: ushort, published: Option<ushort>, slot: Option<C>,
                           status: ReplyStatus, context: Option<C>): ReplyAction<C>
  {
    match published
    case None => Handled(None, None)
    case Some(value) =>
      if value == INTERNAL || status != SYSTEM_EXCEPTION then Handled(None, None)
      else if context.Some? then Handled(None, context)
      else if slot.None? then AssertionFails
      else Handled(None, if value == FORBIDS && target == PERMIT then None else slot)
  }

  /** A request to a reference that publishes a policy is turned away in exactly two cases, each with its
      own exception; otherwise it goes out, with the transaction of the caller exactly if there is one and
      the policy is neither FORBIDS nor INTERNAL. */
  lemma RequestGoesOutIff<C>(target: ushort, value: ushort, slot: Option<C>)
    ensures var went := SendRequest(target, Some(value), slot);
            && (went == TurnedAway(TransactionRequired) <==> value == 1 && slot.None?)
            && (went == TurnedAway(TransactionForbidden) <==> value == 2 && slot.Some? && target != 1)
            && (went.LetThrough? ==> went.carried == if value == 2 || value == 4 then None else slot)
  {
  }

  /** A request to a reference that publishes no policy goes out without a transaction, unless the caller
      prevents such calls and has none: the test is the wrong way round. */
  lemma UnpublishedIsRefusedIff<C>(target: ushort, slot: Option<C>)
    ensures SendRequest(target, None, slot) ==
              if target == 0 && slot.None? then TurnedAway(TransactionForbidden) else LetThrough(None)
  {
  }

  /** A failed reply at the caller marks the transaction that the reply names, or else that of the calling
      thread, unless the call was made outside it; and it ends the process exactly if there is neither and
      the target publishes a policy and is not internal. Every other reply does nothing. */
  lemma FailedReplyIff<C>(target: ushort, published: Option<ushort>, slot: Option<C>,
                          status: ReplyStatus, context: Option<C>)
    ensures var action := ReceiveReply(target, published, slot, status, context);
            var failed := published.Some? && published.value != 4 && status == SYSTEM_EXCEPTION;
            && (action == AssertionFails <==> failed && context.None? && slot.None?)
            && (forall c :: (action.Handled? && action.marks == Some(c)) <==>
                  && failed
                  && if context.Some? then context == Some(c)
                     else slot == Some(c) && !(published == Some(2) && target == 1))
            && (action.Handled? ==> action.context == None)
  {
  }

  /** A reply leaves a server with the transaction it has worked in, and marks it exactly if it is a system
      exception; without one it ends the process exactly if the policy is none of FORBIDS, ADAPTS and
      INTERNAL. */
  lemma ReplyLeavesIff<C>(value: ushort, slot: Option<C>, status: ReplyStatus)
    ensures var action := SendReply(value, slot, status);
            && (action == AssertionFails <==> slot.None? && value !in {2, 3, 4})
            && (action.Handled? ==>
                  && action.context == (if value == 2 || value == 4 then None else slot)
                  && action.marks == (if status == SYSTEM_EXCEPTION then action.context else None))
  {
  }

  /** The two sides agree: a caller that prevents calls without a policy turns a request away exactly if the
      server would, with the same exception; and a server admits everything that any caller lets through, in
      the transaction that the caller sent along. */
  lemma SidesAgree<C>(target: ushort, value: ushort, slot: Option<C>, why: Refusal)
    ensures SendRequest(PREVENT, Some(value), slot) == TurnedAway(why) <==>
              ReceiveRequest(value, slot, None) == TurnedAway(why)
    ensures forall carried :: SendRequest(target, Some(value), slot) == LetThrough(carried) ==>
              ReceiveRequest(value, carried, None) == LetThrough(carried)
    ensures ReceiveRequest(value, slot, None) == TurnedAway(why) <==>
              if why == TransactionRequired then value == 1 && slot.None? else value == 2 && slot.Some?
  {
  }

  /** Where nothing is configured, every request goes out, without a transaction. */
  lemma DefaultsLetEverythingThrough<C>(slot: Option<C>)
    ensures SendRequest(TargetPolicyOf(None), Some(PolicyOf(None)), slot) == LetThrough(None)
    ensures PolicyOf(None) == 2 && TargetPolicyOf(None) == 1
  {
  }

  // ------------------------------------------------------------------
  // The interceptor objects
  // ------------------------------------------------------------------

  /** A control knows the coordinator of its transaction. */
  class Control {
    const coordinator: Coordinator

    constructor (coordinator: Coordinator)
      ensures this.coordinator == coordinator
    {
      this.coordinator := coordinator;
    }
  }

  class IorInfo {
    const policy: Option<ushort>     // the effective OTS policy, if there is one
    var component: Option<ushort>    // the tagged component for it

    constructor (policy: Option<ushort>)
      ensures this.policy == policy && component == None
    {
      this.policy, component := policy, None;
    }
  }

  class ClientRequestInfo {
    const component: Option<ushort>     // the policy in the target reference
    const targetPolicy: Option<ushort>  // NonTxTargetPolicy
    const slot: Option<Control>
    var requestContext: Option<Control>
    var replyStatus: ReplyStatus
    var replyContext: Option<Control>

    constructor (component: Option<ushort>, targetPolicy: Option<ushort>, slot: Option<Control>)
      ensures this.component == component && this.targetPolicy == targetPolicy && this.slot == slot
      ensures requestContext == None
    {
      this.component, this.targetPolicy, this.slot := component, targetPolicy, slot;
      requestContext, replyStatus, replyContext := None, SUCCESSFUL, None;
    }
  }

  class ServerRequestInfo {
    const policy: Option<ushort>
    const requestContext: Option<Control>
    var slot: Option<Control>
    var replyStatus: ReplyStatus
    var replyContext: Option<Control>

    constructor (policy: Option<ushort>, requestContext: Option<Control>)
      ensures this.policy == policy && this.requestContext == requestContext && slot == None && replyContext == None
    {
      this.policy, this.requestContext := policy, requestContext;
      slot, replyStatus, replyContext := None, SUCCESSFUL, None;
    }
  }

  /** The coordinator behind a control, if there is one. */
  function Behind(control: Option<Control>): set<Coordinator> {
    if control.Some? then {control.value.coordinator} else {}
  }

  /** The call to rollback_only that the interceptors make; its exceptions are ignored. */
  method MarkRollbackOnly(control: Control, m: Marking)
    requires control.coordinator.Valid()
    modifies control.coordinator
    ensures control.coordinator.Valid()
    ensures control.coordinator.Model() ==
              if Reaches(m) then RollbackOnly(old(control.coordinator.Model())).0 else old(control.coordinator.Model())
  {
    if m.ask != Arrives {
      return;  // there is no coordinator to tell
    }
    if m.tell != RequestLost {
      var _ := control.coordinator.MarkRollbackOnly();
    }
  }

  class OtsIorInterceptor {
    method EstablishComponents(info: IorInfo)
      modifies info`component
      ensures info.component == Some(PolicyOf(info.policy))
    {
      var value: ushort;
      match info.policy {
        case Some(policy) => value := policy;
        case None => value := FORBIDS;
      }
      info.component := Some(value);
    }
  }

  class OtsServerInterceptor {
    method ReceiveRequestServiceContexts(ri: ServerRequestInfo) returns (refusal: Option<Refusal>)
      modifies ri`slot
      ensures match ReceiveRequest(PolicyOf(ri.policy), ri.requestContext, old(ri.slot))
              case TurnedAway(why) => refusal == Some(why) && ri.slot == old(ri.slot)
              case LetThrough(carried) => refusal == None && ri.slot == carried
    {
      var value := PolicyOf(ri.policy);
      if value == INTERNAL {
        return None;
      }
      var haveContext := ri.requestContext.Some?;
      if value == REQUIRES && !haveContext {
        return Some(TransactionRequired);
      }
      if value == FORBIDS && haveContext {
        return Some(TransactionForbidden);
      }
      if haveContext {
        ri.slot := ri.requestContext;
      }
      refusal := None;
    }

    method SendReplyOf(ri: ServerRequestInfo, m: Marking) returns (alive: bool)
      requires forall k | k in Behind(ri.slot) :: k.Valid()
      modifies ri`replyContext, Behind(ri.slot)
      ensures match SendReply(PolicyOf(ri.policy), ri.slot, ri.replyStatus)
              case AssertionFails => !alive && ri.replyContext == old(ri.replyContext)
              case Handled(context, _) =>
                alive && ri.replyContext == if context.Some? then context else old(ri.replyContext)
      ensures var action := SendReply(PolicyOf(ri.policy), ri.slot, ri.replyStatus);
              forall k | k in Behind(ri.slot) ::
                k.Valid() && k.Model() ==
                  if action.Handled? && k in Behind(action.marks) && Reaches(m) then RollbackOnly(old(k.Model())).0
                  else old(k.Model())
    {
      var value := PolicyOf(ri.policy);
      if value == FORBIDS || value == INTERNAL {
        return true;
      }
      if ri.slot.None? {
        return value == ADAPTS;  // the assertion
      }
      if ri.replyStatus == SYSTEM_EXCEPTION {
        MarkRollbackOnly(ri.slot.value, m);
      }
      ri.replyContext := ri.slot;
      alive := true;
    }
  }

  class OtsClientInterceptor {
    method SendRequestOf(ri: ClientRequestInfo) returns (refusal: Option<Refusal>)
      modifies ri`requestContext
      ensures match SendRequest(TargetPolicyOf(ri.targetPolicy), ri.component, ri.slot)
              case TurnedAway(why) => refusal == Some(why) && ri.requestContext == old(ri.requestContext)
              case LetThrough(carried) =>
                refusal == None && ri.requestContext == if carried.Some? then carried else old(ri.requestContext)
    {
      var target := TargetPolicyOf(ri.targetPolicy);
      if ri.component.None? {
        return if target == PREVENT && ri.slot.None? then Some(TransactionForbidden) else None;
      }
      var value := ri.component.value;
      if target == PERMIT && value == FORBIDS {
        return None;
      }
      if value == REQUIRES && ri.slot.None? {
        return Some(TransactionRequired);
      }
      if value == FORBIDS && ri.slot.Some? {
        return Some(TransactionForbidden);
      }
      if ri.slot.Some? && value != INTERNAL {
        ri.requestContext := ri.slot;
      }
      refusal := None;
    }

    method ReceiveReplyOf(ri: ClientRequestInfo, m: Marking) returns (alive: bool)
      requires forall k | k in Behind(ri.slot) + Behind(ri.replyContext) :: k.Valid()
      modifies Behind(ri.slot), Behind(ri.replyContext)
      ensures var target := TargetPolicyOf(ri.targetPolicy);
              var action := ReceiveReply(target, ri.component, ri.slot, ri.replyStatus, ri.replyContext);
              && alive == action.Handled?
              && forall k | k in Behind(ri.slot) + Behind(ri.replyContext) ::
                   k.Valid() && k.Model() ==
                     if action.Handled? && k in Behind(action.marks) && Reaches(m) then RollbackOnly(old(k.Model())).0
                     else old(k.Model())
    {
      if ri.component.None? || ri.component.value == INTERNAL || ri.replyStatus != SYSTEM_EXCEPTION {
        return true;
      }
      var control := ri.replyContext;
      if control.None? {
        control := ri.slot;
        if control.None? {
          return false;  // the assertion
        }
        if ri.component.value == FORBIDS && TargetPolicyOf(ri.targetPolicy) == PERMIT {
          return true;
        }
      }
      MarkRollbackOnly(control.value, m);
      alive := true;
    }
  }
}

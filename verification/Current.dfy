/** The Current object: which transaction each thread is in. */
module Currents {
  import opened OtsTypes
  import opened CoordinatorSpec
  import opened Coordinators
  import opened Interceptors

  type Thread = nat

  /** CORBA::ULong */
  newtype ulong = x: int | 0 <= x < 0x1_0000_0000

  /** How a call of Current ends: like the coordinator operation it stands for, or in its own way. */
  datatype Ending = Ended(end: Outcome) | NoTransaction | SubtransactionsUnavailable | BadParam | NoImplement

  /** Why a transaction cannot be begun, in the order of the checks. */
  function BeginRefusal(name: Option<string>, factory: bool, busy: bool): Option<Ending> {
    if name == None then Some(BadParam)
    else if !factory then Some(NoImplement)
    else if busy then Some(SubtransactionsUnavailable)
    else None
  }

  /** commit and rollback free the slot of the thread only when they return normally. */
  function Freed<C>(slots: map<Thread, C>, t: Thread, end: Ending): map<Thread, C> {
    if end == Ended(Returned) then slots - {t} else slots
  }

  function Resumed<C>(slots: map<Thread, C>, t: Thread, control: Option<C>): map<Thread, C> {
    match control
    case None => slots
    case Some(c) => slots[t := c]
  }

  class TransactionFactory {
    const orb: Orb

    constructor (orb: Orb)
      ensures this.orb == orb
    {
      this.orb := orb;
    }

    /** The timeout is ignored. */
    method Create(timeout: ulong) returns (control: Control)
      requires orb.Valid()
      ensures fresh(control) && fresh(control.coordinator) && control.coordinator.orb == orb
      ensures control.coordinator.Valid() && control.coordinator.Model() == NewTransaction(orb.Parts())
    {
      var coordinator := new Coordinator(orb);
      control := new Control(coordinator);
    }
  }

  class Current {
    var slots: map<Thread, Control>  // threads that are not here are in no transaction
    var factory: Option<TransactionFactory>
    var defaultTimeout: ulong

    constructor (defaultTimeout: ulong)
      ensures slots == map[] && factory == None && this.defaultTimeout == defaultTimeout
    {
      slots, factory, this.defaultTimeout := map[], None, defaultTimeout;
    }

    /** What an operation of thread t may change besides the slots: its transaction. */
    ghost function Reach(t: Thread): set<object>
      reads this, if t in slots then {slots[t].coordinator.orb} else {}
    {
      if t in slots then {slots[t].coordinator} + slots[t].coordinator.orb.Objects() else {}
    }

    method SetTransactionFactory(f: TransactionFactory)
      modifies this`factory
      ensures factory == Some(f)
    {
      factory := Some(f);
    }

    method BeginNamed(t: Thread, name: Option<string>) returns (end: Ending)
      requires factory.Some? ==> factory.value.orb.Valid()
      modifies this`slots
      ensures match BeginRefusal(name, factory.Some?, t in old(slots))
              case Some(why) => end == why && slots == old(slots)
              case None =>
                && end == Ended(Returned) && t in slots && slots == old(slots)[t := slots[t]]
                && fresh(slots[t]) && fresh(slots[t].coordinator) && slots[t].coordinator.orb == factory.value.orb
                && slots[t].coordinator.Model() == NewTransaction(factory.value.orb.Parts())
    {
      if name == None {
        return BadParam;
      }
      if factory.None? {
        return NoImplement;
      }
      if t in slots {
        return SubtransactionsUnavailable;
      }
      var control := factory.value.Create(defaultTimeout);
      slots := slots[t := control];
      end := Ended(Returned);
    }

    method Commit(t: Thread, report: bool) returns (end: Ending)
      requires t in slots ==> slots[t].coordinator.Valid()
      modifies this`slots, Reach(t)
      ensures slots == Freed(old(slots), t, end)
      ensures t !in old(slots) ==> end == NoTransaction
      ensures t in old(slots) ==>
                var k := old(slots)[t].coordinator;
                && k.Valid() && end.Ended?
                && (k.Model(), end.end) == CommitTransaction(old(k.Model()), k.orb.fates, report)
    {
      if t !in slots {
        return NoTransaction;
      }
      var outcome := slots[t].coordinator.CommitAll(report);
      end := Ended(outcome);
      if outcome == Returned {
        slots := slots - {t};
      }
    }

    method Rollback(t: Thread) returns (end: Ending)
      requires t in slots ==> slots[t].coordinator.Valid()
      modifies this`slots, Reach(t)
      ensures slots == Freed(old(slots), t, end)
      ensures t !in old(slots) ==> end == NoTransaction
      ensures t in old(slots) ==>
                var k := old(slots)[t].coordinator;
                k.Valid() && end.Ended? && (k.Model(), end.end) == RollbackTransaction(old(k.Model()), k.orb.fates)
    {
      if t !in slots {
        return NoTransaction;
      }
      var outcome := slots[t].coordinator.RollbackAll();
      end := Ended(outcome);
      if outcome == Returned {
        slots := slots - {t};
      }
    }

    method MarkRollbackOnly(t: Thread) returns (end: Ending)
      requires t in slots ==> slots[t].coordinator.Valid()
      modifies Reach(t)
      ensures t !in slots ==> end == NoTransaction
      ensures t in slots ==>
                var k := slots[t].coordinator;
                k.Valid() && end.Ended? && (k.Model(), end.end) == RollbackOnly(old(k.Model()))
    {
      if t !in slots {
        return NoTransaction;
      }
      var outcome := slots[t].coordinator.MarkRollbackOnly();
      end := Ended(outcome);
    }

    method GetStatus(t: Thread) returns (status: Status)
      ensures status == if t in slots then slots[t].coordinator.status else StatusNoTransaction
    {
      status := if t in slots then slots[t].coordinator.status else StatusNoTransaction;
    }

    method GetControl(t: Thread) returns (control: Option<Control>)
      ensures control == if t in slots then Some(slots[t]) else None
    {
      control := if t in slots then Some(slots[t]) else None;
    }

    method Suspend(t: Thread) returns (control: Option<Control>)
      modifies this`slots
      ensures control == (if t in old(slots) then Some(old(slots)[t]) else None) && slots == old(slots) - {t}
    {
      control := GetControl(t);
      slots := slots - {t};
    }

    /** A nil control is ignored. */
    method Resume(t: Thread, control: Option<Control>)
      modifies this`slots
      ensures slots == Resumed(old(slots), t, control)
    {
      if control.Some? {
        slots := slots[t := control.value];
      }
    }

    method SetTimeout(seconds: ulong)
      modifies this`defaultTimeout
      ensures defaultTimeout == seconds
    {
      defaultTimeout := seconds;
    }
  }
}

/** The recovery file that the coordinator keeps when recovery is compiled in: a header with a count
    and slots of fixed size, each with a flag, an id and the resources of one transaction. */
module RecoveryLog {

  const OVER := 0
  const PREPARING := 1
  const COMMITTING := 2
  const ROLLING_BACK := 3

  /** How many resources fit into a slot. */
  const SLOT_SIZE := 10

  datatype Record = Record(flag: nat, id: int, members: seq<nat>)

  datatype Log = Log(count: int, slots: seq<Record>)

  /** The first slot that is over, or one past the last slot. */
  function FirstFree(slots: seq<Record>): (k: nat)
    ensures k <= |slots|
    ensures k < |slots| ==> slots[k].flag == OVER
    ensures forall j | 0 <= j < k :: slots[j].flag != OVER
  {
    if slots == [] || slots[0].flag == OVER then 0 else 1 + FirstFree(slots[1..])
  }

  /** The first slot with this flag and id, or one past the last slot. */
  function FindRecord(slots: seq<Record>, flag: nat, id: int): (k: nat)
    ensures k <= |slots|
    ensures k < |slots| ==> slots[k].flag == flag && slots[k].id == id
    ensures forall j | 0 <= j < k :: !(slots[j].flag == flag && slots[j].id == id)
  {
    if slots == [] || (slots[0].flag == flag && slots[0].id == id) then 0 else 1 + FindRecord(slots[1..], flag, id)
  }

  function Write(slots: seq<Record>, k: nat, rec: Record): seq<Record>
    requires k <= |slots|
  {
    if k < |slots| then slots[k := rec] else slots + [rec]
  }

  /** Before prepare: the id is the position of the slot, counted from 1. */
  function OpenCommit(log: Log, members: seq<nat>): (Log, int) {
    var k := FirstFree(log.slots);
    (Log(log.count + 1, Write(log.slots, k, Record(PREPARING, k + 1, members))), k + 1)
  }

  /** Before rollback: the id is the new count. */
  function OpenRollback(log: Log, members: seq<nat>): (Log, int) {
    var k, id := FirstFree(log.slots), log.count + 1;
    (Log(id, Write(log.slots, k, Record(ROLLING_BACK, id, members))), id)
  }

  /** Replaces the flag of the record found by flag and id. Id 0 is never looked for. */
  function Retag(slots: seq<Record>, id: int, from: nat, to: nat): seq<Record> {
    var k := FindRecord(slots, from, id);
    if id == 0 || k == |slots| then slots else slots[k := slots[k].(flag := to)]
  }

  function Decide(log: Log, id: int): Log {
    log.(slots := Retag(log.slots, id, PREPARING, COMMITTING))
  }

  function Close(log: Log, id: int, flag: nat): Log {
    Log(log.count - 1, Retag(log.slots, id, flag, OVER))
  }

  // ------------------------------------------------------------------
  // The file
  // ------------------------------------------------------------------

  class RecoveryFile {
    var count: int
    var slots: seq<Record>
    var intact: bool  // no record was ever longer than a slot; the source does not check

    function Contents(): Log
      reads this
    {
      Log(count, slots)
    }

    constructor ()
      ensures Contents() == Log(0, []) && intact
    {
      count, slots, intact := 0, [], true;
    }

    /** The scan for a slot to write to: stops at a free slot, or when nothing more can be read. */
    method Scan() returns (k: nat)
      ensures k == FirstFree(slots)
    {
      k := 0;
      while k < |slots| && slots[k].flag != OVER
        invariant k <= |slots| && forall j | 0 <= j < k :: slots[j].flag != OVER
      {
        k := k + 1;
      }
      var first := FirstFree(slots);
      assert !(first < k) && !(k < first);
    }

    method WriteAt(k: nat, rec: Record)
      requires k <= |slots|
      modifies this`slots
      ensures slots == Write(old(slots), k, rec)
    {
      slots := if k < |slots| then slots[k := rec] else slots + [rec];
    }

    method BeginCommit(members: seq<nat>) returns (id: int)
      modifies this
      ensures intact == (old(intact) && |members| <= SLOT_SIZE)
      ensures intact ==> (Contents(), id) == OpenCommit(old(Contents()), members)
    {
      intact := intact && |members| <= SLOT_SIZE;
      count := count + 1;
      var k := Scan();
      id := k + 1;
      WriteAt(k, Record(PREPARING, id, members));
    }

    method BeginRollback(members: seq<nat>) returns (id: int)
      modifies this
      ensures intact == (old(intact) && |members| <= SLOT_SIZE)
      ensures intact ==> (Contents(), id) == OpenRollback(old(Contents()), members)
    {
      intact := intact && |members| <= SLOT_SIZE;
      count := count + 1;
      var k := Scan();
      id := count;
      WriteAt(k, Record(ROLLING_BACK, id, members));
    }

    /** The scan that replaces a flag: goes on until the id was read from a record with the flag. */
    method ReplaceFlag(id: int, from: nat, to: nat)
      modifies this`slots
      ensures slots == Retag(old(slots), id, from, to)
    {
      var k, read := 0, 0;
      while k < |slots| && read != id
        invariant k <= |slots| && slots == old(slots)
        invariant if id == 0 then read == 0 else read != id
        invariant forall j | 0 <= j < k :: !(slots[j].flag == from && slots[j].id == id)
      {
        if slots[k].flag == from {
          if slots[k].id == id {
            var first := FindRecord(slots, from, id);
            assert !(first < k) && !(k < first);
            slots := slots[k := slots[k].(flag := to)];
            return;
          }
          read := slots[k].id;
        }
        k := k + 1;
      }
    }

    method MarkCommitting(id: int)
      modifies this`slots
      ensures Contents() == Decide(old(Contents()), id)
    {
      ReplaceFlag(id, PREPARING, COMMITTING);
    }

    method Delete(id: int, flag: nat)
      modifies this`count, this`slots
      ensures Contents() == Close(old(Contents()), id, flag)
    {
      count := count - 1;
      ReplaceFlag(id, flag, OVER);
    }
  }
}

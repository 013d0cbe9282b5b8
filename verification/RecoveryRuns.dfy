/** Any number of transactions using the recovery file at the same time, each access atomic. */
module RecoveryRuns {
  import opened RecoveryLog

  /** The file, what each opened record says in the eyes of the transaction that opened it, and the
      slot it was written to. A ticket whose flag is OVER is one that its transaction has closed. */
  datatype World = World(log: Log, tickets: seq<Record>, places: seq<nat>)

  /** A new file. */
  const EMPTY := World(Log(0, []), [], [])

  datatype LogOp =
    | DoOpenCommit(members: seq<nat>)
    | DoDecide(h: nat)
    | DoOpenRollback(members: seq<nat>)
    | DoClose(h: nat)

  predicate OnCommitPath(rec: Record) {
    rec.flag == PREPARING || rec.flag == COMMITTING
  }

  /** Closing and deciding act on the transaction's own ticket, with the id and flag it remembers. */
  function Act(w: World, op: LogOp): World {
    match op
    case DoOpenCommit(members) =>
      var (log, id) := OpenCommit(w.log, members);
      World(log, w.tickets + [Record(PREPARING, id, members)], w.places + [FirstFree(w.log.slots)])
    case DoOpenRollback(members) =>
      var (log, id) := OpenRollback(w.log, members);
      World(log, w.tickets + [Record(ROLLING_BACK, id, members)], w.places + [FirstFree(w.log.slots)])
    case DoDecide(h) =>
      if h < |w.tickets| && w.tickets[h].flag == PREPARING then
        World(Decide(w.log, w.tickets[h].id), w.tickets[h := w.tickets[h].(flag := COMMITTING)], w.places)
      else w
    case DoClose(h) =>
      if h < |w.tickets| && w.tickets[h].flag != OVER then
        World(Close(w.log, w.tickets[h].id, w.tickets[h].flag), w.tickets[h := w.tickets[h].(flag := OVER)], w.places)
      else w
  }

  function ActAll(w: World, ops: seq<LogOp>): World
    decreases |ops|
  {
    if ops == [] then w else ActAll(Act(w, ops[0]), ops[1..])
  }

  // ------------------------------------------------------------------
  // Counting
  // ------------------------------------------------------------------

  function One(rec: Record): nat {
    if rec.flag == OVER then 0 else 1
  }

  /** How many records are not over. */
  function Busy(recs: seq<Record>): nat {
    if recs == [] then 0 else One(recs[0]) + Busy(recs[1..])
  }

  function RollingId(rec: Record): multiset<int> {
    if rec.flag == ROLLING_BACK then multiset{rec.id} else multiset{}
  }

  /** The ids of the records that are rolling back, with repetitions. */
  function Rolling(recs: seq<Record>): multiset<int> {
    if recs == [] then multiset{} else RollingId(recs[0]) + Rolling(recs[1..])
  }

  lemma {:induction false} BusyUpdated(recs: seq<Record>, k: nat, rec: Record)
    requires k < |recs|
    ensures Busy(recs[k := rec]) + One(recs[k]) == Busy(recs) + One(rec)
    decreases k
  {
    if k == 0 {
      assert recs[0 := rec][1..] == recs[1..];
    } else {
      BusyUpdated(recs[1..], k - 1, rec);
      assert recs[k := rec][1..] == recs[1..][k - 1 := rec];
    }
  }

  lemma Exchanged(a: multiset<int>, x: multiset<int>, y: multiset<int>, b: multiset<int>, c: multiset<int>)
    requires x + b == y + c
    ensures (a + x) + b == (a + y) + c
  {
    assert (a + x) + b == a + (x + b);
    assert (a + y) + c == a + (y + c);
  }

  lemma {:induction false} RollingUpdated(recs: seq<Record>, k: nat, rec: Record)
    requires k < |recs|
    ensures Rolling(recs[k := rec]) + RollingId(recs[k]) == Rolling(recs) + RollingId(rec)
    decreases k
  {
    hide RollingId;
    if k == 0 {
      assert recs[0 := rec][1..] == recs[1..];
      var a := Rolling(recs[1..]);
      assert RollingId(rec) + a + RollingId(recs[0]) == RollingId(recs[0]) + a + RollingId(rec);
    } else {
      RollingUpdated(recs[1..], k - 1, rec);
      assert recs[k := rec][1..] == recs[1..][k - 1 := rec];
      Exchanged(RollingId(recs[0]), Rolling(recs[1..][k - 1 := rec]), Rolling(recs[1..]),
                RollingId(recs[k]), RollingId(rec));
    }
  }

  lemma RollingUnchanged(recs: seq<Record>, k: nat, rec: Record)
    requires k < |recs| && recs[k].flag != ROLLING_BACK && rec.flag != ROLLING_BACK
    ensures Rolling(recs[k := rec]) == Rolling(recs)
  {
    hide Rolling;
    RollingUpdated(recs, k, rec);
    assert Rolling(recs[k := rec]) + RollingId(recs[k]) == Rolling(recs[k := rec]);
    assert Rolling(recs) + RollingId(rec) == Rolling(recs);
  }

  lemma {:induction false} Appended(recs: seq<Record>, rec: Record)
    ensures Busy(recs + [rec]) == Busy(recs) + One(rec)
    ensures Rolling(recs + [rec]) == Rolling(recs) + RollingId(rec)
    decreases |recs|
  {
    if recs == [] {
      assert recs + [rec] == [rec];
    } else {
      Appended(recs[1..], rec);
      assert (recs + [rec])[1..] == recs[1..] + [rec];
    }
  }

  lemma {:induction false} RollingIsThere(recs: seq<Record>, id: int)
    requires id in Rolling(recs)
    ensures exists k :: 0 <= k < |recs| && recs[k].flag == ROLLING_BACK && recs[k].id == id
    decreases |recs|
  {
    if !(recs[0].flag == ROLLING_BACK && recs[0].id == id) {
      RollingIsThere(recs[1..], id);
      var k :| 0 <= k < |recs| - 1 && recs[1..][k].flag == ROLLING_BACK && recs[1..][k].id == id;
      assert recs[k + 1].flag == ROLLING_BACK && recs[k + 1].id == id;
    }
  }

  lemma {:induction false} IsRolling(recs: seq<Record>, k: nat)
    requires k < |recs| && recs[k].flag == ROLLING_BACK
    ensures recs[k].id in Rolling(recs)
    decreases k
  {
    if k > 0 {
      IsRolling(recs[1..], k - 1);
    }
  }

  // ------------------------------------------------------------------
  // The invariant
  // ------------------------------------------------------------------

  /** A record on the commit path sits where its id says. */
  predicate Placed(slots: seq<Record>) {
    forall k | 0 <= k < |slots| :: OnCommitPath(slots[k]) ==> slots[k].id == k + 1
  }

  /** The record of a ticket on the commit path is in the file, word for word. */
  predicate Kept(w: World, h: nat)
    requires h < |w.tickets|
  {
    OnCommitPath(w.tickets[h]) ==>
      1 <= w.tickets[h].id <= |w.log.slots| && w.log.slots[w.tickets[h].id - 1] == w.tickets[h]
  }

  predicate DistinctIds(tickets: seq<Record>) {
    forall g, h | 0 <= g < h < |tickets| ::
      OnCommitPath(tickets[g]) && OnCommitPath(tickets[h]) ==> tickets[g].id != tickets[h].id
  }

  predicate Shaped(w: World) {
    && Placed(w.log.slots) && DistinctIds(w.tickets)
    && (forall h | 0 <= h < |w.tickets| :: Kept(w, h))
  }

  predicate Plausible(rec: Record) {
    rec.flag <= ROLLING_BACK && (rec.flag != OVER ==> rec.id >= 1)
  }

  predicate Counted(w: World) {
    && w.log.count == Busy(w.log.slots)
    && Rolling(w.log.slots) == Rolling(w.tickets)
    && (forall h | 0 <= h < |w.tickets| :: Plausible(w.tickets[h]))
  }

  /** The slots that records were written to are still there. */
  predicate Seated(w: World) {
    |w.places| == |w.tickets| && forall h | 0 <= h < |w.places| :: w.places[h] < |w.log.slots|
  }

  predicate LogInv(w: World) {
    Shaped(w) && Counted(w) && Seated(w)
  }

  lemma Written(slots: seq<Record>, rec: Record)
    ensures var k := FirstFree(slots);
            && Busy(Write(slots, k, rec)) == Busy(slots) + One(rec)
            && Rolling(Write(slots, k, rec)) == Rolling(slots) + RollingId(rec)
  {
    var k := FirstFree(slots);
    if k < |slots| {
      BusyUpdated(slots, k, rec);
      RollingUpdated(slots, k, rec);
    } else {
      Appended(slots, rec);
    }
  }

  /** A record that may be opened now. */
  predicate Openable(w: World, rec: Record) {
    rec.id >= 1 && (rec.flag == ROLLING_BACK || (rec.flag == PREPARING && rec.id == FirstFree(w.log.slots) + 1))
  }

  function Opened(w: World, rec: Record): World {
    var k := FirstFree(w.log.slots);
    World(Log(w.log.count + 1, Write(w.log.slots, k, rec)), w.tickets + [rec], w.places + [k])
  }

  lemma OpenedIsShaped(w: World, rec: Record)
    requires Shaped(w) && Openable(w, rec)
    ensures Shaped(Opened(w, rec))
  {
    var t := Opened(w, rec);
    forall h | 0 <= h < |t.tickets| ensures Kept(t, h) {
      if h < |w.tickets| {
        assert Kept(w, h);
      }
    }
    forall g | 0 <= g < |w.tickets| && OnCommitPath(w.tickets[g]) && OnCommitPath(rec)
      ensures w.tickets[g].id != rec.id
    {
      assert Kept(w, g);
    }
  }

  lemma OpenedIsCounted(w: World, rec: Record)
    requires Counted(w) && Openable(w, rec)
    ensures Counted(Opened(w, rec))
  {
    hide FirstFree, Write, Busy, Rolling, RollingId;
    Written(w.log.slots, rec);
    Appended(w.tickets, rec);
  }

  lemma OpenKeeps(w: World, rec: Record)
    requires LogInv(w) && Openable(w, rec)
    ensures LogInv(Opened(w, rec))
  {
    hide Shaped, Counted;
    OpenedIsShaped(w, rec);
    OpenedIsCounted(w, rec);
  }

  /** A flag update on the commit path finds the transaction's own slot and changes nothing else. */
  lemma OwnRecordFound(w: World, h: nat, to: nat)
    requires LogInv(w) && h < |w.tickets| && OnCommitPath(w.tickets[h])
    ensures var own := w.tickets[h];
            && 1 <= own.id <= |w.log.slots| && w.log.slots[own.id - 1] == own
            && Retag(w.log.slots, own.id, own.flag, to) == w.log.slots[own.id - 1 := own.(flag := to)]
  {
    var own := w.tickets[h];
    assert Kept(w, h);
    var k := FindRecord(w.log.slots, own.flag, own.id);
    assert k <= own.id - 1;
  }

  function Retagged(w: World, h: nat, to: nat): World
    requires h < |w.tickets|
  {
    var own := w.tickets[h];
    var slots := Retag(w.log.slots, own.id, own.flag, to);
    World(Log(w.log.count - (if to == OVER then 1 else 0), slots), w.tickets[h := own.(flag := to)], w.places)
  }

  lemma RetaggedIsShaped(w: World, h: nat, to: nat)
    requires LogInv(w) && h < |w.tickets| && OnCommitPath(w.tickets[h]) && (to == OVER || to == COMMITTING)
    ensures Shaped(Retagged(w, h, to))
  {
    OwnRecordFound(w, h, to);
    hide Counted, Retag;
    var t := Retagged(w, h, to);
    forall g | 0 <= g < |t.tickets| ensures Kept(t, g) {
      assert Kept(w, g);
      assert g != h && OnCommitPath(w.tickets[g]) ==> w.tickets[g].id != w.tickets[h].id;
    }
  }

  lemma RetaggedIsCounted(w: World, h: nat, to: nat)
    requires LogInv(w) && h < |w.tickets| && OnCommitPath(w.tickets[h]) && (to == OVER || to == COMMITTING)
    ensures Counted(Retagged(w, h, to))
  {
    var own := w.tickets[h];
    OwnRecordFound(w, h, to);
    hide Shaped, Busy, Rolling, Retag;
    BusyUpdated(w.log.slots, own.id - 1, own.(flag := to));
    RollingUnchanged(w.log.slots, own.id - 1, own.(flag := to));
    RollingUnchanged(w.tickets, h, own.(flag := to));
  }

  lemma RetagKeeps(w: World, h: nat, to: nat)
    requires LogInv(w) && h < |w.tickets| && OnCommitPath(w.tickets[h]) && (to == OVER || to == COMMITTING)
    ensures LogInv(Retagged(w, h, to))
  {
    hide Shaped, Counted;
    RetaggedIsShaped(w, h, to);
    RetaggedIsCounted(w, h, to);
  }

  /** The rollback record of a ticket, or one that looks the same, is there to be deleted. */
  lemma RollbackRecordFound(w: World, h: nat)
    requires LogInv(w) && h < |w.tickets| && w.tickets[h].flag == ROLLING_BACK
    ensures FindRecord(w.log.slots, ROLLING_BACK, w.tickets[h].id) < |w.log.slots| && w.tickets[h].id >= 1
  {
    IsRolling(w.tickets, h);
    RollingIsThere(w.log.slots, w.tickets[h].id);
  }

  lemma RollbackClosedIsShaped(w: World, h: nat)
    requires LogInv(w) && h < |w.tickets| && w.tickets[h].flag == ROLLING_BACK
    ensures Shaped(Retagged(w, h, OVER))
  {
    hide Counted;
    var t := Retagged(w, h, OVER);
    forall g | 0 <= g < |t.tickets| ensures Kept(t, g) {
      assert Kept(w, g);
    }
  }

  lemma RollbackClosedIsCounted(w: World, h: nat)
    requires LogInv(w) && h < |w.tickets| && w.tickets[h].flag == ROLLING_BACK
    ensures Counted(Retagged(w, h, OVER))
  {
    var own := w.tickets[h];
    RollbackRecordFound(w, h);
    var k := FindRecord(w.log.slots, ROLLING_BACK, own.id);
    hide Shaped, Busy, Rolling, FindRecord;
    BusyUpdated(w.log.slots, k, w.log.slots[k].(flag := OVER));
    RollingUpdated(w.log.slots, k, w.log.slots[k].(flag := OVER));
    RollingUpdated(w.tickets, h, own.(flag := OVER));
    var t := Retagged(w, h, OVER);
    CancelOne(Rolling(t.log.slots), Rolling(t.tickets), own.id);
  }

  lemma CloseRollbackKeeps(w: World, h: nat)
    requires LogInv(w) && h < |w.tickets| && w.tickets[h].flag == ROLLING_BACK
    ensures LogInv(Retagged(w, h, OVER))
  {
    hide Shaped, Counted;
    RollbackClosedIsShaped(w, h);
    RollbackClosedIsCounted(w, h);
  }

  lemma CancelOne(a: multiset<int>, b: multiset<int>, id: int)
    requires a + multiset{id} == b + multiset{id}
    ensures a == b
  {
    assert a == (a + multiset{id}) - multiset{id};
    assert b == (b + multiset{id}) - multiset{id};
  }

  lemma LogInvBounds(w: World)
    requires LogInv(w)
    ensures w.log.count >= 0 && forall h | 0 <= h < |w.tickets| :: w.tickets[h].flag <= ROLLING_BACK
  {
  }

  lemma ActKeeps(w: World, op: LogOp)
    requires LogInv(w)
    ensures LogInv(Act(w, op))
  {
    hide LogInv, FirstFree, Write, Retag;
    LogInvBounds(w);
    match op
    case DoOpenCommit(members) => OpenKeeps(w, Record(PREPARING, FirstFree(w.log.slots) + 1, members));
    case DoOpenRollback(members) => OpenKeeps(w, Record(ROLLING_BACK, w.log.count + 1, members));
    case DoDecide(h) =>
      if h < |w.tickets| && w.tickets[h].flag == PREPARING {
        RetagKeeps(w, h, COMMITTING);
      }
    case DoClose(h) =>
      if h < |w.tickets| && w.tickets[h].flag != OVER {
        if w.tickets[h].flag == ROLLING_BACK {
          CloseRollbackKeeps(w, h);
        } else {
          RetagKeeps(w, h, OVER);
        }
      }
  }

  lemma {:induction false} ActAllKeeps(w: World, ops: seq<LogOp>)
    requires LogInv(w)
    ensures LogInv(ActAll(w, ops))
    decreases |ops|
  {
    if ops != [] {
      ActKeeps(w, ops[0]);
      ActAllKeeps(Act(w, ops[0]), ops[1..]);
    }
  }

  /** From an empty file, after any sequence of accesses by any number of transactions: the header
      counts the records that are not over, the ids of the live records on the commit path are
      distinct and say where the record is, and that record is exactly what its transaction
      believes it to be. */
  lemma LogStaysSound(ops: seq<LogOp>)
    ensures var w := ActAll(EMPTY, ops);
            && w.log.count == Busy(w.log.slots)
            && DistinctIds(w.tickets)
            && forall h | 0 <= h < |w.tickets| :: Kept(w, h)
  {
    ActAllKeeps(EMPTY, ops);
  }
}

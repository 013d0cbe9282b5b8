/** The rollback path of the recovery file, where ids can repeat: what that does, and when it does not
    happen. */
module RecoveryIds {
  import opened RecoveryLog
  import opened RecoveryRuns

  predicate RollsAt(slots: seq<Record>, k: nat, id: int) {
    k < |slots| && slots[k].flag == ROLLING_BACK && slots[k].id == id
  }

  /** In every reachable state, a rollback that ends deletes exactly one record, a rollback record with
      its id; and it is the one in the slot it wrote to if and only if there is such a record in that
      slot and none in an earlier one. */
  lemma RollbackDeletesOwnIff(ops: seq<LogOp>, h: nat)
    requires var w := ActAll(EMPTY, ops); h < |w.tickets| && w.tickets[h].flag == ROLLING_BACK
    ensures var w := ActAll(EMPTY, ops);
            var id, k := w.tickets[h].id, FindRecord(w.log.slots, ROLLING_BACK, w.tickets[h].id);
            && h < |w.places| && RollsAt(w.log.slots, k, id)
            && Act(w, DoClose(h)).log.slots == w.log.slots[k := w.log.slots[k].(flag := OVER)]
            && (k == w.places[h] <==>
                  && RollsAt(w.log.slots, w.places[h], id)
                  && forall j | 0 <= j < w.places[h] :: !RollsAt(w.log.slots, j, id))
  {
    ActAllKeeps(EMPTY, ops);
    var w := ActAll(EMPTY, ops);
    RollbackRecordFound(w, h);
    assert Seated(w);
    var id := w.tickets[h].id;
    var k := FindRecord(w.log.slots, ROLLING_BACK, id);
    assert RollsAt(w.log.slots, k, id) && forall j | 0 <= j < k :: !RollsAt(w.log.slots, j, id);
  }

  // ------------------------------------------------------------------
  // As long as no two rollbacks share an id
  // ------------------------------------------------------------------

  predicate IsRollingBack(w: World, h: nat) {
    h < |w.tickets| && w.tickets[h].flag == ROLLING_BACK
  }

  /** The record of a rollback is in the slot it was written to. */
  predicate InPlace(w: World, h: nat) {
    h < |w.places| && w.places[h] < |w.log.slots| && h < |w.tickets| && w.log.slots[w.places[h]] == w.tickets[h]
  }

  /** Nothing has gone wrong: every rollback finds its record in its slot, no two have the same slot,
      and there are no other rollback records. */
  predicate Owned(w: World) {
    && |w.places| == |w.tickets|
    && (forall h | 0 <= h < |w.tickets| && IsRollingBack(w, h) :: InPlace(w, h))
    && (forall g, h | 0 <= g < h < |w.tickets| && IsRollingBack(w, g) && IsRollingBack(w, h) ::
          w.places[g] != w.places[h])
    && (forall k | 0 <= k < |w.log.slots| && w.log.slots[k].flag == ROLLING_BACK ::
          exists h | 0 <= h < |w.tickets| && IsRollingBack(w, h) :: w.places[h] == k)
  }

  predicate IdsDiffer(w: World) {
    forall g, h | 0 <= g < h < |w.tickets| && IsRollingBack(w, g) && IsRollingBack(w, h) ::
      w.tickets[g].id != w.tickets[h].id
  }

  /** The rollback of ticket h, if it ended now, would delete its own record and no other. */
  predicate ClosesOwn(w: World, h: nat)
    requires InPlace(w, h)
  {
    Act(w, DoClose(h)).log.slots == w.log.slots[w.places[h] := w.tickets[h].(flag := OVER)]
  }

  lemma OwnIsOnly(w: World, h: nat)
    requires LogInv(w) && Owned(w) && IdsDiffer(w) && IsRollingBack(w, h)
    ensures FindRecord(w.log.slots, ROLLING_BACK, w.tickets[h].id) == w.places[h] && InPlace(w, h) && ClosesOwn(w, h)
  {
    assert InPlace(w, h);
    RollbackRecordFound(w, h);
    var k := FindRecord(w.log.slots, ROLLING_BACK, w.tickets[h].id);
    var g :| 0 <= g < |w.tickets| && IsRollingBack(w, g) && w.places[g] == k;
    assert InPlace(w, g);
    assert w.tickets[g].id == w.tickets[h].id;
    assert g == h;
  }

  /** While nothing has gone wrong, every rollback would delete its own record if and only if no two
      of them have the same id. */
  lemma ClosesOwnIffIdsDiffer(w: World)
    requires LogInv(w) && Owned(w)
    ensures (forall h | 0 <= h < |w.tickets| && IsRollingBack(w, h) :: InPlace(w, h) && ClosesOwn(w, h)) <==>
              IdsDiffer(w)
  {
    if IdsDiffer(w) {
      forall h | 0 <= h < |w.tickets| && IsRollingBack(w, h) ensures InPlace(w, h) && ClosesOwn(w, h) {
        OwnIsOnly(w, h);
      }
    } else {
      var g, h :| 0 <= g < h < |w.tickets| && IsRollingBack(w, g) && IsRollingBack(w, h)
                  && w.tickets[g].id == w.tickets[h].id;
      assert InPlace(w, g) && InPlace(w, h);
      SharedIdGoesWrong(w, g, h);
      SharedIdGoesWrong(w, h, g);
    }
  }

  /** Of two rollbacks with one id, the one in the later slot would delete the wrong record. */
  lemma SharedIdGoesWrong(w: World, g: nat, h: nat)
    requires LogInv(w) && IsRollingBack(w, g) && IsRollingBack(w, h) && InPlace(w, g) && InPlace(w, h)
    requires w.tickets[g].id == w.tickets[h].id
    ensures w.places[g] < w.places[h] ==> !ClosesOwn(w, h)
  {
    if w.places[g] < w.places[h] {
      RollbackRecordFound(w, h);
      var k := FindRecord(w.log.slots, ROLLING_BACK, w.tickets[h].id);
      assert k <= w.places[g];
      var slots := Act(w, DoClose(h)).log.slots;
      assert slots[w.places[h]] == w.log.slots[w.places[h]];
    }
  }

  /** No two rollbacks ever share an id, at any point of a run. */
  predicate NeverShared(w: World, ops: seq<LogOp>)
    decreases |ops|
  {
    IdsDiffer(w) && (ops != [] ==> NeverShared(Act(w, ops[0]), ops[1..]))
  }

  lemma OpeningKeepsOwned(w: World, rec: Record)
    requires Owned(w) && Openable(w, rec)
    ensures Owned(Opened(w, rec))
  {
    var t, n := Opened(w, rec), |w.tickets|;
    var p := FirstFree(w.log.slots);
    forall h | 0 <= h < |t.tickets| && IsRollingBack(t, h) ensures InPlace(t, h) && (h < n ==> t.places[h] != p) {
      if h < n {
        assert IsRollingBack(w, h) && InPlace(w, h);
      }
    }
    forall k | 0 <= k < |t.log.slots| && t.log.slots[k].flag == ROLLING_BACK
      ensures exists h | 0 <= h < |t.tickets| && IsRollingBack(t, h) :: t.places[h] == k
    {
      if k == p {
        assert IsRollingBack(t, n) && t.places[n] == k;
      } else {
        assert w.log.slots[k].flag == ROLLING_BACK;
        var h :| 0 <= h < n && IsRollingBack(w, h) && w.places[h] == k;
        assert IsRollingBack(t, h) && t.places[h] == k;
      }
    }
  }

  /** A slot that holds no rollback record is changed into one that holds none. */
  lemma RetaggingKeepsOwned(w: World, h: nat, to: nat)
    requires LogInv(w) && Owned(w) && h < |w.tickets| && OnCommitPath(w.tickets[h]) && (to == OVER || to == COMMITTING)
    ensures Owned(Retagged(w, h, to))
  {
    hide LogInv, Retag;
    OwnRecordFound(w, h, to);
    var t := Retagged(w, h, to);
    forall g | 0 <= g < |t.tickets| && IsRollingBack(t, g) ensures InPlace(t, g) {
      assert IsRollingBack(w, g) && InPlace(w, g);
    }
    forall k | 0 <= k < |t.log.slots| && t.log.slots[k].flag == ROLLING_BACK
      ensures exists g | 0 <= g < |t.tickets| && IsRollingBack(t, g) :: t.places[g] == k
    {
      var g :| 0 <= g < |w.tickets| && IsRollingBack(w, g) && w.places[g] == k;
      assert IsRollingBack(t, g) && t.places[g] == k;
    }
  }

  lemma ClosingKeepsOwned(w: World, h: nat)
    requires LogInv(w) && Owned(w) && IdsDiffer(w) && IsRollingBack(w, h)
    ensures Owned(Act(w, DoClose(h)))
  {
    OwnIsOnly(w, h);
    var t := Act(w, DoClose(h));
    forall g | 0 <= g < |t.tickets| && IsRollingBack(t, g) ensures InPlace(t, g) {
      assert IsRollingBack(w, g) && InPlace(w, g) && g != h;
    }
    forall k | 0 <= k < |t.log.slots| && t.log.slots[k].flag == ROLLING_BACK
      ensures exists g | 0 <= g < |t.tickets| && IsRollingBack(t, g) :: t.places[g] == k
    {
      var g :| 0 <= g < |w.tickets| && IsRollingBack(w, g) && w.places[g] == k;
      assert IsRollingBack(t, g) && t.places[g] == k;
    }
  }

  lemma ActKeepsOwned(w: World, op: LogOp)
    requires LogInv(w) && Owned(w) && IdsDiffer(w)
    ensures Owned(Act(w, op))
  {
    hide LogInv, Owned, IdsDiffer, FirstFree, Write, Retag;
    LogInvBounds(w);
    match op
    case DoOpenCommit(members) => OpeningKeepsOwned(w, Record(PREPARING, FirstFree(w.log.slots) + 1, members));
    case DoOpenRollback(members) => OpeningKeepsOwned(w, Record(ROLLING_BACK, w.log.count + 1, members));
    case DoDecide(h) =>
      if h < |w.tickets| && w.tickets[h].flag == PREPARING {
        RetaggingKeepsOwned(w, h, COMMITTING);
      }
    case DoClose(h) =>
      if h < |w.tickets| && w.tickets[h].flag != OVER {
        if w.tickets[h].flag == ROLLING_BACK {
          ClosingKeepsOwned(w, h);
        } else {
          RetaggingKeepsOwned(w, h, OVER);
        }
      }
  }

  /** In a run in which no two rollbacks ever share an id, every transaction finds and deletes its own
      record, on the rollback path too. */
  lemma {:induction false} NeverSharedNeverLost(w: World, ops: seq<LogOp>)
    requires LogInv(w) && Owned(w) && NeverShared(w, ops)
    ensures LogInv(ActAll(w, ops)) && Owned(ActAll(w, ops))
    decreases |ops|
  {
    hide LogInv, Owned, Act;
    if ops != [] {
      ActKeeps(w, ops[0]);
      ActKeepsOwned(w, ops[0]);
      NeverSharedNeverLost(Act(w, ops[0]), ops[1..]);
    }
  }

  // ------------------------------------------------------------------
  // A collision
  // ------------------------------------------------------------------

  const FIRST := Record(PREPARING, 1, [1])
  const EARLIER := Record(ROLLING_BACK, 2, [2])
  const LATER := Record(ROLLING_BACK, 2, [3])

  function CollidingOps(): seq<LogOp> {
    [DoOpenCommit([1]), DoOpenRollback([2]), DoClose(0), DoOpenRollback([3])]
  }

  lemma ActAllUnfolds(w: World, op: LogOp, ops: seq<LogOp>)
    ensures ActAll(w, [op] + ops) == ActAll(Act(w, op), ops)
  {
    assert ([op] + ops)[1..] == ops;
  }

  lemma CollisionReached()
    ensures ActAll(EMPTY, CollidingOps()) ==
              World(Log(2, [LATER, EARLIER]), [FIRST.(flag := OVER), EARLIER, LATER], [0, 1, 0])
  {
    var w1 := World(Log(1, [FIRST]), [FIRST], [0]);
    assert Act(EMPTY, DoOpenCommit([1])) == w1;
    var w2 := World(Log(2, [FIRST, EARLIER]), [FIRST, EARLIER], [0, 1]);
    assert FirstFree([FIRST]) == 1;
    assert Act(w1, DoOpenRollback([2])) == w2;
    var w3 := World(Log(1, [FIRST.(flag := OVER), EARLIER]), [FIRST.(flag := OVER), EARLIER], [0, 1]);
    assert Act(w2, DoClose(0)) == w3;
    assert CollidingOps() ==
             [DoOpenCommit([1])] + ([DoOpenRollback([2])] + ([DoClose(0)] + ([DoOpenRollback([3])] + [])));
    ActAllUnfolds(EMPTY, DoOpenCommit([1]), [DoOpenRollback([2])] + ([DoClose(0)] + ([DoOpenRollback([3])] + [])));
    ActAllUnfolds(w1, DoOpenRollback([2]), [DoClose(0)] + ([DoOpenRollback([3])] + []));
    ActAllUnfolds(w2, DoClose(0), [DoOpenRollback([3])] + []);
    ActAllUnfolds(w3, DoOpenRollback([3]), []);
  }

  /** It does happen: two rollbacks run under the same id, the older one in the later slot, and when
      the older one ends it deletes the record of the newer one and leaves its own. */
  lemma RollbackIdsCanCollide()
    ensures var w := ActAll(EMPTY, CollidingOps());
            && w.tickets[1..] == [EARLIER, LATER] && EARLIER in w.log.slots && LATER in w.log.slots
            && EARLIER in Act(w, DoClose(1)).log.slots && LATER !in Act(w, DoClose(1)).log.slots
  {
    CollisionReached();
    var w := ActAll(EMPTY, CollidingOps());
    assert w.log.slots[0] == LATER && w.log.slots[1] == EARLIER;
    assert FindRecord(w.log.slots, ROLLING_BACK, 2) == 0;
    var t := Act(w, DoClose(1));
    assert t.log.slots == [LATER.(flag := OVER), EARLIER];
    assert t.log.slots[1] == EARLIER;
  }
}

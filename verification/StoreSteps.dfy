/** Each statement of a transaction, short of its commit, keeps the invariant. */
module StoreSteps {
  import opened Prelude
  import opened Forest
  import opened Store
  import opened StoreInvariants

  /** Only free rows and a free group were locked. */
  ghost predicate LocksWereFree(s: State, t: TxId, tx: Tx, tx2: Tx) {
    && tx2.op == tx.op
    && (forall id :: id in tx2.held ==> id in tx.held || RowFree(s, t, id))
    && (tx2.group == tx.group || tx2.group.None? || GroupFree(s, t, tx2.group.value))
  }

  lemma {:induction false} WalkStepOk(s: State, t: TxId, tx: Tx, child: Option<Id>, start: Id, kind: string, locale: string, cursor: Id)
    requires LocksHold(s.db, tx) && Walked(s.db.docs, tx, start, Some(cursor), kind, locale)
    requires child.Some? ==> child.value !in tx.path
    requires WalkStep(s, t, tx, child, kind, locale, cursor).WalkTo?
    ensures var w := WalkStep(s, t, tx, child, kind, locale, cursor);
            && LocksHold(s.db, w.tx) && LocksWereFree(s, t, tx, w.tx)
            && Walked(s.db.docs, w.tx, start, w.cursor, kind, locale)
            && (child.Some? ==> child.value !in w.tx.path)
            && w.tx.path != []
            && (forall id :: id in tx.held ==> id in w.tx.held && w.tx.held[id] == tx.held[id])
  {
    var w := WalkStep(s, t, tx, child, kind, locale, cursor);
    assert cursor in Par(s.db.docs) && Par(s.db.docs)[cursor] == w.cursor;
    ChainGrows(Par(s.db.docs), tx.path, cursor);
  }

  lemma {:induction false} ChainGrows(p: Parents, path: seq<Id>, next: Id)
    requires IsChain(p, path) && next in p && (path != [] ==> p[path[|path| - 1]] == Some(next))
    ensures IsChain(p, path + [next])
  {
    var longer := path + [next];
    forall i | 0 <= i < |longer| - 1
      ensures p[longer[i]] == Some(longer[i + 1])
    {
      if i < |path| - 1 {
        assert p[path[i]] == Some(path[i + 1]);
      }
    }
  }

  lemma {:induction false} CreateGroupStepOk(reg: Registry, s: State, t: TxId, tx: Tx)
    requires TxInv(reg, s.db, tx) && tx.op.Create? && (tx.pc.CreateLockGroup? || tx.pc.CreateJudge?)
    requires StepCreate(reg, s, t, tx).Goto?
    ensures var tx2 := StepCreate(reg, s, t, tx).tx;
            TxInv(reg, s.db, tx2) && LocksWereFree(s, t, tx, tx2)
  {
    var tx2 := StepCreate(reg, s, t, tx).tx;
    assert LocksHold(s.db, tx2);
    if tx.pc.CreateJudge? {
      assert Joined(s.db, tx2);
    }
    assert PcInv(reg, s.db, tx2);
  }

  lemma {:induction false} CreateWalkFacts(reg: Registry, s: State, t: TxId, tx: Tx, cursor: Id, parent: Id)
    requires tx.op.Create? && tx.op.kind in reg && tx.pc == CreateWalk(cursor)
    requires LocksHold(s.db, tx) && Joined(s.db, tx)
    requires Walked(s.db.docs, tx, parent, Some(cursor), tx.op.kind, tx.op.locale)
    requires StepCreate(reg, s, t, tx).Goto?
    ensures var tx2 := StepCreate(reg, s, t, tx).tx;
            && LocksHold(s.db, tx2) && LocksWereFree(s, t, tx, tx2) && Joined(s.db, tx2)
            && (|| (tx2.pc.CreateWalk? && Walked(s.db.docs, tx2, parent, Some(tx2.pc.cursor), tx.op.kind, tx.op.locale))
                || (tx2.pc.CreateInsert? && Walked(s.db.docs, tx2, parent, None, tx.op.kind, tx.op.locale)
                    && |tx2.path| + 1 <= MAX_HIERARCHY_DEPTH))
  {
    var w := WalkStep(s, t, tx, None, tx.op.kind, tx.op.locale, cursor);
    WalkStepOk(s, t, tx, None, parent, tx.op.kind, tx.op.locale, cursor);
    WalkedFrame(s, w.tx, StepCreate(reg, s, t, tx).tx, parent, w.cursor, tx.op.kind, tx.op.locale);
  }

  /** What has been walked is a matter of the path and the rows held. */
  lemma {:induction false} WalkedFrame(s: State, tx: Tx, tx2: Tx, start: Id, cursor: Option<Id>, kind: string, locale: string)
    requires Walked(s.db.docs, tx, start, cursor, kind, locale) && LocksHold(s.db, tx)
    requires tx2.path == tx.path && tx2.held == tx.held && tx2.group == tx.group
    ensures Walked(s.db.docs, tx2, start, cursor, kind, locale) && LocksHold(s.db, tx2)
  {
  }

  lemma {:induction false} CreateWalkStepOk(reg: Registry, s: State, t: TxId, tx: Tx)
    requires TxInv(reg, s.db, tx) && tx.op.Create? && tx.pc.CreateWalk?
    requires StepCreate(reg, s, t, tx).Goto?
    ensures var tx2 := StepCreate(reg, s, t, tx).tx;
            TxInv(reg, s.db, tx2) && LocksWereFree(s, t, tx, tx2)
  {
    CreateWalkFacts(reg, s, t, tx, tx.pc.cursor, tx.op.state.parent.value);
  }

  lemma {:induction false} UpdateLockStepOk(reg: Registry, s: State, t: TxId, tx: Tx)
    requires TxInv(reg, s.db, tx) && tx.op.Update? && tx.pc.UpdateLock?
    requires StepUpdate(reg, s, t, tx).Goto?
    ensures var tx2 := StepUpdate(reg, s, t, tx).tx;
            TxInv(reg, s.db, tx2) && LocksWereFree(s, t, tx, tx2)
  {
    var tx2 := StepUpdate(reg, s, t, tx).tx;
    assert UpdateJudged(reg, tx2);
    assert PcInv(reg, s.db, tx2);
  }

  lemma {:induction false} UpdateWalkFacts(reg: Registry, s: State, t: TxId, tx: Tx, cursor: Id)
    requires tx.op.Update? && tx.op.kind in reg && tx.pc == UpdateWalk(cursor)
    requires LocksHold(s.db, tx) && UpdateJudged(reg, tx) && MoveWalked(reg, s.db.docs, tx, Some(cursor))
    requires StepUpdate(reg, s, t, tx).Goto?
    ensures var tx2 := StepUpdate(reg, s, t, tx).tx;
            && LocksHold(s.db, tx2) && LocksWereFree(s, t, tx, tx2) && UpdateJudged(reg, tx2)
            && (tx2.pc.UpdateWalk? || tx2.pc.UpdateMeasure?)
            && MoveWalked(reg, s.db.docs, tx2, if tx2.pc.UpdateWalk? then Some(tx2.pc.cursor) else None)
  {
    var row := tx.held[tx.op.id];
    var next := NextOf(reg, tx.op, row).value;
    WalkStepOk(s, t, tx, Some(tx.op.id), next.parent.value, row.kind, row.locale, cursor);
  }

  lemma {:induction false} UpdateWalkStepOk(reg: Registry, s: State, t: TxId, tx: Tx)
    requires TxInv(reg, s.db, tx) && tx.op.Update? && tx.pc.UpdateWalk?
    requires StepUpdate(reg, s, t, tx).Goto?
    ensures var tx2 := StepUpdate(reg, s, t, tx).tx;
            TxInv(reg, s.db, tx2) && LocksWereFree(s, t, tx, tx2)
  {
    UpdateWalkFacts(reg, s, t, tx, tx.pc.cursor);
  }

  lemma {:induction false} UpdateMeasureStepOk(reg: Registry, s: State, t: TxId, tx: Tx)
    requires TxInv(reg, s.db, tx) && tx.op.Update? && tx.pc.UpdateMeasure?
    requires StepUpdate(reg, s, t, tx).Goto?
    ensures var tx2 := StepUpdate(reg, s, t, tx).tx;
            TxInv(reg, s.db, tx2) && LocksWereFree(s, t, tx, tx2)
  {
    var tx2 := StepUpdate(reg, s, t, tx).tx;
    assert tx.op.id in Par(s.db.docs);
    SubtreeHeightExact(Par(s.db.docs), tx.op.id);
    assert UpdateJudged(reg, tx2) && MoveWalked(reg, s.db.docs, tx2, None);
    assert PcInv(reg, s.db, tx2);
  }

  lemma {:induction false} DeleteFindStepOk(reg: Registry, s: State, t: TxId, tx: Tx, pick: Id)
    requires TxInv(reg, s.db, tx) && tx.op.Delete? && (tx.pc.DeleteFind? || tx.pc.DeleteLockGroup?)
    requires IdsUsed(s.db) && forall id :: id in s.db.docs ==> s.db.docs[id].group in s.db.groups
    requires StepDelete(reg, s, t, tx, pick).Goto?
    ensures var tx2 := StepDelete(reg, s, t, tx, pick).tx;
            TxInv(reg, s.db, tx2) && LocksWereFree(s, t, tx, tx2)
  {
    var tx2 := StepDelete(reg, s, t, tx, pick).tx;
    assert PcInv(reg, s.db, tx2);
  }

  lemma {:induction false} DeleteLockStepOk(reg: Registry, s: State, t: TxId, tx: Tx, pick: Id)
    requires TxInv(reg, s.db, tx) && tx.op.Delete? && (tx.pc.DeleteLock? || tx.pc.DeleteFindChildren?)
    requires StepDelete(reg, s, t, tx, pick).Goto?
    ensures var tx2 := StepDelete(reg, s, t, tx, pick).tx;
            TxInv(reg, s.db, tx2) && LocksWereFree(s, t, tx, tx2)
  {
    var tx2 := StepDelete(reg, s, t, tx, pick).tx;
    assert PcInv(reg, s.db, tx2);
  }

  lemma {:induction false} DeleteDetachStepOk(reg: Registry, s: State, t: TxId, tx: Tx, pick: Id)
    requires TxInv(reg, s.db, tx) && tx.op.Delete? && tx.pc.DeleteDetach?
    requires StepDelete(reg, s, t, tx, pick).Goto?
    ensures var tx2 := StepDelete(reg, s, t, tx, pick).tx;
            TxInv(reg, s.db, tx2) && LocksWereFree(s, t, tx, tx2)
  {
    var tx2 := StepDelete(reg, s, t, tx, pick).tx;
    assert LocksHold(s.db, tx2) && LocksWereFree(s, t, tx, tx2);
    assert DeleteJudged(reg, tx2, tx.pc.g);
    assert PcInv(reg, s.db, tx2);
  }

  lemma {:induction false} DeleteCountStepOk(reg: Registry, s: State, t: TxId, tx: Tx, pick: Id)
    requires TxInv(reg, s.db, tx) && tx.op.Delete? && tx.pc.DeleteCount?
    requires StepDelete(reg, s, t, tx, pick).Goto?
    ensures var tx2 := StepDelete(reg, s, t, tx, pick).tx;
            TxInv(reg, s.db, tx2) && LocksWereFree(s, t, tx, tx2)
  {
    var tx2 := StepDelete(reg, s, t, tx, pick).tx;
    assert DeleteJudged(reg, tx2, tx.pc.g);
    assert PcInv(reg, s.db, tx2);
  }

  lemma {:induction false} PublishStepOk(reg: Registry, s: State, t: TxId, tx: Tx, pick: Id)
    requires TxInv(reg, s.db, tx) && tx.op.PublishDue?
    requires StepPublish(s, t, tx, pick).Goto?
    ensures var tx2 := StepPublish(s, t, tx, pick).tx;
            TxInv(reg, s.db, tx2) && LocksWereFree(s, t, tx, tx2)
  {
    var tx2 := StepPublish(s, t, tx, pick).tx;
    assert PcInv(reg, s.db, tx2);
  }

  lemma {:induction false} StepOk(reg: Registry, s: State, t: TxId, tx: Tx, pick: Id)
    requires TxInv(reg, s.db, tx) && StepTx(reg, s, t, tx, pick).Goto?
    requires IdsUsed(s.db) && forall id :: id in s.db.docs ==> s.db.docs[id].group in s.db.groups
    ensures var tx2 := StepTx(reg, s, t, tx, pick).tx;
            TxInv(reg, s.db, tx2) && LocksWereFree(s, t, tx, tx2)
  {
    match tx.op {
      case Create(_, _, _, _, _, _) =>
        if tx.pc.CreateWalk? {
          CreateWalkStepOk(reg, s, t, tx);
        } else {
          CreateGroupStepOk(reg, s, t, tx);
        }
      case Update(_, _, _, _, _, _, _) =>
        if tx.pc.UpdateLock? {
          UpdateLockStepOk(reg, s, t, tx);
        } else if tx.pc.UpdateWalk? {
          UpdateWalkStepOk(reg, s, t, tx);
        } else {
          UpdateMeasureStepOk(reg, s, t, tx);
        }
      case Delete(_, _, _) =>
        if tx.pc.DeleteFind? || tx.pc.DeleteLockGroup? {
          DeleteFindStepOk(reg, s, t, tx, pick);
        } else if tx.pc.DeleteLock? || tx.pc.DeleteFindChildren? {
          DeleteLockStepOk(reg, s, t, tx, pick);
        } else if tx.pc.DeleteDetach? {
          DeleteDetachStepOk(reg, s, t, tx, pick);
        } else {
          DeleteCountStepOk(reg, s, t, tx, pick);
        }
      case PublishDue(_) => PublishStepOk(reg, s, t, tx, pick);
    }
  }

  /** A statement that only moves its own transaction on. */
  lemma {:induction false} AdvanceKeepsInv(reg: Registry, s: State, t: TxId, pick: Id)
    requires Inv(reg, s) && t in s.txs && StepTx(reg, s, t, s.txs[t], pick).Goto?
    ensures Inv(reg, s.(txs := s.txs[t := StepTx(reg, s, t, s.txs[t], pick).tx]))
  {
    var tx := s.txs[t];
    var tx2 := StepTx(reg, s, t, tx, pick).tx;
    StepOk(reg, s, t, tx, pick);
    KeepsExclusive(s, t, tx2);
  }

  lemma {:induction false} KeepsExclusive(s: State, t: TxId, tx2: Tx)
    requires Exclusive(s) && t in s.txs && LocksWereFree(s, t, s.txs[t], tx2)
    ensures Exclusive(s.(txs := s.txs[t := tx2]))
  {
    forall u | u in s.txs && u != t
      ensures tx2.held.Keys !! s.txs[u].held.Keys
      ensures tx2.group.None? || tx2.group != s.txs[u].group
    {
      assert s.txs[t].held.Keys !! s.txs[u].held.Keys;
    }
  }

  lemma {:induction false} BeginKeepsInv(reg: Registry, s: State, t: TxId, op: Op)
    requires Inv(reg, s) && Apply(reg, s, Begin(t, op)).Some?
    ensures Inv(reg, Apply(reg, s, Begin(t, op)).value)
  {
    var tx := Tx(op, FirstPc(op), s.clock, map[], None, {}, [], 0);
    BeginsOk(reg, s.db, tx);
    NewcomerKeeps(reg, s, t, tx);
  }

  lemma {:induction false} NewcomerKeeps(reg: Registry, s: State, t: TxId, tx: Tx)
    requires Exclusive(s) && EachKnows(reg, s) && TxInv(reg, s.db, tx)
    requires tx.held == map[] && tx.group.None?
    ensures Exclusive(s.(txs := s.txs[t := tx])) && EachKnows(reg, s.(txs := s.txs[t := tx]))
  {
    assert forall u :: u in s.txs ==> TxInv(reg, s.db, s.txs[u]);
  }

  lemma {:induction false} BeginsOk(reg: Registry, db: Db, tx: Tx)
    requires MayBegin(reg, db, tx.op) && tx == Tx(tx.op, FirstPc(tx.op), tx.startedAt, map[], None, {}, [], 0)
    ensures TxInv(reg, db, tx)
  {
    assert LocksHold(db, tx);
    assert OpOk(reg, tx.op);
    assert PcInv(reg, db, tx);
  }

  /** Ending a transaction without writing releases its locks and nothing else. */
  lemma {:induction false} EndKeepsInv(reg: Registry, s: State, t: TxId, outcome: Outcome)
    requires Inv(reg, s) && t in s.txs
    ensures Inv(reg, Ended(s, t, s.db, outcome))
  {
  }
}

/** The invariant over every event and every run. */
module StoreSafety {
  import opened Prelude
  import opened Store
  import opened StoreInvariants
  import opened StoreSteps
  import opened StoreCommits
  import opened StoreCommitProofs

  lemma {:induction false} CommitOk(reg: Registry, s: State, tx: Tx, newDoc: Id, newGroup: Id)
    requires DbInv(reg, s.db) && TxInv(reg, s.db, tx)
    requires CommitTx(reg, s, tx, newDoc, newGroup).Commit?
    ensures DbInv(reg, CommitTx(reg, s, tx, newDoc, newGroup).db)
  {
    match tx.op {
      case Create(_, _, _, _, _, _) => CreateCommitOk(reg, s, tx, newDoc, newGroup);
      case Update(_, _, _, _, _, _, _) => WriteFacts(reg, s.db, tx); UpdateCommitOk(reg, s, tx);
      case Delete(_, _, _) => DeleteCommitOk(reg, s, tx);
      case PublishDue(_) => PublishCommitOk(reg, s, tx);
    }
  }

  lemma {:induction false} CommitRely(reg: Registry, s: State, tx: Tx, newDoc: Id, newGroup: Id, held: set<Id>, group: Option<Id>)
    requires DbInv(reg, s.db) && TxInv(reg, s.db, tx)
    requires CommitTx(reg, s, tx, newDoc, newGroup).Commit?
    requires Apart(tx, held, group) && held <= s.db.docs.Keys
    ensures Rely(s.db, CommitTx(reg, s, tx, newDoc, newGroup).db, held, group)
  {
    match tx.op {
      case Create(_, _, _, _, _, _) => CreateCommitRely(reg, s, tx, newDoc, newGroup, held, group);
      case Update(_, _, _, _, _, _, _) => WriteFacts(reg, s.db, tx); UpdateCommitRely(reg, s, tx, held, group);
      case Delete(_, _, _) => DeleteCommitRely(reg, s, tx, held, group);
      case PublishDue(_) => PublishCommitRely(reg, s, tx, held, group);
    }
  }

  lemma {:induction false} OtherTxKept(reg: Registry, s: State, t: TxId, u: TxId, newDoc: Id, newGroup: Id)
    requires Inv(reg, s) && t in s.txs && u in s.txs && t != u
    requires CommitTx(reg, s, s.txs[t], newDoc, newGroup).Commit?
    ensures TxInv(reg, CommitTx(reg, s, s.txs[t], newDoc, newGroup).db, s.txs[u])
  {
    var other := s.txs[u];
    assert TxInv(reg, s.db, other) && TxInv(reg, s.db, s.txs[t]);
    OnlyHeldRows(s.db, other);
    assert Apart(s.txs[t], other.held.Keys, other.group);
    CommitRely(reg, s, s.txs[t], newDoc, newGroup, other.held.Keys, other.group);
    TxInvStable(reg, s.db, CommitTx(reg, s, s.txs[t], newDoc, newGroup).db, other);
  }

  lemma {:induction false} OnlyHeldRows(db: Db, tx: Tx)
    requires LocksHold(db, tx)
    ensures tx.held.Keys <= db.docs.Keys
  {
  }

  lemma {:induction false} FinishKeepsInv(reg: Registry, s: State, t: TxId, newDoc: Id, newGroup: Id)
    requires Inv(reg, s) && t in s.txs && CommitTx(reg, s, s.txs[t], newDoc, newGroup).Commit?
    ensures var c := CommitTx(reg, s, s.txs[t], newDoc, newGroup);
            Inv(reg, Ended(s, t, c.db, c.outcome))
  {
    var c := CommitTx(reg, s, s.txs[t], newDoc, newGroup);
    CommitOk(reg, s, s.txs[t], newDoc, newGroup);
    forall u | u in s.txs && u != t
      ensures TxInv(reg, c.db, s.txs[u])
    {
      OtherTxKept(reg, s, t, u, newDoc, newGroup);
    }
  }

  /** The tables a transaction reads; assets are not among them. */
  lemma {:induction false} MediaFrame(reg: Registry, db: Db, media: set<Id>, tx: Tx)
    requires TxInv(reg, db, tx) && IdsUsed(db)
    ensures TxInv(reg, db.(media := media), tx)
  {
    assert Rely(db, db.(media := media), tx.held.Keys, tx.group);
    TxInvStable(reg, db, db.(media := media), tx);
  }

  lemma {:induction false} MediaKeepsInv(reg: Registry, s: State, media: set<Id>)
    requires Inv(reg, s) && forall m :: m in s.db.mirror ==> m.use.media in media
    ensures Inv(reg, s.(db := s.db.(media := media)))
  {
    var s2 := s.(db := s.db.(media := media));
    forall t | t in s2.txs
      ensures TxInv(reg, s2.db, s2.txs[t])
    {
      MediaFrame(reg, s.db, media, s.txs[t]);
    }
    assert Mirrored(reg, s2.db);
    assert Versioned(s2.db) && IdsUsed(s2.db);
  }

  lemma {:induction false} StatementKeepsInv(reg: Registry, s: State, t: TxId, pick: Id)
    requires Inv(reg, s) && Apply(reg, s, Advance(t, pick)).Some?
    ensures Inv(reg, Apply(reg, s, Advance(t, pick)).value)
  {
    match StepTx(reg, s, t, s.txs[t], pick)
    case Goto(_) => AdvanceKeepsInv(reg, s, t, pick);
    case Stop(outcome) => EndKeepsInv(reg, s, t, outcome);
  }

  lemma {:induction false} CommitKeepsInv(reg: Registry, s: State, t: TxId, newDoc: Id, newGroup: Id)
    requires Inv(reg, s) && Apply(reg, s, Finish(t, newDoc, newGroup)).Some?
    ensures Inv(reg, Apply(reg, s, Finish(t, newDoc, newGroup)).value)
  {
    match CommitTx(reg, s, s.txs[t], newDoc, newGroup)
    case Reject(reason) => EndKeepsInv(reg, s, t, Refused(reason));
    case Commit(_, _) => FinishKeepsInv(reg, s, t, newDoc, newGroup);
  }

  lemma {:induction false} ClockKeepsInv(reg: Registry, s: State, clock: int)
    requires Inv(reg, s)
    ensures Inv(reg, s.(clock := clock))
  {
    assert EachKnows(reg, s.(clock := clock));
  }

  /** No event of any transaction breaks what the others rely on. */
  lemma {:induction false} ApplyKeepsInv(reg: Registry, s: State, e: Event)
    requires Inv(reg, s) && Apply(reg, s, e).Some?
    ensures Inv(reg, Apply(reg, s, e).value)
  {
    match e
    case Begin(t, op) => BeginKeepsInv(reg, s, t, op);
    case Advance(t, pick) => StatementKeepsInv(reg, s, t, pick);
    case Finish(t, newDoc, newGroup) => CommitKeepsInv(reg, s, t, newDoc, newGroup);
    case Abort(t) => EndKeepsInv(reg, s, t, Refused(Aborted));
    case Tick(to) => ClockKeepsInv(reg, s, to);
    case UploadMedia(m) => MediaKeepsInv(reg, s, s.db.media + {m});
    case DeleteMedia(m) => MediaKeepsInv(reg, s, s.db.media - {m});
  }
}

/** What one event can do to one document, and who must have asked for it. */
module StoreEffects {
  import opened Prelude
  import opened Access
  import opened Store
  import opened StoreInvariants
  import opened StoreCommitProofs
  import Revisions

  ghost predicate Untouched(s: State, s2: State, id: Id) {
    && id in s.db.docs && id in s2.db.docs && s2.db.docs[id] == s.db.docs[id]
    && HistoryOf(s2.db, id) == HistoryOf(s.db, id)
  }

  /** Its parent was deleted: it became a root, and nothing else about it changed. */
  ghost predicate DetachedBy(s: State, s2: State, t: TxId, id: Id) {
    && t in s.txs && s.txs[t].op.Delete? && id in s.db.docs && id in s2.db.docs
    && s.db.docs[id].state.parent == Some(s.txs[t].op.id)
    && s2.db.docs[id] == s.db.docs[id].(state := s.db.docs[id].state.(parent := None))
    && HistoryOf(s2.db, id) == HistoryOf(s.db, id)
  }

  /**
   * A save or a restore, judged against the very row it replaced: same version, same status
   * for the authorization, and that row is what the new revision records.
   */
  ghost predicate SavedBy(reg: Registry, s: State, s2: State, t: TxId, id: Id) {
    && t in s.txs && s.txs[t].op.Update? && s.txs[t].op.id == id && s.txs[t].op.kind in reg
    && id in s.db.docs && id in s2.db.docs
    && var tx, row, row2 := s.txs[t], s.db.docs[id], s2.db.docs[id];
       && (tx.op.expected.Some? ==> tx.op.expected.value == row.version)
       && NextOf(reg, tx.op, row) == Some(row2.state)
       && MayUpdate(reg, tx.op, row, row2.state)
       && row2 == row.(state := row2.state, version := row.version + 1, updatedAt := Millis(s.clock))
       && HistoryOf(s2.db, id) == Revisions.Recorded(HistoryOf(s.db, id), RevisionOf(row, tx.startedAt))
  }

  ghost predicate PublishedBy(s: State, s2: State, t: TxId, id: Id) {
    && t in s.txs && s.txs[t].op.PublishDue? && id in s.txs[t].held
    && id in s.db.docs && id in s2.db.docs
    && IsDue(s.db.docs[id], s.txs[t].op.now)
    && s2.db.docs[id] == PublishedRow(s.db.docs[id], s.clock)
    && HistoryOf(s2.db, id) == Revisions.Recorded(HistoryOf(s.db, id), RevisionOf(s.db.docs[id], s.txs[t].startedAt))
  }

  ghost predicate InsertedBy(reg: Registry, s: State, s2: State, t: TxId, id: Id) {
    && t in s.txs && s.txs[t].op.Create? && s.txs[t].op.kind in reg
    && id !in s.db.usedDocs && id in s2.db.docs
    && var op, row := s.txs[t].op, s2.db.docs[id];
       && row.state == InsertedState(op) && row.version == 1 && row.kind == op.kind && row.locale == op.locale
       && row.author == op.actor.id && row.updatedAt == s.txs[t].startedAt
       && CanWrite(reg[op.kind].access, None, op.state.status, op.actor, None)
       && HistoryOf(s2.db, id) == {}
  }

  ghost predicate RemovedBy(reg: Registry, s: State, s2: State, t: TxId, id: Id) {
    && t in s.txs && s.txs[t].op.Delete? && s.txs[t].op.id == id && s.txs[t].op.kind in reg
    && id in s.db.docs && id !in s2.db.docs
    && MayDelete(reg, s.txs[t].op, s.db.docs[id])
  }

  ghost predicate StaysAbsent(s: State, s2: State, id: Id) {
    id !in s.db.docs && id !in s2.db.docs
  }

  /** The one transaction an event may commit. An event of another kind changes no document for anybody. */
  function Writer(e: Event): TxId {
    if e.Finish? then e.t else 0
  }

  ghost predicate Effect(reg: Registry, s: State, s2: State, t: TxId, id: Id) {
    || StaysAbsent(s, s2, id)
    || Untouched(s, s2, id)
    || DetachedBy(s, s2, t, id)
    || SavedBy(reg, s, s2, t, id)
    || PublishedBy(s, s2, t, id)
    || InsertedBy(reg, s, s2, t, id)
    || RemovedBy(reg, s, s2, t, id)
  }

  lemma {:induction false} CreateEffect(reg: Registry, s: State, t: TxId, newDoc: Id, newGroup: Id, id: Id)
    requires IdsUsed(s.db) && t in s.txs && s.txs[t].op.Create? && OpOk(reg, s.txs[t].op)
    requires CommitCreate(reg, s, s.txs[t], newDoc, newGroup).Commit?
    ensures var c := CommitCreate(reg, s, s.txs[t], newDoc, newGroup);
            Effect(reg, s, Ended(s, t, c.db, c.outcome), t, id)
  {
    CreateShape(reg, s, s.txs[t], newDoc, newGroup);
  }

  lemma {:induction false} UpdateSaved(reg: Registry, s: State, t: TxId, s2: State)
    requires Versioned(s.db) && t in s.txs && s.txs[t].op.Update? && LocksHold(s.db, s.txs[t])
    requires UpdateJudged(reg, s.txs[t]) && CommitUpdate(reg, s, s.txs[t]).Commit?
    requires s2.db == CommitUpdate(reg, s, s.txs[t]).db
    ensures SavedBy(reg, s, s2, t, s.txs[t].op.id)
  {
    var tx := s.txs[t];
    var id := tx.op.id;
    assert tx.held[id] == s.db.docs[id];
    var next := NextOf(reg, tx.op, s.db.docs[id]).value;
    assert s2.db.docs[id] == s.db.docs[id].(state := next, version := s.db.docs[id].version + 1, updatedAt := Millis(s.clock));
  }

  lemma {:induction false} UpdateEffect(reg: Registry, s: State, t: TxId, s2: State, id: Id)
    requires Versioned(s.db) && t in s.txs && s.txs[t].op.Update? && LocksHold(s.db, s.txs[t])
    requires UpdateJudged(reg, s.txs[t]) && CommitUpdate(reg, s, s.txs[t]).Commit?
    requires s2.db == CommitUpdate(reg, s, s.txs[t]).db
    ensures SavedBy(reg, s, s2, t, id) || Untouched(s, s2, id) || StaysAbsent(s, s2, id)
  {
    if id == s.txs[t].op.id {
      UpdateSaved(reg, s, t, s2);
    } else {
      UpdateShape(reg, s, s.txs[t]);
    }
  }

  lemma {:induction false} DeleteEffect(reg: Registry, s: State, t: TxId, id: Id)
    requires t in s.txs && s.txs[t].op.Delete? && LocksHold(s.db, s.txs[t]) && PcInv(reg, s.db, s.txs[t])
    requires CommitDelete(s, s.txs[t]).Commit?
    ensures var c := CommitDelete(s, s.txs[t]);
            Effect(reg, s, Ended(s, t, c.db, c.outcome), t, id)
  {
    DeleteShape(reg, s, s.txs[t]);
    RemoveFacts(reg, s.db, s.txs[t]);
  }

  lemma {:induction false} PublishEffect(reg: Registry, s: State, t: TxId, id: Id)
    requires Versioned(s.db) && t in s.txs && s.txs[t].op.PublishDue?
    requires LocksHold(s.db, s.txs[t]) && PcInv(reg, s.db, s.txs[t])
    requires CommitPublish(s, s.txs[t]).Commit?
    ensures var c := CommitPublish(s, s.txs[t]);
            Effect(reg, s, Ended(s, t, c.db, c.outcome), t, id)
  {
    ClaimFacts(reg, s.db, s.txs[t]);
  }

  lemma {:induction false} FinishEffect(reg: Registry, s: State, t: TxId, newDoc: Id, newGroup: Id, id: Id)
    requires IdsUsed(s.db) && Versioned(s.db) && t in s.txs && TxInv(reg, s.db, s.txs[t])
    requires CommitTx(reg, s, s.txs[t], newDoc, newGroup).Commit?
    ensures var c := CommitTx(reg, s, s.txs[t], newDoc, newGroup);
            Effect(reg, s, Ended(s, t, c.db, c.outcome), t, id)
  {
    var c := CommitTx(reg, s, s.txs[t], newDoc, newGroup);
    match s.txs[t].op {
      case Create(_, _, _, _, _, _) => CreateEffect(reg, s, t, newDoc, newGroup, id);
      case Update(_, _, _, _, _, _, _) =>
        WriteFacts(reg, s.db, s.txs[t]);
        UpdateEffect(reg, s, t, Ended(s, t, c.db, c.outcome), id);
      case Delete(_, _, _) => DeleteEffect(reg, s, t, id);
      case PublishDue(_) => PublishEffect(reg, s, t, id);
    }
  }

  lemma {:induction false} QuietEffect(reg: Registry, s: State, s2: State, t: TxId, id: Id)
    requires s2.db.docs == s.db.docs && s2.db.history == s.db.history
    ensures Effect(reg, s, s2, t, id)
  {
  }

  predicate Commits(reg: Registry, s: State, e: Event) {
    e.Finish? && e.t in s.txs && CommitTx(reg, s, s.txs[e.t], e.newDoc, e.newGroup).Commit?
  }

  lemma {:induction false} OnlyCommitsWrite(reg: Registry, s: State, e: Event)
    requires Apply(reg, s, e).Some?
    ensures var s2 := Apply(reg, s, e).value;
            if Commits(reg, s, e) then s2.db == CommitTx(reg, s, s.txs[e.t], e.newDoc, e.newGroup).db
            else s2.db.docs == s.db.docs && s2.db.history == s.db.history && s2.db.usedDocs == s.db.usedDocs
  {
  }

  /** The part of the invariant an effect depends on. */
  ghost predicate Ready(reg: Registry, s: State, e: Event) {
    IdsUsed(s.db) && Versioned(s.db) && (Commits(reg, s, e) ==> TxInv(reg, s.db, s.txs[e.t]))
  }

  lemma {:induction false} InvReady(reg: Registry, s: State, e: Event)
    requires Inv(reg, s)
    ensures Ready(reg, s, e)
  {
  }

  /**
   * The only things that can happen to a document in one event, each with the check that was
   * taken against the row as it was at that moment.
   */
  lemma {:induction false} EventEffect(reg: Registry, s: State, e: Event, id: Id)
    requires Ready(reg, s, e) && Apply(reg, s, e).Some?
    ensures Effect(reg, s, Apply(reg, s, e).value, Writer(e), id)
  {
    OnlyCommitsWrite(reg, s, e);
    var s2 := Apply(reg, s, e).value;
    if Commits(reg, s, e) {
      FinishEffect(reg, s, e.t, e.newDoc, e.newGroup, id);
    } else {
      QuietEffect(reg, s, s2, Writer(e), id);
    }
  }
}

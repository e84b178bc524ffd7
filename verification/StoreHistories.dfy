/** What must have happened before: each fact of a state traced back to the event behind it. */
module StoreHistories {
  import opened Prelude
  import opened ContentModel
  import opened Store
  import opened StoreInvariants
  import opened StoreEffects
  import opened StoreTheorems
  import StoreCommitProofs

  // ---------- Transactions ----------

  lemma {:induction false} OpKept(reg: Registry, s: State, e: Event, s2: State, t: TxId)
    requires Apply(reg, s, e) == Some(s2) && t in s2.txs
    ensures t in s.txs ==> s2.txs[t].op == s.txs[t].op
    ensures t !in s.txs ==> e == Begin(t, s2.txs[t].op) && MayBegin(reg, s.db, s2.txs[t].op)
                            && s2.txs[t].pc == FirstPc(s2.txs[t].op)
  {
  }

  /** A transaction in flight was begun, and its request was allowed to. */
  lemma {:induction false} BeganBefore(reg: Registry, run: seq<State>, events: seq<Event>, i: nat, t: TxId) returns (b: nat)
    requires IsRun(reg, run, events) && i < |run| && t in run[i].txs
    ensures b < i && events[b] == Begin(t, run[i].txs[t].op) && MayBegin(reg, run[b].db, run[i].txs[t].op)
    decreases i
  {
    assert i > 0;
    assert Apply(reg, run[i - 1], events[i - 1]) == Some(run[i - 1 + 1]);
    OpKept(reg, run[i - 1], events[i - 1], run[i], t);
    if t in run[i - 1].txs {
      b := BeganBefore(reg, run, events, i - 1, t);
    } else {
      b := i - 1;
    }
  }

  ghost predicate IsOver(s: State, t: TxId) {
    t in s.outcomes && t !in s.txs
  }

  lemma {:induction false} OverOnce(reg: Registry, s: State, e: Event, s2: State, t: TxId)
    requires Apply(reg, s, e) == Some(s2)
    ensures IsOver(s, t) ==> IsOver(s2, t)
    ensures t in s.txs && t !in s2.txs ==> IsOver(s2, t)
  {
  }

  lemma {:induction false} StaysOver(reg: Registry, run: seq<State>, events: seq<Event>, i: nat, j: nat, t: TxId)
    requires IsRun(reg, run, events) && i <= j < |run| && (t in run[i].txs || IsOver(run[i], t))
    ensures t in run[j].txs || IsOver(run[j], t)
    ensures IsOver(run[i], t) ==> IsOver(run[j], t)
    decreases j - i
  {
    if i < j {
      StaysOver(reg, run, events, i, j - 1, t);
      assert Apply(reg, run[j - 1], events[j - 1]) == Some(run[j - 1 + 1]);
      OverOnce(reg, run[j - 1], events[j - 1], run[j], t);
    }
  }

  /** A transaction is in flight without interruption, with one request. */
  lemma {:induction false} OpenBetween(reg: Registry, run: seq<State>, events: seq<Event>, i: nat, m: nat, j: nat, t: TxId)
    requires IsRun(reg, run, events) && i <= m <= j < |run| && t in run[i].txs && t in run[j].txs
    ensures t in run[m].txs && run[m].txs[t].op == run[i].txs[t].op
    decreases m - i
  {
    StaysOver(reg, run, events, i, m, t);
    StaysOver(reg, run, events, m, j, t);
    if i < m {
      OpenBetween(reg, run, events, i, m - 1, j, t);
      assert Apply(reg, run[m - 1], events[m - 1]) == Some(run[m - 1 + 1]);
      OpKept(reg, run[m - 1], events[m - 1], run[m], t);
    }
  }

  // ---------- Joining ----------

  predicate PastJudging(pc: Pc) {
    pc.CreateWalk? || pc.CreateInsert?
  }

  /** `t` judges the members of its group at this event, and may join it. */
  ghost predicate Judges(reg: Registry, s: State, e: Event, t: TxId, op: Op)
    requires op.Create? && op.join.Some? && op.kind in reg
  {
    && e.Advance? && e.t == t && t in s.txs && s.txs[t].op == op && s.txs[t].pc == CreateJudge
    && MayJoin(reg, op, s.db.docs, op.join.value)
  }

  lemma {:induction false} JudgeStep(reg: Registry, s: State, e: Event, s2: State, t: TxId)
    requires Apply(reg, s, e) == Some(s2) && t in s2.txs && PastJudging(s2.txs[t].pc)
    requires s2.txs[t].op.Create? && s2.txs[t].op.join.Some? && s2.txs[t].op.kind in reg
    ensures t in s.txs && s.txs[t].op == s2.txs[t].op
    ensures if PastJudging(s.txs[t].pc) then s2.txs[t].members == s.txs[t].members
            else Judges(reg, s, e, t, s2.txs[t].op) && s2.txs[t].members == Members(s.db.docs, s2.txs[t].op.join.value)
  {
    OpKept(reg, s, e, s2, t);
  }

  lemma {:induction false} JudgedBefore(reg: Registry, run: seq<State>, events: seq<Event>, i: nat, t: TxId) returns (k: nat)
    requires IsRun(reg, run, events) && i < |run| && t in run[i].txs && PastJudging(run[i].txs[t].pc)
    requires run[i].txs[t].op.Create? && run[i].txs[t].op.join.Some? && run[i].txs[t].op.kind in reg
    ensures k < i && Judges(reg, run[k], events[k], t, run[i].txs[t].op)
    ensures run[i].txs[t].members == Members(run[k].db.docs, run[i].txs[t].op.join.value)
    decreases i
  {
    assert i > 0;
    assert Apply(reg, run[i - 1], events[i - 1]) == Some(run[i - 1 + 1]);
    JudgeStep(reg, run[i - 1], events[i - 1], run[i], t);
    if PastJudging(run[i - 1].txs[t].pc) {
      k := JudgedBefore(reg, run, events, i - 1, t);
    } else {
      k := i - 1;
    }
  }

  lemma {:induction false} InsertFactsAt(reg: Registry, run: seq<State>, events: seq<Event>, i: nat, t: TxId)
    requires IsRun(reg, run, events) && i < |run| && t in run[i].txs
    requires run[i].txs[t].op.Create? && run[i].txs[t].op.join.Some? && run[i].txs[t].pc == CreateInsert
    ensures run[i].txs[t].op.kind in reg && run[i].txs[t].op.join.value in run[i].db.groups
    ensures run[i].txs[t].members == Members(run[i].db.docs, run[i].txs[t].op.join.value)
  {
    RunInv(reg, run, events, i);
    assert TxInv(reg, run[i].db, run[i].txs[t]);
    StoreCommitProofs.InsertFacts(reg, run[i].db, run[i].txs[t]);
  }

  /**
   * When a joining document is about to be inserted, there was a step at which its author was
   * allowed to join, and the group has exactly the members it had at that step.
   */
  lemma {:induction false} JoinSeesFinalMembers(reg: Registry, run: seq<State>, events: seq<Event>, i: nat, t: TxId) returns (k: nat)
    requires IsRun(reg, run, events) && i < |run| && t in run[i].txs
    requires run[i].txs[t].op.Create? && run[i].txs[t].op.join.Some? && run[i].txs[t].pc == CreateInsert
    ensures var op := run[i].txs[t].op;
            && op.kind in reg && op.join.value in run[i].db.groups
            && k < i && Judges(reg, run[k], events[k], t, op)
            && Members(run[i].db.docs, op.join.value) == Members(run[k].db.docs, op.join.value)
  {
    InsertFactsAt(reg, run, events, i, t);
    k := JudgedBefore(reg, run, events, i, t);
  }

  // ---------- Publishing ----------

  /** `v` is in the pass and not claimed yet. */
  ghost predicate Pending(s: State, t: TxId, now: int, v: Id) {
    && t in s.txs && s.txs[t].op == PublishDue(now) && s.txs[t].pc.PublishClaim?
    && v in s.txs[t].pc.todo && v !in s.txs[t].held
  }

  /** The pass has dealt with `v`: it holds the row, or it does not. */
  ghost predicate Settled(s: State, t: TxId, now: int, v: Id, claimed: bool) {
    && t in s.txs && s.txs[t].op == PublishDue(now) && s.txs[t].pc.PublishClaim?
    && v !in s.txs[t].pc.todo && (v in s.txs[t].held <==> claimed)
  }

  ghost predicate DueIn(s: State, now: int, v: Id) {
    v in s.db.docs && IsDue(s.db.docs[v], now)
  }

  lemma {:induction false} ClaimEvent(reg: Registry, s: State, e: Event, s2: State, t: TxId, now: int, v: Id)
    requires Apply(reg, s, e) == Some(s2) && t in s2.txs
    ensures Pending(s, t, now, v) ==>
              Pending(s2, t, now, v) || (e == Advance(t, v) && Settled(s2, t, now, v, DueIn(s, now, v)))
    ensures forall claimed :: Settled(s, t, now, v, claimed) ==> Settled(s2, t, now, v, claimed)
  {
  }

  lemma {:induction false} ScanEvent(reg: Registry, s: State, e: Event, s2: State, t: TxId, now: int, v: Id)
    requires Apply(reg, s, e) == Some(s2) && e.Advance? && e.t == t && t in s.txs && s.txs[t].op == PublishDue(now)
    requires s.txs[t].pc.PublishScan? && s.txs[t].held == map[] && DueIn(s, now, v)
    ensures Pending(s2, t, now, v)
  {
  }

  /** Waiting, or settled at an event `k` by what the row was then. */
  lemma {:induction false} ClaimedBy(reg: Registry, run: seq<State>, events: seq<Event>, i: nat, m: nat, j: nat,
                                     t: TxId, now: int, v: Id) returns (k: Option<nat>)
    requires IsRun(reg, run, events) && i <= m <= j < |run| && Pending(run[i], t, now, v) && t in run[j].txs
    ensures k.None? ==> Pending(run[m], t, now, v)
    ensures k.Some? ==> i <= k.value < m && events[k.value] == Advance(t, v)
                        && Settled(run[m], t, now, v, DueIn(run[k.value], now, v))
    decreases m - i
  {
    if i == m {
      k := None;
    } else {
      k := ClaimedBy(reg, run, events, i, m - 1, j, t, now, v);
      OpenBetween(reg, run, events, i, m, j, t);
      assert Apply(reg, run[m - 1], events[m - 1]) == Some(run[m - 1 + 1]);
      ClaimEvent(reg, run[m - 1], events[m - 1], run[m], t, now, v);
      if k.None? && !Pending(run[m], t, now, v) {
        k := Some(m - 1);
      }
    }
  }

  lemma {:induction false} ScanHoldsNothing(reg: Registry, run: seq<State>, events: seq<Event>, i: nat, t: TxId)
    requires IsRun(reg, run, events) && i < |run| && t in run[i].txs && run[i].txs[t].pc.PublishScan?
    ensures run[i].txs[t].held == map[]
  {
    RunInv(reg, run, events, i);
    ScanFacts(reg, run[i].db, run[i].txs[t]);
  }

  lemma {:induction false} ScanFacts(reg: Registry, db: Db, tx: Tx)
    requires PcInv(reg, db, tx) && tx.pc.PublishScan?
    ensures tx.held == map[]
  {
  }

  /**
   * A pass gets round to every row that was due when it scanned, however long it has to wait
   * for the row's lock, and publishes it exactly if the row is still due at that moment.
   */
  lemma {:induction false} PassMissesNothing(reg: Registry, run: seq<State>, events: seq<Event>, i: nat, j: nat,
                                             t: TxId, now: int, v: Id) returns (k: nat)
    requires IsRun(reg, run, events) && i < j < |events| && DueIn(run[i], now, v)
    requires t in run[i].txs && run[i].txs[t].op == PublishDue(now) && run[i].txs[t].pc.PublishScan?
    requires events[i].Advance? && events[i].t == t
    requires events[j].Finish? && events[j].t == t && Commits(reg, run[j], events[j])
    ensures i < k < j && events[k] == Advance(t, v)
    ensures PublishedBy(run[j], run[j + 1], t, v) <==> DueIn(run[k], now, v)
  {
    ScanHoldsNothing(reg, run, events, i, t);
    assert Apply(reg, run[i], events[i]) == Some(run[i + 1]);
    ScanEvent(reg, run[i], events[i], run[i + 1], t, now, v);
    OpenBetween(reg, run, events, i, i + 1, j, t);
    OpenBetween(reg, run, events, i, j, j, t);
    CommitsWhenClaimed(reg, run[j], events[j]);
    var claim := ClaimedBy(reg, run, events, i + 1, j, j, t, now, v);
    k := claim.value;
    if v in run[j].txs[t].held {
      PassAt(reg, run, events, j, v);
    }
  }

  // ---------- Revisions ----------

  lemma {:induction false} RevisionStep(reg: Registry, s: State, s2: State, t: TxId, id: Id, r: Revision)
    requires Effect(reg, s, s2, t, id) && id in s2.db.docs && r in HistoryOf(s2.db, id)
    ensures id in s.db.docs
    ensures r in HistoryOf(s.db, id) || r == RevisionOf(s.db.docs[id], r.createdAt)
  {
  }

  lemma {:induction false} RecordedNow(reg: Registry, run: seq<State>, events: seq<Event>, i: nat, id: Id, r: Revision)
    requires IsRun(reg, run, events) && i < |events| && id in run[i + 1].db.docs && r in HistoryOf(run[i + 1].db, id)
    ensures id in run[i].db.docs
    ensures r in HistoryOf(run[i].db, id) || r == RevisionOf(run[i].db.docs[id], r.createdAt)
  {
    StepEffect(reg, run, events, i, id);
    RevisionStep(reg, run[i], run[i + 1], Writer(events[i]), id, r);
  }

  /** Every revision kept is the document as it really was, at an earlier state of the run. */
  lemma {:induction false} RevisionsAreReal(reg: Registry, run: seq<State>, events: seq<Event>, i: nat, id: Id, r: Revision)
      returns (k: nat)
    requires IsRun(reg, run, events) && i < |run| && id in run[i].db.docs && r in HistoryOf(run[i].db, id)
    ensures k < i && id in run[k].db.docs && r == RevisionOf(run[k].db.docs[id], r.createdAt)
    decreases i
  {
    assert i > 0;
    RecordedNow(reg, run, events, i - 1, id, r);
    if r in HistoryOf(run[i - 1].db, id) {
      k := RevisionsAreReal(reg, run, events, i - 1, id, r);
    } else {
      k := i - 1;
    }
  }

  lemma {:induction false} HistoryOfLive(reg: Registry, run: seq<State>, events: seq<Event>, i: nat, id: Id)
    requires IsRun(reg, run, events) && i < |run| && id in run[i].db.history
    ensures id in run[i].db.docs
  {
    RunInv(reg, run, events, i);
    assert Versioned(run[i].db);
  }

  /** A restore that commits puts the document back as it was at an earlier state of the run. */
  lemma {:induction false} RestoreReturnsToRealState(reg: Registry, run: seq<State>, events: seq<Event>, i: nat) returns (k: nat)
    requires IsRun(reg, run, events) && i < |events| && Commits(reg, run[i], events[i])
    requires run[i].txs[events[i].t].op.Update? && run[i].txs[events[i].t].op.isRestore
    ensures var op := run[i].txs[events[i].t].op;
            && k < i && op.id in run[k].db.docs && op.id in run[i + 1].db.docs && op.kind in reg
            && run[i + 1].db.docs[op.id].state == Kept(reg[op.kind], run[k].db.docs[op.id].state)
  {
    var t := events[i].t;
    var op := run[i].txs[t].op;
    NoLostUpdate(reg, run, events, i);
    var b := BeganBefore(reg, run, events, i, t);
    var r :| r in run[b].db.history[op.id] && op.patch == StateOfRevision(r);
    HistoryOfLive(reg, run, events, b, op.id);
    k := RevisionsAreReal(reg, run, events, b, op.id, r);
    RestoreIsExact(reg[op.kind], run[i].db.docs[op.id].state, r, op.now);
  }

  lemma {:induction false} RowsAreWellFormed(reg: Registry, run: seq<State>, events: seq<Event>, i: nat, id: Id)
    requires IsRun(reg, run, events) && i < |run| && id in run[i].db.docs
    ensures id in run[i].db.usedDocs && run[i].db.docs[id].kind in reg
    ensures FollowsRules(reg[run[i].db.docs[id].kind], run[i].db.docs[id].state)
  {
    RunInv(reg, run, events, i);
  }

  ghost predicate KindSince(run: seq<State>, i: nat, m: nat, id: Id)
    requires i < |run| && m < |run|
  {
    && id in run[m].db.usedDocs
    && (id in run[m].db.docs ==> id in run[i].db.docs && run[m].db.docs[id].kind == run[i].db.docs[id].kind)
  }

  lemma {:induction false} KindKept(reg: Registry, s: State, s2: State, t: TxId, id: Id)
    requires Effect(reg, s, s2, t, id) && id in s.db.usedDocs && id in s2.db.docs
    ensures id in s.db.docs && s2.db.docs[id].kind == s.db.docs[id].kind
  {
  }

  lemma {:induction false} KindSinceStep(reg: Registry, run: seq<State>, events: seq<Event>, i: nat, m: nat, id: Id)
    requires IsRun(reg, run, events) && i <= m < |events| && KindSince(run, i, m, id)
    ensures KindSince(run, i, m + 1, id)
  {
    StepNeverBack(reg, run, events, m, id);
    if id in run[m + 1].db.docs {
      StepEffect(reg, run, events, m, id);
      KindKept(reg, run[m], run[m + 1], Writer(events[m]), id);
    }
  }

  lemma {:induction false} KindStays(reg: Registry, run: seq<State>, events: seq<Event>, i: nat, m: nat, id: Id)
    requires IsRun(reg, run, events) && i <= m < |run| && id in run[i].db.docs && id in run[i].db.usedDocs
    ensures KindSince(run, i, m, id)
    decreases m
  {
    if i < m {
      KindStays(reg, run, events, i, m - 1, id);
      KindSinceStep(reg, run, events, i, m - 1, id);
    }
  }

  /**
   * Every save, restore and publication can be undone: restoring the revision it recorded,
   * whenever that commits and whatever has happened to the document since, brings back the
   * state it replaced.
   */
  lemma {:induction false} EveryWriteIsUndoable(reg: Registry, run: seq<State>, events: seq<Event>, i: nat, j: nat, id: Id)
    requires IsRun(reg, run, events) && i < j < |events|
    requires SavedBy(reg, run[i], run[i + 1], Writer(events[i]), id) || PublishedBy(run[i], run[i + 1], Writer(events[i]), id)
    requires Commits(reg, run[j], events[j])
    requires var undo := run[j].txs[events[j].t].op;
             && undo.Update? && undo.isRestore && undo.id == id
             && undo.patch == StateOfRevision(RevisionOf(run[i].db.docs[id], run[i].txs[Writer(events[i])].startedAt))
    ensures id in run[j + 1].db.docs && run[j + 1].db.docs[id].state == run[i].db.docs[id].state
  {
    var undo := run[j].txs[events[j].t].op;
    var r := RevisionOf(run[i].db.docs[id], run[i].txs[Writer(events[i])].startedAt);
    NoLostUpdate(reg, run, events, j);
    RowsAreWellFormed(reg, run, events, i, id);
    KindStays(reg, run, events, i, j, id);
    RestoreIsExact(reg[undo.kind], run[j].db.docs[id].state, r, undo.now);
  }
}

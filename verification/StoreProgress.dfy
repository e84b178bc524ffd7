/** What the machine can do: requests go through when they should, and opposite moves wait for ever. */
module StoreProgress {
  import opened Prelude
  import opened MediaReferences
  import opened Store
  import opened StoreEffects
  import opened StoreWalks

  function Began(s: State, t: TxId, op: Op): State {
    s.(txs := s.txs[t := FirstTx(s, op)])
  }

  function FirstTx(s: State, op: Op): Tx {
    Tx(op, FirstPc(op), s.clock, map[], None, {}, [], 0)
  }

  /** The machine moved by `t` alone, as far as it gets in `n` statements. */
  function Alone(reg: Registry, s: State, t: TxId, n: nat): State
    decreases n
  {
    if n == 0 then s
    else
      match Apply(reg, s, Advance(t, 0))
      case None => s
      case Some(s2) => Alone(reg, s2, t, n - 1)
  }

  lemma {:induction false} OwnLocksDoNotMatter(reg: Registry, s: State, t: TxId, mine: Tx, tx: Tx)
    ensures StepTx(reg, s.(txs := s.txs[t := mine]), t, tx, 0) == StepTx(reg, s, t, tx, 0)
  {
    var s2 := s.(txs := s.txs[t := mine]);
    assert forall u :: u != t ==> (u in s2.txs <==> u in s.txs);
    forall id
      ensures RowFree(s2, t, id) <==> RowFree(s, t, id)
      ensures GroupFree(s2, t, id) <==> GroupFree(s, t, id)
    {
      OwnLocksAt(s, s2, t, id);
    }
  }

  lemma {:induction false} OwnLocksAt(s: State, s2: State, t: TxId, id: Id)
    requires forall u :: u != t ==> (u in s2.txs <==> u in s.txs) && (u in s.txs ==> s2.txs[u] == s.txs[u])
    ensures RowFree(s2, t, id) <==> RowFree(s, t, id)
    ensures GroupFree(s2, t, id) <==> GroupFree(s, t, id)
  {
    if RowFree(s, t, id) {
      assert forall u :: u in s2.txs && u != t ==> u in s.txs && id !in s.txs[u].held;
    }
    if RowFree(s2, t, id) {
      assert forall u :: u in s.txs && u != t ==> u in s2.txs && id !in s2.txs[u].held;
    }
    if GroupFree(s, t, id) {
      assert forall u :: u in s2.txs && u != t ==> u in s.txs && s.txs[u].group != Some(id);
    }
    if GroupFree(s2, t, id) {
      assert forall u :: u in s.txs && u != t ==> u in s2.txs && s2.txs[u].group != Some(id);
    }
  }

  lemma {:induction false} AloneIsSolo(reg: Registry, s: State, t: TxId, tx: Tx, n: nat)
    ensures var s2, end := Alone(reg, s.(txs := s.txs[t := tx]), t, n), Solo(reg, s, t, tx, n);
            if end.Some? then s2 == s.(txs := s.txs[t := end.value]) else t !in s2.txs
    decreases n
  {
    var s0 := s.(txs := s.txs[t := tx]);
    if n > 0 {
      OwnLocksDoNotMatter(reg, s, t, tx, tx);
      match StepTx(reg, s, t, tx, 0) {
        case Blocked =>
        case Goto(tx2) =>
          assert s0.(txs := s0.txs[t := tx2]) == s.(txs := s.txs[t := tx2]);
          AloneIsSolo(reg, s, t, tx2, n - 1);
        case Stop(outcome) =>
          NothingLeft(reg, Ended(s0, t, s0.db, outcome), t, n - 1);
      }
    }
  }

  lemma {:induction false} NothingLeft(reg: Registry, s: State, t: TxId, n: nat)
    requires t !in s.txs
    ensures Alone(reg, s, t, n) == s
  {
  }

  // ---------- Saves ----------

  /** What a save is judged by when it locks its row. */
  ghost predicate LockPasses(reg: Registry, op: Op, row: Row)
    requires op.Update? && op.kind in reg
  {
    && (op.expected.Some? ==> op.expected.value == row.version)
    && NextOf(reg, op, row).Some? && MayUpdate(reg, op, row, NextOf(reg, op, row).value)
  }

  /** Everything a save is checked for: its row, its new place if it moves, its slug and its assets. */
  ghost predicate SaveIsDue(reg: Registry, s: State, op: Op)
    requires op.Update? && op.kind in reg && op.id in s.db.docs
  {
    var row := s.db.docs[op.id];
    && LockPasses(reg, op, row)
    && var next := NextOf(reg, op, row).value;
       && (Moves(next, row) ==> MayHang(s.db.docs, Some(op.id), next.parent.value, row.kind, row.locale))
       && WriteIsDue(reg, s.db, op, row)
  }

  ghost predicate WriteIsDue(reg: Registry, db: Db, op: Op, row: Row)
    requires op.Update? && op.kind in reg && NextOf(reg, op, row).Some?
  {
    var next := NextOf(reg, op, row).value;
    && SlugIsFree(db.docs, op.id, row.kind, row.locale, next.slug)
    && AddedMediaExist(db, op.id, Uses(reg[op.kind], next.blocks, next.meta))
  }

  /** The row a save locks, with nobody holding it. */
  lemma {:induction false} LockStep(reg: Registry, s: State, t: TxId, op: Op, n: nat)
    requires op.Update? && op.kind in reg && op.id in s.db.docs && RowFree(s, t, op.id) && n > 0
    ensures var row := s.db.docs[op.id];
            var end := Solo(reg, s, t, FirstTx(s, op), n);
            if !LockPasses(reg, op, row) then end.None?
            else
              var next := NextOf(reg, op, row).value;
              var pc := if Moves(next, row) then UpdateWalk(next.parent.value) else UpdateWrite;
              end == Solo(reg, s, t, FirstTx(s, op).(held := map[op.id := row], pc := pc), n - 1)
  {
  }

  lemma {:induction false} WriteStep(reg: Registry, s: State, t: TxId, tx: Tx)
    requires t in s.txs && s.txs[t] == tx && tx.op.Update? && tx.op.kind in reg && tx.pc == UpdateWrite
    requires tx.op.id in tx.held && NextOf(reg, tx.op, tx.held[tx.op.id]).Some?
    ensures Commits(reg, s, Finish(t, 0, 0)) <==> WriteIsDue(reg, s.db, tx.op, tx.held[tx.op.id])
  {
  }

  /** Where a save ends that nobody is in the way of. */
  lemma {:induction false} SaveEnds(reg: Registry, s: State, t: TxId, op: Op)
    requires op.Update? && op.kind in reg && op.id in s.db.docs && RowFree(s, t, op.id)
    requires var next := NextOf(reg, op, s.db.docs[op.id]);
             next.Some? && Moves(next.value, s.db.docs[op.id]) ==> Uncontended(s, t)
    ensures var row := s.db.docs[op.id];
            var end := Solo(reg, s, t, FirstTx(s, op), 14);
            && (end.Some? <==>
                  && LockPasses(reg, op, row)
                  && var next := NextOf(reg, op, row).value;
                     Moves(next, row) ==> MayHang(s.db.docs, Some(op.id), next.parent.value, row.kind, row.locale))
            && (end.Some? ==> end.value.pc == UpdateWrite && end.value.op == op
                              && op.id in end.value.held && end.value.held[op.id] == row)
  {
    var row := s.db.docs[op.id];
    LockStep(reg, s, t, op, 14);
    if LockPasses(reg, op, row) {
      var next := NextOf(reg, op, row).value;
      if Moves(next, row) {
        MoveWalksOn(reg, s, t, FirstTx(s, op).(held := map[op.id := row], pc := UpdateWalk(next.parent.value)), 13);
        UsableIsAWayUp(s.db.docs, Some(op.id), next.parent.value, row.kind, row.locale);
        ParentIsThere(s, op.id, next.parent.value);
      } else {
        StaysPut(reg, s, t, FirstTx(s, op).(held := map[op.id := row], pc := UpdateWrite), 13);
      }
    }
  }

  /** A parent that is not there leads nowhere. */
  lemma {:induction false} ParentIsThere(s: State, id: Id, parent: Id)
    requires id in s.db.docs
    ensures LeadsOn(Par(s.db.docs), Some(id), [], Some(parent)) ==> parent in s.db.docs
  {
    if parent !in s.db.docs {
      NoWayThrough(Par(s.db.docs), Some(id), [], parent);
    }
  }

  /**
   * A save commits, with nobody in its way, if and only if it passes every check; for one that
   * moves the document, that includes exactly what makes a parent usable.
   */
  lemma {:induction false} SaveCommitsIff(reg: Registry, s: State, t: TxId, op: Op)
    requires op.Update? && MayBegin(reg, s.db, op) && t !in s.txs && t !in s.outcomes
    requires op.id in s.db.docs && RowFree(s, t, op.id)
    requires var next := NextOf(reg, op, s.db.docs[op.id]);
             next.Some? && Moves(next.value, s.db.docs[op.id]) ==> Uncontended(s, t)
    ensures Apply(reg, s, Begin(t, op)) == Some(Began(s, t, op))
    ensures Commits(reg, Alone(reg, Began(s, t, op), t, 14), Finish(t, 0, 0)) <==> SaveIsDue(reg, s, op)
  {
    SaveEnds(reg, s, t, op);
    AloneIsSolo(reg, s, t, FirstTx(s, op), 14);
    var end := Solo(reg, s, t, FirstTx(s, op), 14);
    if end.Some? {
      WriteStep(reg, s.(txs := s.txs[t := end.value]), t, end.value);
    }
  }

  // ---------- Creates ----------

  ghost predicate JoinPasses(reg: Registry, s: State, op: Op)
    requires op.Create? && op.kind in reg && op.join.Some?
  {
    var g := op.join.value;
    && g in s.db.groups && s.db.groups[g] == op.kind && MayJoin(reg, op, s.db.docs, g)
    && forall m :: m in Members(s.db.docs, g) ==> s.db.docs[m].locale != op.locale
  }

  ghost predicate HangsWell(s: State, op: Op)
    requires op.Create?
  {
    op.state.parent.Some? ==> MayHang(s.db.docs, None, op.state.parent.value, op.kind, op.locale)
  }

  /** Everything a create is checked for: the group it joins, its place, its slug and its assets. */
  ghost predicate CreateIsDue(reg: Registry, s: State, op: Op, newDoc: Id)
    requires op.Create? && op.kind in reg
  {
    && (op.join.Some? ==> JoinPasses(reg, s, op))
    && HangsWell(s, op)
    && InsertIsDue(reg, s.db, op, newDoc)
  }

  ghost predicate InsertIsDue(reg: Registry, db: Db, op: Op, newDoc: Id)
    requires op.Create? && op.kind in reg
  {
    var state := InsertedState(op);
    && SlugIsFree(db.docs, newDoc, op.kind, op.locale, state.slug)
    && AddedMediaExist(db, newDoc, Uses(reg[op.kind], state.blocks, state.meta))
  }

  /** Where a create stands that has been let into its group. */
  ghost function JoinedTx(s: State, op: Op): Tx
    requires op.Create? && op.join.Some?
  {
    FirstTx(s, op).(group := op.join, members := Members(s.db.docs, op.join.value), pc := AfterJoin(op))
  }

  lemma {:induction false} JoinSteps(reg: Registry, s: State, t: TxId, op: Op, n: nat)
    requires op.Create? && op.kind in reg && op.join.Some? && Uncontended(s, t) && n >= 2
    ensures var end := Solo(reg, s, t, FirstTx(s, op), n);
            if JoinPasses(reg, s, op) then end == Solo(reg, s, t, JoinedTx(s, op), n - 2) else end.None?
  {
    assert GroupFree(s, t, op.join.value);
    var judging := FirstTx(s, op).(group := op.join, pc := CreateJudge);
    if op.join.value in s.db.groups && s.db.groups[op.join.value] == op.kind {
      assert Solo(reg, s, t, FirstTx(s, op), n) == Solo(reg, s, t, judging, n - 1);
    }
  }

  lemma {:induction false} PlaceSteps(reg: Registry, s: State, t: TxId, tx: Tx, n: nat)
    requires tx.op.Create? && tx.op.kind in reg && Uncontended(s, t) && tx.pc == AfterJoin(tx.op) && tx.path == [] && n >= 12
    ensures var op, end := tx.op, Solo(reg, s, t, tx, n);
            && (end.Some? <==> HangsWell(s, op))
            && (end.Some? ==> end.value.pc == CreateInsert && end.value.op == op)
  {
    var op := tx.op;
    if op.state.parent.Some? {
      var parent := op.state.parent.value;
      CreateWalksOn(reg, s, t, tx, n);
      UsableIsAWayUp(s.db.docs, None, parent, op.kind, op.locale);
      if parent !in s.db.docs {
        NoWayThrough(Par(s.db.docs), None, [], parent);
      }
    } else {
      StaysPut(reg, s, t, tx, n);
    }
  }

  lemma {:induction false} InsertStep(reg: Registry, s: State, t: TxId, tx: Tx, newDoc: Id, newGroup: Id)
    requires t in s.txs && s.txs[t] == tx && tx.op.Create? && tx.op.kind in reg && tx.pc == CreateInsert
    requires newDoc !in s.db.usedDocs && newGroup !in s.db.usedGroups
    ensures Commits(reg, s, Finish(t, newDoc, newGroup)) <==> InsertIsDue(reg, s.db, tx.op, newDoc)
  {
  }

  lemma {:induction false} JoinEnds(reg: Registry, s: State, t: TxId, op: Op, n: nat)
    requires op.Create? && op.kind in reg && op.join.Some? && Uncontended(s, t) && n >= 14
    ensures var end := Solo(reg, s, t, FirstTx(s, op), n);
            && (end.Some? <==> JoinPasses(reg, s, op) && HangsWell(s, op))
            && (end.Some? ==> end.value.pc == CreateInsert && end.value.op == op)
  {
    JoinSteps(reg, s, t, op, n);
    if JoinPasses(reg, s, op) {
      PlaceSteps(reg, s, t, JoinedTx(s, op), n - 2);
    }
  }

  lemma {:induction false} CreateEnds(reg: Registry, s: State, t: TxId, op: Op, n: nat)
    requires op.Create? && op.kind in reg && Uncontended(s, t) && n >= 14
    ensures var end := Solo(reg, s, t, FirstTx(s, op), n);
            && (end.Some? <==> (op.join.Some? ==> JoinPasses(reg, s, op)) && HangsWell(s, op))
            && (end.Some? ==> end.value.pc == CreateInsert && end.value.op == op)
  {
    if op.join.Some? {
      JoinEnds(reg, s, t, op, n);
    } else {
      PlaceSteps(reg, s, t, FirstTx(s, op), n);
    }
  }

  /** A create commits, with nobody in its way, if and only if it passes every check. */
  lemma {:induction false} CreateCommitsIff(reg: Registry, s: State, t: TxId, op: Op, newDoc: Id, newGroup: Id)
    requires op.Create? && MayBegin(reg, s.db, op) && t !in s.txs && t !in s.outcomes && Uncontended(s, t)
    requires newDoc !in s.db.usedDocs && newGroup !in s.db.usedGroups
    ensures Apply(reg, s, Begin(t, op)) == Some(Began(s, t, op))
    ensures Commits(reg, Alone(reg, Began(s, t, op), t, 14), Finish(t, newDoc, newGroup)) <==> CreateIsDue(reg, s, op, newDoc)
  {
    CreateEnds(reg, s, t, op, 14);
    AloneIsSolo(reg, s, t, FirstTx(s, op), 14);
    var end := Solo(reg, s, t, FirstTx(s, op), 14);
    if end.Some? {
      InsertStep(reg, s.(txs := s.txs[t := end.value]), t, end.value, newDoc, newGroup);
    }
  }

  // ---------- Waiting ----------

  /** Each of two saves has locked its own document and is about to lock the other's. */
  ghost predicate HeldCrosswise(s: State, t: TxId, u: TxId) {
    && t in s.txs && u in s.txs && s.txs[t].op.Update? && s.txs[u].op.Update?
    && s.txs[t].op.id != s.txs[u].op.id && s.txs[t].op.id in s.db.docs && s.txs[u].op.id in s.db.docs
    && s.txs[t].op.id in s.txs[t].held && s.txs[t].pc == UpdateWalk(s.txs[u].op.id) && s.txs[t].path == []
    && s.txs[u].op.id in s.txs[u].held && s.txs[u].pc == UpdateWalk(s.txs[t].op.id) && s.txs[u].path == []
  }

  /**
   * Two documents being hung under one another: each save has locked its own row and asks for
   * the other's. Neither can take another step, so one of them has to be aborted.
   */
  lemma {:induction false} OppositeMovesOnlyAbort(reg: Registry, s: State, t: TxId, u: TxId, e: Event)
    requires HeldCrosswise(s, t, u)
    requires Apply(reg, s, e).Some?
    ensures var s2 := Apply(reg, s, e).value;
            && ((t !in s2.txs || s2.txs[t] != s.txs[t]) ==> e == Abort(t))
            && ((u !in s2.txs || s2.txs[u] != s.txs[u]) ==> e == Abort(u))
  {
    WaitsForOther(reg, s, t, u, e);
    WaitsForOther(reg, s, u, t, e);
  }

  lemma {:induction false} WaitsForOther(reg: Registry, s: State, t: TxId, u: TxId, e: Event)
    requires t in s.txs && u in s.txs && t != u && s.txs[t].op.Update?
    requires s.txs[t].pc.UpdateWalk? && s.txs[t].path == [] && s.txs[t].pc.cursor in s.db.docs
    requires s.txs[t].op.id != s.txs[t].pc.cursor && s.txs[t].pc.cursor in s.txs[u].held
    requires Apply(reg, s, e).Some?
    ensures var s2 := Apply(reg, s, e).value;
            (t !in s2.txs || s2.txs[t] != s.txs[t]) ==> e == Abort(t)
  {
    assert !RowFree(s, t, s.txs[t].pc.cursor);
  }
}

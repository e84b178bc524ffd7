/**
 * What every committed state satisfies, what every transaction in flight may rely on, and why
 * no other transaction's commit can take it away.
 */
module StoreInvariants {
  import opened Prelude
  import opened Access
  import opened ContentModel
  import opened Forest
  import opened MediaReferences
  import opened Store
  import Revisions

  // ---------- The committed tables ----------

  /** The page tree: a forest of bounded depth whose parents share their child's type and locale. */
  ghost predicate Placed(docs: map<Id, Row>) {
    && IsForest(Par(docs))
    && (forall id :: id in docs && docs[id].state.parent.Some? ==>
          var up := docs[id].state.parent.value;
          up in docs && docs[up].kind == docs[id].kind && docs[up].locale == docs[id].locale)
  }

  ghost predicate GroupsTyped(docs: map<Id, Row>, groups: map<Id, string>) {
    forall id :: id in docs ==> docs[id].group in groups && groups[docs[id].group] == docs[id].kind
  }

  ghost predicate NoEmptyGroup(docs: map<Id, Row>, groups: map<Id, string>) {
    forall g :: g in groups ==> Members(docs, g) != {}
  }

  ghost predicate OnePerLanguage(docs: map<Id, Row>) {
    forall a, b :: a in docs && b in docs && a != b && docs[a].group == docs[b].group ==>
      docs[a].locale != docs[b].locale
  }

  /** Translation groups: no empty one, one type each, one document per language. */
  ghost predicate Grouped(docs: map<Id, Row>, groups: map<Id, string>) {
    GroupsTyped(docs, groups) && NoEmptyGroup(docs, groups) && OnePerLanguage(docs)
  }

  ghost predicate SlugsUnique(docs: map<Id, Row>) {
    forall a, b :: a in docs && b in docs && a != b && docs[a].kind == docs[b].kind && docs[a].locale == docs[b].locale ==>
      docs[a].state.slug != docs[b].state.slug
  }

  /** The two rules that span fields: a schedule has a date, and only a hierarchical type nests. */
  predicate FollowsRules(t: ContentType, s: DocState) {
    && (s.status == Scheduled ==> s.publishedAt.Some?)
    && (!t.hierarchical ==> s.parent.None?)
  }

  ghost predicate RowsFollowRules(reg: Registry, docs: map<Id, Row>) {
    forall id :: id in docs ==> docs[id].kind in reg && FollowsRules(reg[docs[id].kind], docs[id].state)
  }

  /** The mirror holds exactly what the documents name, and every asset named is there. */
  ghost predicate Mirrored(reg: Registry, db: Db) {
    && (forall m :: m in db.mirror <==>
          m.content in db.docs && db.docs[m.content].kind in reg &&
          m.use in Uses(reg[db.docs[m.content].kind], db.docs[m.content].state.blocks, db.docs[m.content].state.meta))
    && (forall m :: m in db.mirror ==> m.use.media in db.media)
  }

  ghost predicate HistoryOk(row: Row, h: set<Revision>) {
    && row.version >= 1
    && |h| <= Revisions.REVISION_LIMIT
    && Revisions.DistinctVersions(h)
    && (forall r :: r in h ==> r.version < row.version)
  }

  ghost predicate Versioned(db: Db) {
    && db.history.Keys == db.docs.Keys
    && (forall id :: id in db.docs ==> HistoryOk(db.docs[id], db.history[id]))
  }

  ghost predicate IdsUsed(db: Db) {
    db.docs.Keys <= db.usedDocs && db.groups.Keys <= db.usedGroups
  }

  ghost predicate DbInv(reg: Registry, db: Db) {
    && Placed(db.docs)
    && Grouped(db.docs, db.groups)
    && SlugsUnique(db.docs)
    && RowsFollowRules(reg, db.docs)
    && Mirrored(reg, db)
    && Versioned(db)
    && IdsUsed(db)
  }

  // ---------- What a transaction knows ----------

  /** The group it joins is locked, and still has exactly the members it was judged by. */
  ghost predicate Joined(db: Db, tx: Tx)
    requires tx.op.Create?
  {
    && tx.group == tx.op.join
    && (tx.op.join.Some? ==>
          var g := tx.op.join.value;
          && g in db.groups && db.groups[g] == tx.op.kind
          && tx.members == Members(db.docs, g)
          && (forall m :: m in tx.members ==> db.docs[m].locale != tx.op.locale))
  }

  /** The rows the walk has locked form a chain from `start`, and its next row is at `cursor`. */
  ghost predicate Walked(docs: map<Id, Row>, tx: Tx, start: Id, cursor: Option<Id>, kind: string, locale: string) {
    && (forall i :: 0 <= i < |tx.path| ==> tx.path[i] in tx.held)
    && IsChain(Par(docs), tx.path)
    && (tx.path == [] ==> cursor == Some(start))
    && (tx.path != [] ==>
          && tx.path[0] == start && docs[start].kind == kind && docs[start].locale == locale
          && docs[tx.path[|tx.path| - 1]].state.parent == cursor)
  }

  /** The decision the update took under its row lock. */
  ghost predicate UpdateJudged(reg: Registry, tx: Tx)
    requires tx.op.Update?
  {
    && tx.op.kind in reg && tx.op.id in tx.held
    && var row := tx.held[tx.op.id];
       var next := NextOf(reg, tx.op, row);
       && (tx.op.expected.Some? ==> tx.op.expected.value == row.version)
       && next.Some? && MayUpdate(reg, tx.op, row, next.value)
  }

  ghost predicate MoveWalked(reg: Registry, docs: map<Id, Row>, tx: Tx, cursor: Option<Id>)
    requires tx.op.Update? && UpdateJudged(reg, tx)
  {
    var row := tx.held[tx.op.id];
    var next := NextOf(reg, tx.op, row).value;
    && Moves(next, row)
    && tx.op.id !in tx.path
    && Walked(docs, tx, next.parent.value, cursor, row.kind, row.locale)
  }

  ghost predicate DeleteJudged(reg: Registry, tx: Tx, g: Id)
    requires tx.op.Delete?
  {
    && tx.op.kind in reg && tx.op.id in tx.held && tx.held[tx.op.id].group == g && tx.group == Some(g)
    && MayDelete(reg, tx.op, tx.held[tx.op.id])
  }

  ghost predicate GroupOfTarget(db: Db, id: Id, g: Id) {
    id in db.usedDocs && (id in db.docs ==> db.docs[id].group == g)
  }

  ghost predicate PcInv(reg: Registry, db: Db, tx: Tx) {
    match tx.pc
    case CreateLockGroup => tx.op.Create? && tx.op.join.Some? && tx.group.None? && tx.path == []
    case CreateJudge =>
      && tx.op.Create? && tx.op.join.Some? && tx.group == tx.op.join && tx.path == []
      && tx.group.value in db.groups && db.groups[tx.group.value] == tx.op.kind
    case CreateWalk(cursor) =>
      && tx.op.Create? && tx.op.state.parent.Some? && Joined(db, tx)
      && Walked(db.docs, tx, tx.op.state.parent.value, Some(cursor), tx.op.kind, tx.op.locale)
    case CreateInsert =>
      && tx.op.Create? && Joined(db, tx)
      && (tx.op.state.parent.Some? ==>
            && Walked(db.docs, tx, tx.op.state.parent.value, None, tx.op.kind, tx.op.locale)
            && |tx.path| + 1 <= MAX_HIERARCHY_DEPTH)
    case UpdateLock => tx.op.Update? && tx.path == []
    case UpdateWalk(cursor) => tx.op.Update? && UpdateJudged(reg, tx) && MoveWalked(reg, db.docs, tx, Some(cursor))
    case UpdateMeasure => tx.op.Update? && UpdateJudged(reg, tx) && MoveWalked(reg, db.docs, tx, None)
    case UpdateWrite =>
      && tx.op.Update? && UpdateJudged(reg, tx)
      && (Moves(NextOf(reg, tx.op, tx.held[tx.op.id]).value, tx.held[tx.op.id]) ==>
            && MoveWalked(reg, db.docs, tx, None)
            && NoDeeper(Par(db.docs), tx.op.id, tx.height)
            && tx.height >= 1 && |tx.path| + tx.height <= MAX_HIERARCHY_DEPTH)
    case DeleteFind => tx.op.Delete? && tx.group.None?
    case DeleteLockGroup(g) => tx.op.Delete? && tx.group.None? && GroupOfTarget(db, tx.op.id, g)
    case DeleteLock(g) =>
      && tx.op.Delete? && GroupOfTarget(db, tx.op.id, g)
      && (tx.op.id in db.docs ==> tx.group == Some(g))
    case DeleteFindChildren(g) => tx.op.Delete? && DeleteJudged(reg, tx, g)
    case DeleteDetach(g, todo) =>
      && tx.op.Delete? && DeleteJudged(reg, tx, g)
      && (forall v :: v in ChildrenOf(db.docs, tx.op.id) ==> v in todo || v in tx.held)
    case DeleteCount(g) =>
      && tx.op.Delete? && DeleteJudged(reg, tx, g)
      && (forall v :: v in ChildrenOf(db.docs, tx.op.id) ==> v in tx.held)
    case DeleteCommit(g, last) =>
      && tx.op.Delete? && DeleteJudged(reg, tx, g)
      && (forall v :: v in ChildrenOf(db.docs, tx.op.id) ==> v in tx.held)
      && (last <==> Members(db.docs, g) - {tx.op.id} == {})
    case PublishScan => tx.op.PublishDue? && tx.held == map[]
    case PublishClaim(todo) =>
      && tx.op.PublishDue?
      && (forall v :: v in tx.held ==> IsDue(tx.held[v], tx.op.now))
  }

  /** A locked row is as it was read, whatever has committed since. */
  ghost predicate LocksHold(db: Db, tx: Tx) {
    && (forall id :: id in tx.held ==> id in db.docs && db.docs[id] == tx.held[id])
    && (tx.group.Some? ==> tx.group.value in db.groups)
  }

  ghost predicate OpOk(reg: Registry, op: Op) {
    match op
    case Create(actor, kind, _, _, state, _) =>
      kind in reg && FollowsRules(reg[kind], state) && CanWrite(reg[kind].access, None, state.status, actor, None)
    case Update(_, kind, _, _, _, _, _) => kind in reg
    case Delete(_, kind, _) => kind in reg
    case PublishDue(_) => true
  }

  ghost predicate TxInv(reg: Registry, db: Db, tx: Tx) {
    OpOk(reg, tx.op) && LocksHold(db, tx) && PcInv(reg, db, tx)
  }

  /** No row and no group is locked by two transactions. */
  ghost predicate Exclusive(s: State) {
    forall t, u :: t in s.txs && u in s.txs && t != u ==>
      && s.txs[t].held.Keys !! s.txs[u].held.Keys
      && (s.txs[t].group.None? || s.txs[t].group != s.txs[u].group)
  }

  ghost predicate Inv(reg: Registry, s: State) {
    && (forall k :: k in reg ==> reg[k].name == k)
    && DbInv(reg, s.db)
    && Exclusive(s)
    && EachKnows(reg, s)
  }

  ghost predicate EachKnows(reg: Registry, s: State) {
    forall t :: t in s.txs ==> TxInv(reg, s.db, s.txs[t])
  }

  // ---------- What a commit guarantees to the others ----------

  /** Nothing new under a locked row. */
  ghost predicate SubtreeShrinks(p: Parents, p2: Parents, c: Id) {
    forall v, k: nat :: Below(p2, v, c, k) ==> Below(p, v, c, k)
  }

  ghost predicate RowsKept(docs: map<Id, Row>, docs2: map<Id, Row>, held: set<Id>) {
    forall id :: id in held && id in docs ==> id in docs2 && docs2[id] == docs[id]
  }

  ghost predicate GroupKept(db: Db, db2: Db, group: Option<Id>) {
    group.Some? && group.value in db.groups ==>
      && group.value in db2.groups && db2.groups[group.value] == db.groups[group.value]
      && Members(db2.docs, group.value) == Members(db.docs, group.value)
  }

  ghost predicate TreeKept(docs: map<Id, Row>, docs2: map<Id, Row>, held: set<Id>) {
    forall c :: c in held ==> SubtreeShrinks(Par(docs), Par(docs2), c)
  }

  ghost predicate IdsKept(db: Db, db2: Db) {
    && db.usedDocs <= db2.usedDocs
    && (forall id :: id in db.usedDocs && id in db2.docs ==>
          && id in db.docs && db2.docs[id].kind == db.docs[id].kind
          && db2.docs[id].locale == db.docs[id].locale && db2.docs[id].group == db.docs[id].group)
  }

  ghost predicate Rely(db: Db, db2: Db, held: set<Id>, group: Option<Id>) {
    && RowsKept(db.docs, db2.docs, held)
    && GroupKept(db, db2, group)
    && TreeKept(db.docs, db2.docs, held)
    && IdsKept(db, db2)
  }

  lemma {:induction false} ChildrenShrink(db: Db, db2: Db, held: set<Id>, group: Option<Id>, c: Id)
    requires Rely(db, db2, held, group) && c in held && c in db.docs
    ensures ChildrenOf(db2.docs, c) <= ChildrenOf(db.docs, c)
  {
    var p, p2 := Par(db.docs), Par(db2.docs);
    forall v | v in ChildrenOf(db2.docs, c)
      ensures v in ChildrenOf(db.docs, c)
    {
      assert Below(p2, c, c, 1);
      assert Below(p2, v, c, 2);
      assert Below(p, v, c, 2);
      assert Below(p, p[v].value, c, 1);
    }
  }

  lemma {:induction false} WalkedStable(db: Db, db2: Db, tx: Tx, start: Id, cursor: Option<Id>, kind: string, locale: string)
    requires LocksHold(db, tx) && Rely(db, db2, tx.held.Keys, tx.group)
    requires Walked(db.docs, tx, start, cursor, kind, locale)
    ensures Walked(db2.docs, tx, start, cursor, kind, locale)
  {
    forall i | 0 <= i < |tx.path|
      ensures tx.path[i] in Par(db2.docs) && Par(db2.docs)[tx.path[i]] == Par(db.docs)[tx.path[i]]
    {
      assert tx.path[i] in tx.held;
    }
    forall i | 0 <= i < |tx.path| - 1
      ensures Par(db2.docs)[tx.path[i]] == Some(tx.path[i + 1])
    {
    }
    if tx.path != [] {
      assert tx.path[0] in tx.held && tx.path[|tx.path| - 1] in tx.held;
    }
  }

  lemma {:induction false} JoinedStable(db: Db, db2: Db, tx: Tx)
    requires tx.op.Create? && Joined(db, tx) && LocksHold(db, tx) && db.docs.Keys <= db.usedDocs
    requires Rely(db, db2, tx.held.Keys, tx.group)
    ensures Joined(db2, tx)
  {
  }

  lemma {:induction false} LocksStable(db: Db, db2: Db, tx: Tx)
    requires LocksHold(db, tx) && Rely(db, db2, tx.held.Keys, tx.group)
    ensures LocksHold(db2, tx)
  {
  }

  lemma {:induction false} CreateStable(reg: Registry, db: Db, db2: Db, tx: Tx)
    requires tx.op.Create? && PcInv(reg, db, tx) && LocksHold(db, tx) && IdsUsed(db) && Rely(db, db2, tx.held.Keys, tx.group)
    ensures PcInv(reg, db2, tx)
  {
    match tx.pc
    case CreateWalk(cursor) =>
      JoinedStable(db, db2, tx);
      WalkedStable(db, db2, tx, tx.op.state.parent.value, Some(cursor), tx.op.kind, tx.op.locale);
    case CreateInsert =>
      JoinedStable(db, db2, tx);
      if tx.op.state.parent.Some? {
        WalkedStable(db, db2, tx, tx.op.state.parent.value, None, tx.op.kind, tx.op.locale);
      }
    case _ =>
  }

  lemma {:induction false} MoveStable(reg: Registry, db: Db, db2: Db, tx: Tx, cursor: Option<Id>)
    requires tx.op.Update? && UpdateJudged(reg, tx) && MoveWalked(reg, db.docs, tx, cursor)
    requires LocksHold(db, tx) && Rely(db, db2, tx.held.Keys, tx.group)
    ensures MoveWalked(reg, db2.docs, tx, cursor)
  {
    var row := tx.held[tx.op.id];
    WalkedStable(db, db2, tx, NextOf(reg, tx.op, row).value.parent.value, cursor, row.kind, row.locale);
  }

  lemma {:induction false} HeightStable(db: Db, db2: Db, held: set<Id>, group: Option<Id>, id: Id, height: nat)
    requires Rely(db, db2, held, group) && id in held && NoDeeper(Par(db.docs), id, height)
    ensures NoDeeper(Par(db2.docs), id, height)
  {
    assert SubtreeShrinks(Par(db.docs), Par(db2.docs), id);
  }

  lemma {:induction false} UpdateStable(reg: Registry, db: Db, db2: Db, tx: Tx)
    requires tx.op.Update? && PcInv(reg, db, tx) && LocksHold(db, tx) && Rely(db, db2, tx.held.Keys, tx.group)
    ensures PcInv(reg, db2, tx)
  {
    match tx.pc
    case UpdateWalk(cursor) => MoveStable(reg, db, db2, tx, Some(cursor));
    case UpdateMeasure => MoveStable(reg, db, db2, tx, None);
    case UpdateWrite =>
      if Moves(NextOf(reg, tx.op, tx.held[tx.op.id]).value, tx.held[tx.op.id]) {
        MoveStable(reg, db, db2, tx, None);
        HeightStable(db, db2, tx.held.Keys, tx.group, tx.op.id, tx.height);
      }
    case _ =>
  }

  lemma {:induction false} DeleteStable(reg: Registry, db: Db, db2: Db, tx: Tx)
    requires tx.op.Delete? && PcInv(reg, db, tx) && LocksHold(db, tx) && IdsUsed(db) && Rely(db, db2, tx.held.Keys, tx.group)
    ensures PcInv(reg, db2, tx)
  {
    match tx.pc
    case DeleteDetach(g, todo) => ChildrenShrink(db, db2, tx.held.Keys, tx.group, tx.op.id);
    case DeleteCount(g) => ChildrenShrink(db, db2, tx.held.Keys, tx.group, tx.op.id);
    case DeleteCommit(g, last) => ChildrenShrink(db, db2, tx.held.Keys, tx.group, tx.op.id);
    case _ =>
  }

  /** Everything a transaction knows survives a commit that keeps the guarantee. */
  lemma {:induction false} TxInvStable(reg: Registry, db: Db, db2: Db, tx: Tx)
    requires TxInv(reg, db, tx) && IdsUsed(db) && Rely(db, db2, tx.held.Keys, tx.group)
    ensures TxInv(reg, db2, tx)
  {
    LocksStable(db, db2, tx);
    match tx.op {
      case Create(_, _, _, _, _, _) => CreateStable(reg, db, db2, tx);
      case Update(_, _, _, _, _, _, _) => UpdateStable(reg, db, db2, tx);
      case Delete(_, _, _) => DeleteStable(reg, db, db2, tx);
      case PublishDue(_) => assert PcInv(reg, db2, tx);
    }
  }
}

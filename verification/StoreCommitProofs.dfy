/** The four commits, one after another. */
module StoreCommitProofs {
  import opened Prelude
  import opened Forest
  import opened MediaReferences
  import opened Store
  import opened StoreInvariants
  import opened StoreCommits
  import ParentCheck
  import Revisions

  // ---------- Creating a document ----------

  lemma {:induction false} InsertFacts(reg: Registry, db: Db, tx: Tx)
    requires PcInv(reg, db, tx) && tx.pc == CreateInsert
    ensures tx.op.Create? && Joined(db, tx)
    ensures tx.op.state.parent.Some? ==>
              && Walked(db.docs, tx, tx.op.state.parent.value, None, tx.op.kind, tx.op.locale)
              && |tx.path| + 1 <= MAX_HIERARCHY_DEPTH
  {
  }

  lemma {:induction false} CreateTree(docs: map<Id, Row>, tx: Tx, newDoc: Id, row: Row)
    requires Placed(docs) && newDoc !in docs
    requires row.state.parent.Some? ==>
      && Walked(docs, tx, row.state.parent.value, None, row.kind, row.locale)
      && |tx.path| + 1 <= MAX_HIERARCHY_DEPTH
    ensures Placed(docs[newDoc := row])
  {
    var p := Par(docs);
    var parent := row.state.parent;
    assert Par(docs[newDoc := row]) == p[newDoc := parent];
    if parent.Some? {
      WalkedIsRootChain(docs, tx, parent.value, row.kind, row.locale);
      ParentCheck.NothingBelowAbsent(p, newDoc);
    }
    PlaceKeepsForest(p, newDoc, parent, tx.path, 1);
  }

  lemma {:induction false} CreateTreeKept(docs: map<Id, Row>, tx: Tx, newDoc: Id, row: Row, held: set<Id>)
    requires newDoc !in docs && held <= docs.Keys && tx.held.Keys !! held
    requires row.state.parent.Some? ==> Walked(docs, tx, row.state.parent.value, None, row.kind, row.locale)
    ensures TreeKept(docs, docs[newDoc := row], held)
  {
    var p := Par(docs);
    var parent := row.state.parent;
    assert Par(docs[newDoc := row]) == p[newDoc := parent];
    forall c | c in held
      ensures SubtreeShrinks(p, p[newDoc := parent], c)
    {
      if parent.Some? {
        WalkedIsRootChain(docs, tx, parent.value, row.kind, row.locale);
        PathApart(docs, tx, parent.value, row.kind, row.locale, held, c);
      }
      PlaceShrinks(p, newDoc, parent, tx.path, c);
    }
  }

  lemma {:induction false} CreateMembers(docs: map<Id, Row>, newDoc: Id, row: Row, h: Id)
    requires newDoc !in docs
    ensures Members(docs[newDoc := row], h) == Members(docs, h) + (if row.group == h then {newDoc} else {})
  {
  }

  lemma {:induction false} CreateGroups(db: Db, tx: Tx, newDoc: Id, row: Row)
    requires Grouped(db.docs, db.groups) && tx.op.Create? && Joined(db, tx)
    requires newDoc !in db.docs && row.kind == tx.op.kind && row.locale == tx.op.locale
    requires if tx.op.join.Some? then row.group == tx.op.join.value else row.group !in db.groups
    ensures Grouped(db.docs[newDoc := row], db.groups[row.group := row.kind])
  {
    var docs2 := db.docs[newDoc := row];
    forall g | g in db.groups[row.group := row.kind]
      ensures Members(docs2, g) != {}
    {
      CreateMembers(db.docs, newDoc, row, g);
    }
    forall a | a in db.docs && db.docs[a].group == row.group
      ensures db.docs[a].locale != row.locale
    {
      assert a in Members(db.docs, row.group);
    }
  }

  lemma {:induction false} CreateSlugs(docs: map<Id, Row>, newDoc: Id, row: Row)
    requires SlugsUnique(docs) && newDoc !in docs
    requires SlugIsFree(docs, newDoc, row.kind, row.locale, row.state.slug)
    ensures SlugsUnique(docs[newDoc := row])
  {
  }

  lemma {:induction false} CreateVersions(db: Db, newDoc: Id, row: Row, db2: Db)
    requires Versioned(db) && row.version == 1
    requires db2.docs == db.docs[newDoc := row] && db2.history == db.history[newDoc := {}]
    ensures Versioned(db2)
  {
  }

  /** The new row and the new tables, spelled out. */
  lemma {:induction false} CreateShape(reg: Registry, s: State, tx: Tx, newDoc: Id, newGroup: Id)
    requires OpOk(reg, tx.op) && tx.op.Create? && CommitCreate(reg, s, tx, newDoc, newGroup).Commit?
    requires IdsUsed(s.db)
    ensures var db, db2 := s.db, CommitCreate(reg, s, tx, newDoc, newGroup).db;
            && newDoc !in db.docs && newDoc in db2.docs && tx.pc == CreateInsert && newDoc !in db.usedDocs
            && var row := db2.docs[newDoc];
               && db2.docs == db.docs[newDoc := row] && db2.groups == db.groups[row.group := row.kind]
               && db2.history == db.history[newDoc := {}] && db2.media == db.media
               && db2.usedDocs == db.usedDocs + {newDoc} && db2.usedGroups == db.usedGroups + {row.group}
               && row.kind == tx.op.kind && row.locale == tx.op.locale && row.version == 1
               && row.state.parent == tx.op.state.parent && row.kind in reg
               && FollowsRules(reg[row.kind], row.state)
               && (if tx.op.join.Some? then row.group == tx.op.join.value else row.group !in db.groups)
               && SlugIsFree(db.docs, newDoc, row.kind, row.locale, row.state.slug)
               && var uses := Uses(reg[row.kind], row.state.blocks, row.state.meta);
                  AddedMediaExist(db, newDoc, uses) && db2.mirror == Synced(db.mirror, newDoc, uses)
  {
  }

  lemma {:induction false} OneRowMirror(reg: Registry, db: Db, db2: Db, newDoc: Id)
    requires Mirrored(reg, db) && newDoc in db2.docs && db2.docs[newDoc].kind in reg
    requires db2.docs == db.docs[newDoc := db2.docs[newDoc]] && db2.media == db.media
    requires var uses := Uses(reg[db2.docs[newDoc].kind], db2.docs[newDoc].state.blocks, db2.docs[newDoc].state.meta);
             AddedMediaExist(db, newDoc, uses) && db2.mirror == Synced(db.mirror, newDoc, uses)
    ensures Mirrored(reg, db2)
  {
    SyncKeepsMirror(reg, db, db2.docs, newDoc);
    MirrorFrame(reg, db.(docs := db2.docs, mirror := db2.mirror), db2);
  }

  lemma {:induction false} CreateCommitTree(reg: Registry, s: State, tx: Tx, newDoc: Id, newGroup: Id)
    requires Placed(s.db.docs) && IdsUsed(s.db)
    requires OpOk(reg, tx.op) && PcInv(reg, s.db, tx) && tx.op.Create?
    requires CommitCreate(reg, s, tx, newDoc, newGroup).Commit?
    ensures Placed(CommitCreate(reg, s, tx, newDoc, newGroup).db.docs)
  {
    CreateShape(reg, s, tx, newDoc, newGroup);
    InsertFacts(reg, s.db, tx);
    CreateTree(s.db.docs, tx, newDoc, CommitCreate(reg, s, tx, newDoc, newGroup).db.docs[newDoc]);
  }

  lemma {:induction false} CreateCommitGroups(reg: Registry, s: State, tx: Tx, newDoc: Id, newGroup: Id)
    requires Grouped(s.db.docs, s.db.groups) && IdsUsed(s.db)
    requires OpOk(reg, tx.op) && PcInv(reg, s.db, tx) && tx.op.Create?
    requires CommitCreate(reg, s, tx, newDoc, newGroup).Commit?
    ensures var db2 := CommitCreate(reg, s, tx, newDoc, newGroup).db;
            Grouped(db2.docs, db2.groups)
  {
    CreateShape(reg, s, tx, newDoc, newGroup);
    InsertFacts(reg, s.db, tx);
    CreateGroups(s.db, tx, newDoc, CommitCreate(reg, s, tx, newDoc, newGroup).db.docs[newDoc]);
  }

  lemma {:induction false} CreateCommitRows(reg: Registry, s: State, tx: Tx, newDoc: Id, newGroup: Id)
    requires SlugsUnique(s.db.docs) && RowsFollowRules(reg, s.db.docs) && Versioned(s.db) && IdsUsed(s.db)
    requires OpOk(reg, tx.op) && tx.op.Create?
    requires CommitCreate(reg, s, tx, newDoc, newGroup).Commit?
    ensures var db2 := CommitCreate(reg, s, tx, newDoc, newGroup).db;
            SlugsUnique(db2.docs) && RowsFollowRules(reg, db2.docs) && Versioned(db2) && IdsUsed(db2)
  {
    CreateShape(reg, s, tx, newDoc, newGroup);
    var db2 := CommitCreate(reg, s, tx, newDoc, newGroup).db;
    CreateSlugs(s.db.docs, newDoc, db2.docs[newDoc]);
    CreateVersions(s.db, newDoc, db2.docs[newDoc], db2);
  }

  lemma {:induction false} CreateCommitOk(reg: Registry, s: State, tx: Tx, newDoc: Id, newGroup: Id)
    requires DbInv(reg, s.db) && OpOk(reg, tx.op) && PcInv(reg, s.db, tx) && tx.op.Create?
    requires CommitCreate(reg, s, tx, newDoc, newGroup).Commit?
    ensures DbInv(reg, CommitCreate(reg, s, tx, newDoc, newGroup).db)
  {
    CreateCommitTree(reg, s, tx, newDoc, newGroup);
    CreateCommitGroups(reg, s, tx, newDoc, newGroup);
    CreateCommitRows(reg, s, tx, newDoc, newGroup);
    CreateCommitMirror(reg, s, tx, newDoc, newGroup);
  }

  lemma {:induction false} CreateCommitMirror(reg: Registry, s: State, tx: Tx, newDoc: Id, newGroup: Id)
    requires Mirrored(reg, s.db) && IdsUsed(s.db) && OpOk(reg, tx.op) && tx.op.Create?
    requires CommitCreate(reg, s, tx, newDoc, newGroup).Commit?
    ensures Mirrored(reg, CommitCreate(reg, s, tx, newDoc, newGroup).db)
  {
    CreateShape(reg, s, tx, newDoc, newGroup);
    OneRowMirror(reg, s.db, CommitCreate(reg, s, tx, newDoc, newGroup).db, newDoc);
  }

  lemma {:induction false} CreateCommitRely(reg: Registry, s: State, tx: Tx, newDoc: Id, newGroup: Id, held: set<Id>, group: Option<Id>)
    requires IdsUsed(s.db) && OpOk(reg, tx.op) && PcInv(reg, s.db, tx) && tx.op.Create?
    requires CommitCreate(reg, s, tx, newDoc, newGroup).Commit?
    requires Apart(tx, held, group) && held <= s.db.docs.Keys
    ensures Rely(s.db, CommitCreate(reg, s, tx, newDoc, newGroup).db, held, group)
  {
    CreateShape(reg, s, tx, newDoc, newGroup);
    var db, db2 := s.db, CommitCreate(reg, s, tx, newDoc, newGroup).db;
    var row := db2.docs[newDoc];
    InsertFacts(reg, db, tx);
    CreateTreeKept(db.docs, tx, newDoc, row, held);
    if group.Some? {
      CreateMembers(db.docs, newDoc, row, group.value);
    }
    assert GroupKept(db, db2, group);
    assert IdsKept(db, db2);
  }

  // ---------- Updating a document ----------

  lemma {:induction false} WriteFacts(reg: Registry, db: Db, tx: Tx)
    requires PcInv(reg, db, tx) && tx.pc == UpdateWrite
    ensures tx.op.Update? && UpdateJudged(reg, tx)
    ensures var row := tx.held[tx.op.id];
            var next := NextOf(reg, tx.op, row).value;
            Moves(next, row) ==>
              && tx.op.id !in tx.path && Walked(db.docs, tx, next.parent.value, None, row.kind, row.locale)
              && NoDeeper(Par(db.docs), tx.op.id, tx.height)
              && tx.height >= 1 && |tx.path| + tx.height <= MAX_HIERARCHY_DEPTH
  {
  }

  /** Where the row stood and where it goes, `path` being the chain above the new place. */
  ghost predicate PlacedBy(docs: map<Id, Row>, tx: Tx, id: Id, row2: Row) {
    && id in docs && id in tx.held
    && (row2.state.parent.Some? && row2.state.parent != docs[id].state.parent ==>
          && id !in tx.path && Walked(docs, tx, row2.state.parent.value, None, row2.kind, row2.locale)
          && NoDeeper(Par(docs), id, tx.height)
          && tx.height >= 1 && |tx.path| + tx.height <= MAX_HIERARCHY_DEPTH)
  }

  lemma {:induction false} UpdateTree(docs: map<Id, Row>, tx: Tx, id: Id, row2: Row)
    requires Placed(docs) && PlacedBy(docs, tx, id, row2)
    requires row2.kind == docs[id].kind && row2.locale == docs[id].locale
    ensures Placed(docs[id := row2])
  {
    var p := Par(docs);
    var parent := row2.state.parent;
    assert Par(docs[id := row2]) == p[id := parent];
    if parent == docs[id].state.parent {
      assert p[id := parent] == p;
    } else {
      if parent.Some? {
        WalkedIsRootChain(docs, tx, parent.value, row2.kind, row2.locale);
      }
      PlaceKeepsForest(p, id, parent, tx.path, tx.height);
    }
  }

  lemma {:induction false} UpdateTreeKept(docs: map<Id, Row>, tx: Tx, id: Id, row2: Row, held: set<Id>)
    requires PlacedBy(docs, tx, id, row2) && held <= docs.Keys && tx.held.Keys !! held
    ensures TreeKept(docs, docs[id := row2], held)
  {
    var p := Par(docs);
    var parent := row2.state.parent;
    assert Par(docs[id := row2]) == p[id := parent];
    forall c | c in held
      ensures SubtreeShrinks(p, p[id := parent], c)
    {
      if parent == docs[id].state.parent {
        assert p[id := parent] == p;
      } else {
        if parent.Some? {
          WalkedIsRootChain(docs, tx, parent.value, row2.kind, row2.locale);
          PathApart(docs, tx, parent.value, row2.kind, row2.locale, held, c);
        }
        PlaceShrinks(p, id, parent, tx.path, c);
      }
    }
  }

  lemma {:induction false} UpdateMembers(docs: map<Id, Row>, id: Id, row2: Row, h: Id)
    requires id in docs && row2.group == docs[id].group
    ensures Members(docs[id := row2], h) == Members(docs, h)
  {
  }

  lemma {:induction false} UpdateGroups(docs: map<Id, Row>, groups: map<Id, string>, id: Id, row2: Row)
    requires Grouped(docs, groups) && id in docs
    requires row2.group == docs[id].group && row2.kind == docs[id].kind && row2.locale == docs[id].locale
    ensures Grouped(docs[id := row2], groups)
  {
    forall g | g in groups
      ensures Members(docs[id := row2], g) != {}
    {
      UpdateMembers(docs, id, row2, g);
    }
  }

  lemma {:induction false} UpdateSlugs(docs: map<Id, Row>, id: Id, row2: Row)
    requires SlugsUnique(docs) && SlugIsFree(docs, id, row2.kind, row2.locale, row2.state.slug)
    ensures SlugsUnique(docs[id := row2])
  {
  }

  lemma {:induction false} UpdateVersions(db: Db, id: Id, row2: Row, createdAt: int, db2: Db)
    requires Versioned(db) && id in db.docs && row2.version == db.docs[id].version + 1
    requires db2.docs == db.docs[id := row2]
    requires db2.history == db.history[id := Revisions.Recorded(db.history[id], RevisionOf(db.docs[id], createdAt))]
    ensures Versioned(db2)
  {
    RecordingKeepsHistory(db.docs[id], db.history[id], createdAt, row2);
  }

  /** One row replaced by its next version, its revision recorded and its mirror rows synced. */
  ghost predicate RowReplaced(reg: Registry, db: Db, tx: Tx, db2: Db)
    requires tx.op.Update? && UpdateJudged(reg, tx)
  {
    var id := tx.op.id;
    && id in db.docs && id in db2.docs && tx.held[id] == db.docs[id] && id in db.history
    && var row, row2 := db.docs[id], db2.docs[id];
       && db2 == db.(docs := db.docs[id := row2], history := db2.history, mirror := db2.mirror)
       && db2.history == db.history[id := Revisions.Recorded(db.history[id], RevisionOf(row, tx.startedAt))]
       && row2.kind == row.kind && row2.locale == row.locale && row2.group == row.group
       && row2.version == row.version + 1 && row2.state == NextOf(reg, tx.op, row).value
       && row2.kind in reg && FollowsRules(reg[row2.kind], row2.state)
       && SlugIsFree(db.docs, id, row2.kind, row2.locale, row2.state.slug)
       && var uses := Uses(reg[row2.kind], row2.state.blocks, row2.state.meta);
          AddedMediaExist(db, id, uses) && db2.mirror == Synced(db.mirror, id, uses)
  }

  lemma {:induction false} UpdateShape(reg: Registry, s: State, tx: Tx)
    requires Versioned(s.db) && LocksHold(s.db, tx) && tx.op.Update? && UpdateJudged(reg, tx)
    requires CommitUpdate(reg, s, tx).Commit?
    ensures tx.pc == UpdateWrite && RowReplaced(reg, s.db, tx, CommitUpdate(reg, s, tx).db)
  {
  }

  lemma {:induction false} UpdateRules(reg: Registry, docs: map<Id, Row>, id: Id, row2: Row)
    requires RowsFollowRules(reg, docs) && row2.kind in reg && FollowsRules(reg[row2.kind], row2.state)
    ensures RowsFollowRules(reg, docs[id := row2])
  {
  }

  lemma {:induction false} ReplacedTree(reg: Registry, db: Db, tx: Tx, db2: Db)
    requires tx.op.Update? && UpdateJudged(reg, tx) && RowReplaced(reg, db, tx, db2)
    requires Placed(db.docs) && LocksHold(db, tx) && PcInv(reg, db, tx) && tx.pc == UpdateWrite
    ensures Placed(db2.docs)
  {
    WriteFacts(reg, db, tx);
    UpdateTree(db.docs, tx, tx.op.id, db2.docs[tx.op.id]);
  }

  lemma {:induction false} ReplacedTables(reg: Registry, db: Db, tx: Tx, db2: Db)
    requires tx.op.Update? && UpdateJudged(reg, tx) && RowReplaced(reg, db, tx, db2)
    requires Grouped(db.docs, db.groups) && SlugsUnique(db.docs) && RowsFollowRules(reg, db.docs)
    requires Versioned(db) && Mirrored(reg, db)
    ensures Grouped(db2.docs, db2.groups) && SlugsUnique(db2.docs) && RowsFollowRules(reg, db2.docs)
    ensures Versioned(db2) && Mirrored(reg, db2)
  {
    var id, row2 := tx.op.id, db2.docs[tx.op.id];
    UpdateGroups(db.docs, db.groups, id, row2);
    UpdateSlugs(db.docs, id, row2);
    UpdateRules(reg, db.docs, id, row2);
    UpdateVersions(db, id, row2, tx.startedAt, db2);
    OneRowMirror(reg, db, db2, id);
  }

  lemma {:induction false} UpdateCommitOk(reg: Registry, s: State, tx: Tx)
    requires DbInv(reg, s.db) && LocksHold(s.db, tx) && PcInv(reg, s.db, tx)
    requires tx.op.Update? && UpdateJudged(reg, tx) && CommitUpdate(reg, s, tx).Commit?
    ensures DbInv(reg, CommitUpdate(reg, s, tx).db)
  {
    UpdateShape(reg, s, tx);
    ReplacedTree(reg, s.db, tx, CommitUpdate(reg, s, tx).db);
    ReplacedTables(reg, s.db, tx, CommitUpdate(reg, s, tx).db);
  }

  lemma {:induction false} UpdateCommitRely(reg: Registry, s: State, tx: Tx, held: set<Id>, group: Option<Id>)
    requires Versioned(s.db) && IdsUsed(s.db) && LocksHold(s.db, tx) && PcInv(reg, s.db, tx)
    requires tx.op.Update? && UpdateJudged(reg, tx) && CommitUpdate(reg, s, tx).Commit?
    requires Apart(tx, held, group) && held <= s.db.docs.Keys
    ensures Rely(s.db, CommitUpdate(reg, s, tx).db, held, group)
  {
    var db2 := CommitUpdate(reg, s, tx).db;
    UpdateShape(reg, s, tx);
    ReplacedTreeKept(reg, s.db, tx, db2, held);
    OneRowKept(s.db, db2, tx.op.id, held, group);
  }

  lemma {:induction false} ReplacedTreeKept(reg: Registry, db: Db, tx: Tx, db2: Db, held: set<Id>)
    requires tx.op.Update? && UpdateJudged(reg, tx) && RowReplaced(reg, db, tx, db2)
    requires LocksHold(db, tx) && PcInv(reg, db, tx) && tx.pc == UpdateWrite
    requires tx.held.Keys !! held && held <= db.docs.Keys
    ensures TreeKept(db.docs, db2.docs, held)
  {
    WriteFacts(reg, db, tx);
    UpdateTreeKept(db.docs, tx, tx.op.id, db2.docs[tx.op.id], held);
  }

  lemma {:induction false} OneRowKept(db: Db, db2: Db, id: Id, held: set<Id>, group: Option<Id>)
    requires id in db.docs && id in db2.docs && id !in held && db2.docs == db.docs[id := db2.docs[id]]
    requires db2.docs[id].kind == db.docs[id].kind && db2.docs[id].locale == db.docs[id].locale
    requires db2.docs[id].group == db.docs[id].group
    requires db2.groups == db.groups && db2.usedDocs == db.usedDocs
    ensures RowsKept(db.docs, db2.docs, held) && GroupKept(db, db2, group) && IdsKept(db, db2)
  {
    if group.Some? {
      UpdateMembers(db.docs, id, db2.docs[id], group.value);
    }
  }

  // ---------- Deleting a document ----------

  lemma {:induction false} RemoveFacts(reg: Registry, db: Db, tx: Tx)
    requires PcInv(reg, db, tx) && tx.pc.DeleteCommit?
    ensures tx.op.Delete? && DeleteJudged(reg, tx, tx.pc.g)
    ensures forall v :: v in ChildrenOf(db.docs, tx.op.id) ==> v in tx.held
    ensures tx.pc.last <==> Members(db.docs, tx.pc.g) - {tx.op.id} == {}
  {
  }

  /** The tables without `id`, its children made roots. */
  ghost predicate WithoutRow(docs: map<Id, Row>, id: Id, docs2: map<Id, Row>) {
    && docs2.Keys == docs.Keys - {id}
    && (forall v :: v in docs2 ==> docs2[v] == Detached(docs[v], id))
  }

  lemma {:induction false} DeleteShape(reg: Registry, s: State, tx: Tx)
    requires LocksHold(s.db, tx) && PcInv(reg, s.db, tx) && tx.op.Delete?
    requires CommitDelete(s, tx).Commit?
    ensures var db, db2 := s.db, CommitDelete(s, tx).db;
            var id := tx.op.id;
            && id in db.docs && WithoutRow(db.docs, id, db2.docs) && tx.pc.DeleteCommit?
            && db.docs[id].group == tx.pc.g && tx.group == Some(tx.pc.g)
            && (tx.pc.last <==> Members(db.docs, tx.pc.g) - {id} == {})
            && db2 == db.(docs := db2.docs, groups := db2.groups, history := db.history - {id}, mirror := db2.mirror)
            && db2.groups == (if tx.pc.last then db.groups - {tx.pc.g} else db.groups)
            && (forall m :: m in db2.mirror <==> m in db.mirror && m.content != id)
            && (forall v :: v in db2.docs && v !in tx.held ==> db2.docs[v] == db.docs[v])
  {
    RemoveFacts(reg, s.db, tx);
    var docs, docs2 := s.db.docs, CommitDelete(s, tx).db.docs;
    forall v | v in docs2
      ensures docs2[v] == Detached(docs[v], tx.op.id)
    {
      if docs[v].state.parent == Some(tx.op.id) {
        assert v in ChildrenOf(docs, tx.op.id);
      }
    }
  }

  lemma {:induction false} DeleteLinks(docs: map<Id, Row>, id: Id, docs2: map<Id, Row>)
    requires Placed(docs) && WithoutRow(docs, id, docs2)
    ensures LinksRemoved(Par(docs), Par(docs2))
  {
  }

  lemma {:induction false} DeleteTree(docs: map<Id, Row>, id: Id, docs2: map<Id, Row>)
    requires Placed(docs) && WithoutRow(docs, id, docs2)
    ensures Placed(docs2)
  {
    DeleteLinks(docs, id, docs2);
    RemovalKeepsForest(Par(docs), Par(docs2));
  }

  lemma {:induction false} DeleteTreeKept(docs: map<Id, Row>, id: Id, docs2: map<Id, Row>, held: set<Id>)
    requires Placed(docs) && WithoutRow(docs, id, docs2)
    ensures TreeKept(docs, docs2, held)
  {
    DeleteLinks(docs, id, docs2);
    forall c, v, k: nat | c in held && Below(Par(docs2), v, c, k)
      ensures Below(Par(docs), v, c, k)
    {
      RemovalLevels(Par(docs), Par(docs2), v, c, k);
    }
  }

  lemma {:induction false} DeleteMembers(docs: map<Id, Row>, id: Id, docs2: map<Id, Row>, h: Id)
    requires WithoutRow(docs, id, docs2)
    ensures Members(docs2, h) == Members(docs, h) - {id}
  {
  }

  lemma {:induction false} DeleteGroupsTyped(docs: map<Id, Row>, groups: map<Id, string>, id: Id, docs2: map<Id, Row>, last: bool)
    requires GroupsTyped(docs, groups) && id in docs && WithoutRow(docs, id, docs2)
    requires last <==> Members(docs, docs[id].group) - {id} == {}
    ensures GroupsTyped(docs2, if last then groups - {docs[id].group} else groups)
  {
    forall v | v in docs2 && docs[v].group == docs[id].group
      ensures !last
    {
      assert v in Members(docs, docs[id].group) - {id};
    }
  }

  lemma {:induction false} DeleteNoEmptyGroup(docs: map<Id, Row>, groups: map<Id, string>, id: Id, docs2: map<Id, Row>, last: bool)
    requires NoEmptyGroup(docs, groups) && id in docs && WithoutRow(docs, id, docs2)
    requires last <==> Members(docs, docs[id].group) - {id} == {}
    ensures NoEmptyGroup(docs2, if last then groups - {docs[id].group} else groups)
  {
    var g := docs[id].group;
    forall h | h in groups && (h != g || !last)
      ensures Members(docs2, h) != {}
    {
      DeleteMembers(docs, id, docs2, h);
      if h != g {
        assert id !in Members(docs, h);
      }
    }
  }

  lemma {:induction false} DeleteOnePerLanguage(docs: map<Id, Row>, id: Id, docs2: map<Id, Row>)
    requires OnePerLanguage(docs) && WithoutRow(docs, id, docs2)
    ensures OnePerLanguage(docs2)
  {
  }

  lemma {:induction false} DeleteMirror(reg: Registry, db: Db, id: Id, db2: Db)
    requires Mirrored(reg, db) && WithoutRow(db.docs, id, db2.docs) && db2.media == db.media
    requires forall m :: m in db2.mirror <==> m in db.mirror && m.content != id
    ensures Mirrored(reg, db2)
  {
  }

  lemma {:induction false} DeleteRows(reg: Registry, docs: map<Id, Row>, id: Id, docs2: map<Id, Row>)
    requires WithoutRow(docs, id, docs2) && SlugsUnique(docs) && RowsFollowRules(reg, docs)
    ensures SlugsUnique(docs2) && RowsFollowRules(reg, docs2)
  {
  }

  lemma {:induction false} DeleteVersions(db: Db, id: Id, db2: Db)
    requires Versioned(db) && WithoutRow(db.docs, id, db2.docs) && db2.history == db.history - {id}
    ensures Versioned(db2)
  {
    forall v | v in db2.docs
      ensures HistoryOk(db2.docs[v], db2.history[v])
    {
      assert HistoryOk(db.docs[v], db.history[v]);
    }
  }

  lemma {:induction false} DeleteCommitOk(reg: Registry, s: State, tx: Tx)
    requires DbInv(reg, s.db) && LocksHold(s.db, tx) && PcInv(reg, s.db, tx) && tx.op.Delete?
    requires CommitDelete(s, tx).Commit?
    ensures DbInv(reg, CommitDelete(s, tx).db)
  {
    DeleteShape(reg, s, tx);
    var db, db2 := s.db, CommitDelete(s, tx).db;
    var id := tx.op.id;
    assert Placed(db2.docs) by { DeleteTree(db.docs, id, db2.docs); }
    assert Grouped(db2.docs, db2.groups) by {
      DeleteGroupsTyped(db.docs, db.groups, id, db2.docs, tx.pc.last);
      DeleteNoEmptyGroup(db.docs, db.groups, id, db2.docs, tx.pc.last);
      DeleteOnePerLanguage(db.docs, id, db2.docs);
    }
    assert Mirrored(reg, db2) by { DeleteMirror(reg, db, id, db2); }
    assert SlugsUnique(db2.docs) && RowsFollowRules(reg, db2.docs) by { DeleteRows(reg, db.docs, id, db2.docs); }
    assert Versioned(db2) by { DeleteVersions(db, id, db2); }
    assert IdsUsed(db2);
  }

  lemma {:induction false} DeleteCommitRely(reg: Registry, s: State, tx: Tx, held: set<Id>, group: Option<Id>)
    requires Placed(s.db.docs) && IdsUsed(s.db) && LocksHold(s.db, tx) && PcInv(reg, s.db, tx) && tx.op.Delete?
    requires CommitDelete(s, tx).Commit?
    requires Apart(tx, held, group) && held <= s.db.docs.Keys
    ensures Rely(s.db, CommitDelete(s, tx).db, held, group)
  {
    DeleteShape(reg, s, tx);
    var db, db2 := s.db, CommitDelete(s, tx).db;
    DeleteTreeKept(db.docs, tx.op.id, db2.docs, held);
    if group.Some? {
      DeleteMembers(db.docs, tx.op.id, db2.docs, group.value);
      assert tx.op.id !in Members(db.docs, group.value);
    }
    assert GroupKept(db, db2, group);
    assert RowsKept(db.docs, db2.docs, held);
    assert IdsKept(db, db2);
  }

  // ---------- Publishing what is due ----------

  /** Rows of `due` published at one moment, the others as they were. */
  ghost predicate WithPublished(docs: map<Id, Row>, due: set<Id>, clock: int, docs2: map<Id, Row>) {
    && docs2.Keys == docs.Keys
    && (forall v :: v in docs2 ==> docs2[v] == if v in due then PublishedRow(docs[v], clock) else docs[v])
  }

  lemma {:induction false} ClaimFacts(reg: Registry, db: Db, tx: Tx)
    requires PcInv(reg, db, tx) && tx.pc.PublishClaim?
    ensures tx.op.PublishDue? && forall v :: v in tx.held ==> IsDue(tx.held[v], tx.op.now)
  {
  }

  lemma {:induction false} PublishMembers(docs: map<Id, Row>, due: set<Id>, clock: int, docs2: map<Id, Row>, h: Id)
    requires WithPublished(docs, due, clock, docs2)
    ensures Members(docs2, h) == Members(docs, h)
  {
  }

  lemma {:induction false} PublishNoEmptyGroup(docs: map<Id, Row>, groups: map<Id, string>, due: set<Id>, clock: int, docs2: map<Id, Row>)
    requires NoEmptyGroup(docs, groups) && WithPublished(docs, due, clock, docs2)
    ensures NoEmptyGroup(docs2, groups)
  {
    forall g | g in groups
      ensures Members(docs2, g) != {}
    {
      PublishMembers(docs, due, clock, docs2, g);
    }
  }

  lemma {:induction false} PublishGroupRows(docs: map<Id, Row>, groups: map<Id, string>, due: set<Id>, clock: int, docs2: map<Id, Row>)
    requires GroupsTyped(docs, groups) && OnePerLanguage(docs) && WithPublished(docs, due, clock, docs2)
    ensures GroupsTyped(docs2, groups) && OnePerLanguage(docs2)
  {
  }

  lemma {:induction false} PublishTree(docs: map<Id, Row>, due: set<Id>, clock: int, docs2: map<Id, Row>)
    requires WithPublished(docs, due, clock, docs2)
    ensures Par(docs2) == Par(docs)
    ensures Placed(docs) ==> Placed(docs2)
  {
  }

  lemma {:induction false} PublishRowRules(reg: Registry, docs: map<Id, Row>, due: set<Id>, clock: int, docs2: map<Id, Row>)
    requires WithPublished(docs, due, clock, docs2) && SlugsUnique(docs) && RowsFollowRules(reg, docs)
    ensures SlugsUnique(docs2) && RowsFollowRules(reg, docs2)
  {
  }

  lemma {:induction false} PublishMirror(reg: Registry, db: Db, due: set<Id>, clock: int, db2: Db)
    requires Mirrored(reg, db) && WithPublished(db.docs, due, clock, db2.docs)
    requires db2.mirror == db.mirror && db2.media == db.media
    ensures Mirrored(reg, db2)
  {
  }

  lemma {:induction false} PublishHistory(s: State, tx: Tx)
    requires Versioned(s.db) && LocksHold(s.db, tx) && tx.op.PublishDue? && CommitPublish(s, tx).Commit?
    ensures Versioned(CommitPublish(s, tx).db)
  {
    var db2 := CommitPublish(s, tx).db;
    forall v | v in db2.docs
      ensures HistoryOk(db2.docs[v], db2.history[v])
    {
      if v in tx.held {
        RecordingKeepsHistory(s.db.docs[v], s.db.history[v], tx.startedAt, db2.docs[v]);
      }
    }
  }

  lemma {:induction false} PublishCommitOk(reg: Registry, s: State, tx: Tx)
    requires DbInv(reg, s.db) && LocksHold(s.db, tx) && tx.op.PublishDue?
    requires CommitPublish(s, tx).Commit?
    ensures DbInv(reg, CommitPublish(s, tx).db)
  {
    var db, db2 := s.db, CommitPublish(s, tx).db;
    var due := tx.held.Keys;
    assert WithPublished(db.docs, due, s.clock, db2.docs);
    assert Placed(db2.docs) by { PublishTree(db.docs, due, s.clock, db2.docs); }
    assert Grouped(db2.docs, db2.groups) by {
      PublishGroupRows(db.docs, db.groups, due, s.clock, db2.docs);
      PublishNoEmptyGroup(db.docs, db.groups, due, s.clock, db2.docs);
    }
    assert SlugsUnique(db2.docs) && RowsFollowRules(reg, db2.docs) by {
      PublishRowRules(reg, db.docs, due, s.clock, db2.docs);
    }
    assert Mirrored(reg, db2) by { PublishMirror(reg, db, due, s.clock, db2); }
    assert Versioned(db2) by { PublishHistory(s, tx); }
    assert IdsUsed(db2);
  }

  lemma {:induction false} PublishCommitRely(reg: Registry, s: State, tx: Tx, held: set<Id>, group: Option<Id>)
    requires IdsUsed(s.db) && LocksHold(s.db, tx) && tx.op.PublishDue?
    requires CommitPublish(s, tx).Commit?
    requires Apart(tx, held, group) && held <= s.db.docs.Keys
    ensures Rely(s.db, CommitPublish(s, tx).db, held, group)
  {
    var db, db2 := s.db, CommitPublish(s, tx).db;
    var due := tx.held.Keys;
    assert WithPublished(db.docs, due, s.clock, db2.docs);
    PublishTree(db.docs, due, s.clock, db2.docs);
    if group.Some? {
      PublishMembers(db.docs, due, s.clock, db2.docs, group.value);
    }
    assert TreeKept(db.docs, db2.docs, held);
    assert RowsKept(db.docs, db2.docs, held);
    assert IdsKept(db, db2);
  }
}

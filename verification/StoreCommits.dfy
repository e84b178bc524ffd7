/**
 * Each commit keeps the tables sound, and keeps the guarantee the other transactions rely on:
 * it changes no row they have locked, no group they have locked, and adds nothing under a row
 * they have locked.
 */
module StoreCommits {
  import opened Prelude
  import opened ContentModel
  import opened Forest
  import opened MediaReferences
  import opened Store
  import opened StoreInvariants
  import Revisions

  /** What another transaction holds has nothing in common with what this one holds. */
  ghost predicate Apart(tx: Tx, held: set<Id>, group: Option<Id>) {
    tx.held.Keys !! held && (group.None? || tx.group != group)
  }

  // ---------- The page tree ----------

  /** The tree after a row `x` was put where `parent` says, its ancestors being locked. */
  lemma {:induction false} PlaceKeepsForest(p: Parents, x: Id, parent: Option<Id>, path: seq<Id>, h: nat)
    requires IsForest(p)
    requires parent.Some? ==>
      && IsRootChain(p, path) && path[0] == parent.value && x !in path
      && NoDeeper(p, x, h) && h >= 1 && |path| + h <= MAX_HIERARCHY_DEPTH
    ensures IsForest(p[x := parent])
  {
    if parent.None? {
      RootKeepsForest(p, x);
    } else {
      GraftKeepsForest(p, x, path, h);
    }
  }

  lemma {:induction false} PlaceShrinks(p: Parents, x: Id, parent: Option<Id>, path: seq<Id>, c: Id)
    requires c != x
    requires parent.Some? ==> IsRootChain(p, path) && path[0] == parent.value && x !in path && c !in path
    ensures SubtreeShrinks(p, p[x := parent], c)
  {
    forall v, k: nat | Below(p[x := parent], v, c, k)
      ensures Below(p, v, c, k)
    {
      if parent.None? {
        RootLevels(p, x, v, c, k);
      } else {
        GraftLevels(p, x, path, v, c, k);
      }
    }
  }

  lemma {:induction false} WalkedIsRootChain(docs: map<Id, Row>, tx: Tx, start: Id, kind: string, locale: string)
    requires Walked(docs, tx, start, None, kind, locale)
    ensures IsRootChain(Par(docs), tx.path) && tx.path[0] == start
    ensures start in docs && docs[start].kind == kind && docs[start].locale == locale
  {
  }

  /** A walked path lies in the locked rows, so it avoids what anybody else holds. */
  lemma {:induction false} PathApart(docs: map<Id, Row>, tx: Tx, start: Id, kind: string, locale: string, held: set<Id>, c: Id)
    requires Walked(docs, tx, start, None, kind, locale) && tx.held.Keys !! held && c in held
    ensures c !in tx.path
  {
  }

  // ---------- The mirror ----------

  /** Rewriting one document's rows leaves the mirror exact for the tables with that document. */
  lemma {:induction false} SyncKeepsMirror(reg: Registry, db: Db, docs2: map<Id, Row>, id: Id)
    requires Mirrored(reg, db)
    requires id in docs2 && docs2[id].kind in reg
    requires forall v :: v != id ==> (v in docs2 <==> v in db.docs)
    requires forall v :: v != id && v in docs2 ==> docs2[v] == db.docs[v]
    requires AddedMediaExist(db, id, Uses(reg[docs2[id].kind], docs2[id].state.blocks, docs2[id].state.meta))
    ensures var uses := Uses(reg[docs2[id].kind], docs2[id].state.blocks, docs2[id].state.meta);
            Mirrored(reg, db.(docs := docs2, mirror := Synced(db.mirror, id, uses)))
  {
    var uses := Uses(reg[docs2[id].kind], docs2[id].state.blocks, docs2[id].state.meta);
    var mirror2 := Synced(db.mirror, id, uses);
    forall m: MirrorRow
      ensures m in mirror2 <==>
              m.content in docs2 && docs2[m.content].kind in reg &&
              m.use in Uses(reg[docs2[m.content].kind], docs2[m.content].state.blocks, docs2[m.content].state.meta)
    {
      if m.content == id {
        assert m == MirrorRow(id, m.use);
      }
    }
    forall m | m in mirror2
      ensures m.use.media in db.media
    {
      if m.content == id {
        assert m.use in uses && m == MirrorRow(id, m.use);
      }
    }
  }

  ghost predicate MirrorDependsOnly(db: Db, db2: Db) {
    db2.docs == db.docs && db2.mirror == db.mirror && db2.media == db.media
  }

  lemma {:induction false} MirrorFrame(reg: Registry, db: Db, db2: Db)
    requires Mirrored(reg, db) && MirrorDependsOnly(db, db2)
    ensures Mirrored(reg, db2)
  {
  }

  // ---------- History ----------

  lemma {:induction false} RecordingKeepsHistory(row: Row, h: set<Revision>, createdAt: int, row2: Row)
    requires HistoryOk(row, h) && row2.version == row.version + 1
    ensures HistoryOk(row2, Revisions.Recorded(h, RevisionOf(row, createdAt)))
  {
    var all := h + {RevisionOf(row, createdAt)};
    Revisions.OrdersRank(all);
    Revisions.TopIsBounded(all, Revisions.Later());
  }
}

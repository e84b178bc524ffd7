/** The ancestor walk inside a transaction, held against the walk by itself. */
module StoreWalks {
  import opened Prelude
  import opened Forest
  import opened ParentCheck
  import opened Store
  import opened StoreInvariants
  import opened StoreEffects
  import opened StoreTheorems
  import StoreCommitProofs

  /** The columns of the documents that the walk reads. */
  function PlacesOf(docs: map<Id, Row>): map<Id, Place> {
    map id | id in docs :: Place(docs[id].state.parent, docs[id].kind, docs[id].locale)
  }

  lemma {:induction false} SameParents(docs: map<Id, Row>)
    ensures ParentsOf(PlacesOf(docs)) == Par(docs)
  {
  }

  ghost predicate MayHang(docs: map<Id, Row>, child: Option<Id>, parent: Id, kind: string, locale: string) {
    UsableParent(PlacesOf(docs), child, parent, kind, locale)
  }

  // ---------- In every interleaving ----------

  lemma {:induction false} WalkedIsUsable(docs: map<Id, Row>, tx: Tx, id: Id, start: Id, kind: string, locale: string)
    requires Walked(docs, tx, start, None, kind, locale) && id in docs && id !in tx.path
    requires NoDeeper(Par(docs), id, tx.height) && |tx.path| + tx.height <= MAX_HIERARCHY_DEPTH
    ensures MayHang(docs, Some(id), start, kind, locale)
  {
    SameParents(docs);
    SubtreeHeightExact(Par(docs), id);
    assert IsRootChain(Par(docs), tx.path);
  }

  lemma {:induction false} WriteFactsAt(reg: Registry, run: seq<State>, events: seq<Event>, i: nat)
    requires IsRun(reg, run, events) && i < |events| && Commits(reg, run[i], events[i])
    requires run[i].txs[events[i].t].op.Update?
    ensures var tx := run[i].txs[events[i].t];
            tx.op.kind in reg && tx.pc == UpdateWrite && PcInv(reg, run[i].db, tx) && LocksHold(run[i].db, tx)
  {
    RunInv(reg, run, events, i);
    UpdateCommits(reg, run[i], events[i], run[i + 1]);
  }

  /** However transactions interleave, a document is only ever moved under a usable parent. */
  lemma {:induction false} MovesOnlyUnderUsable(reg: Registry, run: seq<State>, events: seq<Event>, i: nat)
    requires IsRun(reg, run, events) && i < |events| && Commits(reg, run[i], events[i])
    requires run[i].txs[events[i].t].op.Update?
    ensures var id, docs, docs2 := run[i].txs[events[i].t].op.id, run[i].db.docs, run[i + 1].db.docs;
            && id in docs && id in docs2
            && (Moves(docs2[id].state, docs[id]) ==>
                  MayHang(docs, Some(id), docs2[id].state.parent.value, docs[id].kind, docs[id].locale))
  {
    var tx := run[i].txs[events[i].t];
    NoLostUpdate(reg, run, events, i);
    WriteFactsAt(reg, run, events, i);
    StoreCommitProofs.WriteFacts(reg, run[i].db, tx);
    var row := run[i].db.docs[tx.op.id];
    var next := NextOf(reg, tx.op, row).value;
    if Moves(next, row) {
      WalkedIsUsable(run[i].db.docs, tx, tx.op.id, next.parent.value, row.kind, row.locale);
    }
  }

  // ---------- By itself ----------

  /** Nobody else holds a row or a group. */
  ghost predicate Uncontended(s: State, t: TxId) {
    forall u :: u in s.txs && u != t ==> s.txs[u].held == map[] && s.txs[u].group.None?
  }

  /** `t` taking up to `n` statements with nobody in its way; `None` when it is refused. */
  function Solo(reg: Registry, s: State, t: TxId, tx: Tx, n: nat): Option<Tx>
    decreases n
  {
    if n == 0 then Some(tx)
    else
      match StepTx(reg, s, t, tx, 0)
      case Blocked => Some(tx)
      case Goto(tx2) => Solo(reg, s, t, tx2, n - 1)
      case Stop(_) => None
  }

  /** The rows already walked lead on, by way of `cursor`, to a root with room below it. */
  ghost predicate LeadsOn(p: Parents, child: Option<Id>, walk: seq<Id>, cursor: Option<Id>) {
    exists path :: IsWayUp(p, child, walk, cursor, path)
  }

  ghost predicate IsWayUp(p: Parents, child: Option<Id>, walk: seq<Id>, cursor: Option<Id>, path: seq<Id>) {
    && IsRootChain(p, path) && |walk| <= |path| && path[..|walk|] == walk
    && (if cursor.Some? then |walk| < |path| && path[|walk|] == cursor.value else path == walk)
    && (child.Some? ==> child.value !in path)
    && |path| + HeightOf(p, child) <= MAX_HIERARCHY_DEPTH
  }

  lemma {:induction false} HeightPositive(p: Parents, child: Option<Id>)
    requires child.Some? ==> child.value in p
    ensures HeightOf(p, child) >= 1
  {
    if child.Some? {
      SubtreeHeightExact(p, child.value);
    }
  }

  lemma {:induction false} OneRowOn(p: Parents, child: Option<Id>, walk: seq<Id>, cursor: Id)
    requires cursor in p
    ensures LeadsOn(p, child, walk, Some(cursor)) <==> LeadsOn(p, child, walk + [cursor], p[cursor])
  {
    forall path
      ensures IsWayUp(p, child, walk, Some(cursor), path) <==> IsWayUp(p, child, walk + [cursor], p[cursor], path)
    {
      OneRowOnPath(p, child, walk, cursor, path);
    }
  }

  lemma {:induction false} OneRowOnPath(p: Parents, child: Option<Id>, walk: seq<Id>, cursor: Id, path: seq<Id>)
    requires cursor in p
    ensures IsWayUp(p, child, walk, Some(cursor), path) <==> IsWayUp(p, child, walk + [cursor], p[cursor], path)
  {
    var n := |walk|;
    if n < |path| {
      assert path[..n + 1] == path[..n] + [path[n]];
      assert (walk + [cursor])[..n] == walk && (walk + [cursor])[n] == cursor;
      if IsWayUp(p, child, walk, Some(cursor), path) {
        if n + 1 < |path| {
          assert p[path[n]] == Some(path[n + 1]);
        } else {
          assert path[..n + 1] == path;
        }
      }
    }
  }

  /** At the end of the walk it is all a matter of depth. */
  lemma {:induction false} AtTheRoot(p: Parents, child: Option<Id>, walk: seq<Id>)
    requires IsRootChain(p, walk) && (child.Some? ==> child.value !in walk)
    ensures LeadsOn(p, child, walk, None) <==> |walk| + HeightOf(p, child) <= MAX_HIERARCHY_DEPTH
  {
    if |walk| + HeightOf(p, child) <= MAX_HIERARCHY_DEPTH {
      assert walk[..|walk|] == walk;
      assert IsWayUp(p, child, walk, None, walk);
    }
  }

  lemma {:induction false} NoWayThrough(p: Parents, child: Option<Id>, walk: seq<Id>, cursor: Id)
    requires child.Some? ==> child.value in p
    requires child == Some(cursor) || |walk| > MAX_HIERARCHY_DEPTH || cursor !in p
    ensures !LeadsOn(p, child, walk, Some(cursor))
  {
    HeightPositive(p, child);
    forall path
      ensures !IsWayUp(p, child, walk, Some(cursor), path)
    {
      assert |walk| < |path| ==> path[|walk|] in path;
    }
  }

  lemma {:induction false} UsableIsAWayUp(docs: map<Id, Row>, child: Option<Id>, parent: Id, kind: string, locale: string)
    ensures MayHang(docs, child, parent, kind, locale) <==>
            && parent in docs && docs[parent].kind == kind && docs[parent].locale == locale
            && LeadsOn(Par(docs), child, [], Some(parent))
  {
    SameParents(docs);
    if MayHang(docs, child, parent, kind, locale) {
      var path :|
        && IsRootChain(Par(docs), path) && path[0] == parent
        && (child.Some? ==> child.value !in path)
        && |path| + HeightOf(Par(docs), child) <= MAX_HIERARCHY_DEPTH;
      assert IsWayUp(Par(docs), child, [], Some(parent), path);
    }
    if LeadsOn(Par(docs), child, [], Some(parent)) {
      var path :| IsWayUp(Par(docs), child, [], Some(parent), path);
      assert path[0] == parent;
    }
  }

  // ---------- One round of the walk ----------

  /** What is still to be found out when the walk stands at `cursor`. */
  ghost predicate StillUsable(docs: map<Id, Row>, child: Option<Id>, walk: seq<Id>, cursor: Id, kind: string, locale: string) {
    && (walk == [] && cursor in docs ==> docs[cursor].kind == kind && docs[cursor].locale == locale)
    && LeadsOn(Par(docs), child, walk, Some(cursor))
  }

  ghost predicate Walking(docs: map<Id, Row>, child: Option<Id>, walk: seq<Id>, cursor: Option<Id>) {
    && IsChain(Par(docs), walk) && (child.Some? ==> child.value in docs && child.value !in walk)
    && (walk != [] ==> docs[walk[|walk| - 1]].state.parent == cursor)
    && (walk == [] ==> cursor.Some?)
  }

  lemma {:induction false} Round(s: State, t: TxId, tx: Tx, child: Option<Id>, kind: string, locale: string, cursor: Id)
    requires Uncontended(s, t) && Walking(s.db.docs, child, tx.path, Some(cursor))
    ensures var w := WalkStep(s, t, tx, child, kind, locale, cursor);
            && !w.WalkBlocked?
            && (w.WalkRefused? ==> !StillUsable(s.db.docs, child, tx.path, cursor, kind, locale))
            && (w.WalkTo? ==>
                  && cursor in s.db.docs && w.cursor == s.db.docs[cursor].state.parent && |tx.path| <= MAX_HIERARCHY_DEPTH
                  && w.tx == tx.(held := tx.held[cursor := s.db.docs[cursor]], path := tx.path + [cursor])
                  && Walking(s.db.docs, child, w.tx.path, w.cursor)
                  && (StillUsable(s.db.docs, child, tx.path, cursor, kind, locale) <==>
                        LeadsOn(Par(s.db.docs), child, w.tx.path, w.cursor)))
  {
    var p := Par(s.db.docs);
    if child == Some(cursor) || |tx.path| > MAX_HIERARCHY_DEPTH || cursor !in s.db.docs {
      NoWayThrough(p, child, tx.path, cursor);
    } else {
      assert RowFree(s, t, cursor);
      OneRowOn(p, child, tx.path, cursor);
      LongerWalk(s.db.docs, child, tx.path, cursor);
    }
  }

  lemma {:induction false} LongerWalk(docs: map<Id, Row>, child: Option<Id>, walk: seq<Id>, cursor: Id)
    requires Walking(docs, child, walk, Some(cursor)) && cursor in docs && child != Some(cursor)
    ensures Walking(docs, child, walk + [cursor], docs[cursor].state.parent)
  {
    var longer := walk + [cursor];
    forall i | 0 <= i < |longer| - 1
      ensures Par(docs)[longer[i]] == Some(longer[i + 1])
    {
      if i < |walk| - 1 {
        assert Par(docs)[walk[i]] == Some(walk[i + 1]);
      }
    }
  }

  // ---------- The whole walk ----------

  lemma {:induction false} MoveRound(reg: Registry, s: State, t: TxId, tx: Tx, n: nat)
    requires tx.op.Update? && tx.op.kind in reg && tx.pc.UpdateWalk? && tx.op.id in tx.held && n > 0
    ensures var row := tx.held[tx.op.id];
            var w := WalkStep(s, t, tx, Some(tx.op.id), row.kind, row.locale, tx.pc.cursor);
            && (w.WalkRefused? ==> Solo(reg, s, t, tx, n).None?)
            && (w.WalkTo? ==>
                  var tx2 := w.tx.(pc := if w.cursor.Some? then UpdateWalk(w.cursor.value) else UpdateMeasure);
                  Solo(reg, s, t, tx, n) == Solo(reg, s, t, tx2, n - 1))
  {
  }

  ghost predicate EndsAtWrite(tx: Tx, end: Option<Tx>)
    requires tx.op.Update? && tx.op.id in tx.held
  {
    end.Some? ==> end.value.pc == UpdateWrite && end.value.op == tx.op
                  && tx.op.id in end.value.held && end.value.held[tx.op.id] == tx.held[tx.op.id]
  }

  lemma {:induction false} MoveWalksOn(reg: Registry, s: State, t: TxId, tx: Tx, n: nat)
    requires tx.op.Update? && tx.op.kind in reg && tx.pc.UpdateWalk? && tx.op.id in tx.held && tx.op.id in s.db.docs
    requires Uncontended(s, t) && Walking(s.db.docs, Some(tx.op.id), tx.path, Some(tx.pc.cursor))
    requires tx.held[tx.op.id] == s.db.docs[tx.op.id] && n + |tx.path| >= 12 && |tx.path| <= 9
    ensures var row, end := tx.held[tx.op.id], Solo(reg, s, t, tx, n);
            && (end.Some? <==> StillUsable(s.db.docs, Some(tx.op.id), tx.path, tx.pc.cursor, row.kind, row.locale))
            && EndsAtWrite(tx, end)
    decreases n
  {
    var id, row := tx.op.id, tx.held[tx.op.id];
    Round(s, t, tx, Some(id), row.kind, row.locale, tx.pc.cursor);
    MoveRound(reg, s, t, tx, n);
    var w := WalkStep(s, t, tx, Some(id), row.kind, row.locale, tx.pc.cursor);
    if w.WalkTo? {
      if w.cursor.Some? {
        MoveWalksOn(reg, s, t, w.tx.(pc := UpdateWalk(w.cursor.value)), n - 1);
      } else {
        AtTheRoot(Par(s.db.docs), Some(id), w.tx.path);
        MeasureEnds(reg, s, t, w.tx.(pc := UpdateMeasure), n - 1);
      }
    }
  }

  lemma {:induction false} MeasureEnds(reg: Registry, s: State, t: TxId, tx: Tx, n: nat)
    requires tx.op.Update? && tx.op.kind in reg && tx.pc.UpdateMeasure? && n >= 2
    ensures var end := Solo(reg, s, t, tx, n);
            && (end.Some? <==> |tx.path| + SubtreeHeight(Par(s.db.docs), tx.op.id) <= MAX_HIERARCHY_DEPTH)
            && (end.Some? ==> end.value.pc == UpdateWrite && end.value.op == tx.op && end.value.held == tx.held)
  {
    var height := SubtreeHeight(Par(s.db.docs), tx.op.id);
    if |tx.path| + height <= MAX_HIERARCHY_DEPTH {
      StaysPut(reg, s, t, tx.(height := height, pc := UpdateWrite), n - 1);
    }
  }

  /** A transaction that has come to its writing statement takes no other. */
  lemma {:induction false} StaysPut(reg: Registry, s: State, t: TxId, tx: Tx, n: nat)
    requires (tx.op.Update? && tx.pc == UpdateWrite) || (tx.op.Create? && tx.pc == CreateInsert)
    ensures Solo(reg, s, t, tx, n) == Some(tx)
  {
  }

  lemma {:induction false} CreateWalksOn(reg: Registry, s: State, t: TxId, tx: Tx, n: nat)
    requires tx.op.Create? && tx.op.kind in reg && tx.pc.CreateWalk?
    requires Uncontended(s, t) && Walking(s.db.docs, None, tx.path, Some(tx.pc.cursor))
    requires n + |tx.path| >= 12 && |tx.path| <= 9
    ensures var end := Solo(reg, s, t, tx, n);
            && (end.Some? <==> StillUsable(s.db.docs, None, tx.path, tx.pc.cursor, tx.op.kind, tx.op.locale))
            && (end.Some? ==> end.value.pc == CreateInsert && end.value.op == tx.op)
    decreases n
  {
    Round(s, t, tx, None, tx.op.kind, tx.op.locale, tx.pc.cursor);
    var w := WalkStep(s, t, tx, None, tx.op.kind, tx.op.locale, tx.pc.cursor);
    if w.WalkTo? {
      if w.cursor.Some? {
        CreateWalksOn(reg, s, t, w.tx.(pc := CreateWalk(w.cursor.value)), n - 1);
      } else {
        AtTheRoot(Par(s.db.docs), None, w.tx.path);
        StaysPut(reg, s, t, w.tx.(pc := CreateInsert), n - 1);
      }
    }
  }
}

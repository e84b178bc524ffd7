/** Runs that do reach the states the theorems warn of, from an empty repository. */
module StoreExamples {
  import opened Prelude
  import opened Access
  import opened ContentModel
  import opened MediaReferences
  import opened Store
  import opened StoreTheorems
  import opened StoreProgress
  import Revisions

  // ---------- One editor and one kind of page ----------

  const EDITOR: Actor := Actor({"content:edit"}, Some(0))

  const PAGES: ContentType := ContentType("page", true, (o: Operation) => OperationAccess("content:edit", None),
                                          (s: DocState) => true, (m: Meta) => [])

  const REG: Registry := map["page" := PAGES]

  function Draft(slug: string): DocState {
    DocState(slug, "", None, Access.Draft, [], map[], None, None)
  }

  function Creating(slug: string): Op {
    Create(EDITOR, "page", "en", None, Draft(slug), 0)
  }

  /** A save that puts the document under `parent`, or changes nothing. */
  function Saving(id: Id, parent: Option<Id>): Op {
    Update(EDITOR, "page", id,
           Patch(None, None, Undefined, None, None, None, Undefined, if parent.Some? then Value(parent.value) else Undefined),
           false, None, 0)
  }

  function NewRow(slug: string, g: Id, at: int): Row {
    Row("page", "en", g, Some(0), Draft(slug), 1, at)
  }

  lemma {:induction false} EditorMay(current: Option<Status>, owner: Option<Id>)
    ensures CanWrite(PAGES.access, current, Access.Draft, EDITOR, owner)
  {
  }

  lemma {:induction false} NamesNothing(s: DocState)
    requires s.blocks == []
    ensures Uses(PAGES, s.blocks, s.meta) == {}
  {
  }

  // ---------- Runs ----------

  ghost predicate Reaches(run: seq<State>, events: seq<Event>, s: State) {
    IsRun(REG, run, events) && run[|run| - 1] == s
  }

  ghost predicate Reachable(s: State) {
    exists run, events :: Reaches(run, events, s)
  }

  lemma {:induction false} GoesOn(run: seq<State>, events: seq<Event>, s: State, e: Event, s2: State)
    requires Reaches(run, events, s) && Apply(REG, s, e) == Some(s2)
    ensures Reaches(run + [s2], events + [e], s2)
  {
  }

  lemma {:induction false} Next(s: State, e: Event, s2: State)
    requires Reachable(s) && Apply(REG, s, e) == Some(s2)
    ensures Reachable(s2)
  {
    var run, events :| Reaches(run, events, s);
    GoesOn(run, events, s, e, s2);
  }

  lemma {:induction false} StartIsReachable(clock: int)
    ensures Reachable(Init(clock))
  {
    assert Reaches([Init(clock)], [], Init(clock));
  }

  /** Nobody is writing; the documents are `docs`, as far as anything here needs to know. */
  ghost predicate Quiet(s: State, docs: map<Id, Row>, history: map<Id, set<Revision>>, clock: int) {
    && Reachable(s) && s.txs == map[] && s.db.docs == docs && s.db.history == history && s.clock == clock
  }

  lemma {:induction false} InsertCommits(s: State, t: TxId, slug: string, id: Id, g: Id)
    requires t in s.txs && s.txs[t] == FirstTx(s, Creating(slug))
    requires id !in s.db.usedDocs && g !in s.db.usedGroups
    requires forall v :: v in s.db.docs ==> s.db.docs[v].state.slug != slug
    ensures var c := CommitCreate(REG, s, s.txs[t], id, g);
            && c.Commit? && c.db.docs == s.db.docs[id := NewRow(slug, g, s.clock)]
            && c.db.history == s.db.history[id := {}]
            && c.db.usedDocs == s.db.usedDocs + {id} && c.db.usedGroups == s.db.usedGroups + {g}
  {
    NamesNothing(Draft(slug));
  }

  /** A document is created with nobody else about. */
  lemma {:induction false} Creates(s: State, t: TxId, clock: int, slug: string, id: Id, g: Id) returns (s2: State)
    requires Reachable(s) && s.txs == map[] && t !in s.outcomes && s.clock <= clock
    requires id !in s.db.usedDocs && g !in s.db.usedGroups
    requires forall v :: v in s.db.docs ==> s.db.docs[v].state.slug != slug
    ensures Quiet(s2, s.db.docs[id := NewRow(slug, g, clock)], s.db.history[id := {}], clock)
    ensures s2.outcomes.Keys == s.outcomes.Keys + {t}
    ensures s2.db.usedDocs == s.db.usedDocs + {id} && s2.db.usedGroups == s.db.usedGroups + {g}
  {
    var s0 := s.(clock := clock);
    Next(s, Tick(clock), s0);
    EditorMay(None, None);
    var s1 := Began(s0, t, Creating(slug));
    Next(s0, Begin(t, Creating(slug)), s1);
    InsertCommits(s1, t, slug, id, g);
    var c := CommitCreate(REG, s1, s1.txs[t], id, g);
    s2 := Ended(s1, t, c.db, c.outcome);
    Next(s1, Finish(t, id, g), s2);
  }

  // ---------- Saves ----------

  function Waiting(op: Op, startedAt: int): Tx {
    Tx(op, FirstPc(op), startedAt, map[], None, {}, [], 0)
  }

  /** A page as it was created, but for its version and instant. */
  ghost predicate IsPage(row: Row) {
    row.kind == "page" && row.state == Draft(row.state.slug)
  }

  function Saved(row: Row, clock: int): Row {
    row.(version := row.version + 1, updatedAt := Millis(clock))
  }

  lemma {:induction false} SavesNothing(row: Row)
    requires IsPage(row)
    ensures NextOf(REG, Saving(0, None), row) == Some(row.state)
  {
  }

  lemma {:induction false} Locks(s: State, t: TxId, id: Id, startedAt: int)
    requires t in s.txs && s.txs[t] == Waiting(Saving(id, None), startedAt)
    requires RowFree(s, t, id) && id in s.db.docs && IsPage(s.db.docs[id])
    ensures var tx := s.txs[t].(held := map[id := s.db.docs[id]], pc := UpdateWrite);
            Apply(REG, s, Advance(t, 0)) == Some(s.(txs := s.txs[t := tx]))
  {
    var row := s.db.docs[id];
    SavesNothing(row);
    EditorMay(Some(row.state.status), row.author);
    assert NextOf(REG, Saving(id, None), row) == Some(row.state);
  }

  lemma {:induction false} Writes(s: State, t: TxId, id: Id, startedAt: int)
    requires t in s.txs && id in s.db.docs && IsPage(s.db.docs[id])
    requires s.txs[t] == Waiting(Saving(id, None), startedAt).(held := map[id := s.db.docs[id]], pc := UpdateWrite)
    requires forall v :: v in s.db.docs && v != id ==> s.db.docs[v].state.slug != s.db.docs[id].state.slug
    ensures var c, row := CommitUpdate(REG, s, s.txs[t]), s.db.docs[id];
            && c.Commit? && c.db.docs == s.db.docs[id := Saved(row, s.clock)]
            && c.db.history == s.db.history[id := Revisions.Recorded(HistoryOf(s.db, id), RevisionOf(row, startedAt))]
  {
    var row := s.db.docs[id];
    SavesNothing(row);
    assert NextOf(REG, Saving(id, None), row) == Some(row.state);
    NamesNothing(row.state);
  }

  /** A save that has begun is carried through, while nobody else holds anything. */
  lemma {:induction false} Saves(s: State, t: TxId, id: Id, startedAt: int) returns (s2: State)
    requires Reachable(s) && t in s.txs && s.txs[t] == Waiting(Saving(id, None), startedAt)
    requires forall u :: u in s.txs ==> s.txs[u].held == map[]
    requires id in s.db.docs && IsPage(s.db.docs[id])
    requires forall v :: v in s.db.docs && v != id ==> s.db.docs[v].state.slug != s.db.docs[id].state.slug
    ensures Reachable(s2) && s2.txs == s.txs - {t} && s2.clock == s.clock && s2.outcomes.Keys == s.outcomes.Keys + {t}
    ensures s2.db.docs == s.db.docs[id := Saved(s.db.docs[id], s.clock)]
    ensures s2.db.history == s.db.history[id := Revisions.Recorded(HistoryOf(s.db, id), RevisionOf(s.db.docs[id], startedAt))]
  {
    assert RowFree(s, t, id);
    Locks(s, t, id, startedAt);
    var s1 := s.(txs := s.txs[t := s.txs[t].(held := map[id := s.db.docs[id]], pc := UpdateWrite)]);
    Next(s, Advance(t, 0), s1);
    Writes(s1, t, id, startedAt);
    var c := CommitUpdate(REG, s1, s1.txs[t]);
    s2 := Ended(s1, t, c.db, c.outcome);
    Next(s1, Finish(t, 0, 0), s2);
  }

  /** A save begins at the given time. */
  lemma {:induction false} Begins(s: State, t: TxId, clock: int, op: Op) returns (s2: State)
    requires Reachable(s) && t !in s.txs && t !in s.outcomes && s.clock <= clock && op.Update? && !op.isRestore && op.kind == "page"
    ensures Reachable(s2) && s2 == s.(clock := clock, txs := s.txs[t := Waiting(op, clock)])
  {
    var s1 := s.(clock := clock);
    Next(s, Tick(clock), s1);
    s2 := s1.(txs := s1.txs[t := Waiting(op, clock)]);
    Next(s1, Begin(t, op), s2);
  }

  // ---------- Writers who commit in the other order than they began ----------

  /** Page 1 has been saved `n` times, the first two times by writers who overtook each other. */
  ghost predicate SavedTimes(s: State, n: nat) {
    && Reachable(s) && s.txs == map[] && s.clock <= 1000 * n
    && s.db.docs.Keys == {1} && IsPage(s.db.docs[1]) && s.db.docs[1].version == n + 1 && s.db.docs[1].author == Some(0)
    && s.db.docs[1].state == Draft("a")
    && s.db.history.Keys == {1} && s.db.history[1] == Revisions.SwappedHistory(Some(0), Draft("a"), n)
    && forall t :: t in s.outcomes ==> t <= n
  }

  lemma {:induction false} TwoBegin() returns (s: State)
    ensures Reachable(s) && s.clock == 2000 && s.outcomes.Keys == {0}
    ensures s.txs == map[1 := Waiting(Saving(1, None), 1000), 2 := Waiting(Saving(1, None), 2000)]
    ensures s.db.docs == map[1 := NewRow("a", 1, 0)] && s.db.history == map[1 := {}]
  {
    StartIsReachable(0);
    s := Creates(Init(0), 0, 0, "a", 1, 1);
    s := Begins(s, 1, 1000, Saving(1, None));
    s := Begins(s, 2, 2000, Saving(1, None));
  }

  lemma {:induction false} SecondCommitsFirst() returns (s: State)
    ensures Reachable(s) && s.clock == 2000 && s.outcomes.Keys == {0, 2}
    ensures s.txs == map[1 := Waiting(Saving(1, None), 1000)]
    ensures s.db.docs == map[1 := NewRow("a", 1, 0).(version := 2, updatedAt := 2000)]
    ensures s.db.history == map[1 := Revisions.SwappedHistory(Some(0), Draft("a"), 1)]
  {
    s := TwoBegin();
    s := Saves(s, 2, 1, 2000);
    assert Revisions.SwappedHistory(Some(0), Draft("a"), 0) == {};
    Revisions.SwappedGrows(Some(0), Draft("a"), 1);
  }

  lemma {:induction false} Overtaking() returns (s: State)
    ensures SavedTimes(s, 2)
  {
    s := SecondCommitsFirst();
    s := Saves(s, 1, 1, 1000);
    Revisions.SwappedGrows(Some(0), Draft("a"), 2);
  }

  lemma {:induction false} OneMoreSave(s: State, n: nat) returns (s2: State)
    requires SavedTimes(s, n) && 2 <= n <= 50
    ensures Reachable(s2) && s2.txs == map[] && s2.clock == 1000 * (n + 1) && (forall t :: t in s2.outcomes ==> t <= n + 1)
    ensures s2.db.docs == map[1 := Saved(s.db.docs[1], 1000 * (n + 1))]
    ensures s2.db.history == map[1 := Revisions.Recorded(s.db.history[1], Revision(n + 1, 1000 * (n + 1), Some(0), Draft("a")))]
  {
    s2 := Begins(s, n + 1, 1000 * (n + 1), Saving(1, None));
    s2 := Saves(s2, n + 1, 1, 1000 * (n + 1));
    assert s2.txs == map[];
  }

  lemma {:induction false} ManySaves(n: nat) returns (s: State)
    requires 2 <= n <= 50
    ensures SavedTimes(s, n)
  {
    if n == 2 {
      s := Overtaking();
    } else {
      var before := ManySaves(n - 1);
      s := OneMoreSave(before, n - 1);
      Revisions.SwappedGrows(Some(0), Draft("a"), n);
    }
  }

  /**
   * The repository does come to a state in which pruning has kept the first version of a
   * document and dropped its second.
   */
  lemma {:induction false} HistoryCanHaveAGap() returns (s: State)
    ensures Reachable(s) && 1 in s.db.docs && s.db.docs[1].version == 52
    ensures var kept := HistoryOf(s.db, 1);
            && (exists r :: r in kept && r.version == 1) && (forall r :: r in kept ==> r.version != 2)
            && !Revisions.HoldsNewest(kept, 52)
  {
    var before := ManySaves(50);
    s := OneMoreSave(before, 50);
    Revisions.SwappedWritersLeaveAGap(Some(0), Draft("a"));
  }

  // ---------- Two documents hung under one another ----------

  lemma {:induction false} MovesUnder(row: Row, parent: Id)
    requires IsPage(row)
    ensures NextOf(REG, Saving(0, Some(parent)), row) == Some(row.state.(parent := Some(parent)))
  {
  }

  /** A save that moves a page locks it and turns to the new parent. */
  lemma {:induction false} LocksToMove(s: State, t: TxId, id: Id, parent: Id, startedAt: int) returns (s2: State)
    requires Reachable(s) && t in s.txs && s.txs[t] == Waiting(Saving(id, Some(parent)), startedAt)
    requires RowFree(s, t, id) && id in s.db.docs && IsPage(s.db.docs[id])
    ensures Reachable(s2)
    ensures s2 == s.(txs := s.txs[t := s.txs[t].(held := map[id := s.db.docs[id]], pc := UpdateWalk(parent))])
  {
    var row := s.db.docs[id];
    MovesUnder(row, parent);
    EditorMay(Some(row.state.status), row.author);
    assert NextOf(REG, Saving(id, Some(parent)), row) == Some(row.state.(parent := Some(parent)));
    s2 := s.(txs := s.txs[t := s.txs[t].(held := map[id := row], pc := UpdateWalk(parent))]);
    Next(s, Advance(t, 0), s2);
  }

  /** The repository does come to a state in which only an abort helps either of two saves. */
  lemma {:induction false} OppositeMovesHappen() returns (s: State)
    ensures Reachable(s) && HeldCrosswise(s, 2, 3)
    ensures forall e :: Apply(REG, s, e).Some? ==>
              var s2 := Apply(REG, s, e).value;
              && ((2 !in s2.txs || s2.txs[2] != s.txs[2]) ==> e == Abort(2))
              && ((3 !in s2.txs || s2.txs[3] != s.txs[3]) ==> e == Abort(3))
  {
    StartIsReachable(0);
    s := Creates(Init(0), 0, 0, "a", 1, 1);
    s := Creates(s, 1, 0, "b", 2, 2);
    s := Begins(s, 2, 0, Saving(1, Some(2)));
    s := Begins(s, 3, 0, Saving(2, Some(1)));
    s := LocksToMove(s, 2, 1, 2, 0);
    s := LocksToMove(s, 3, 2, 1, 0);
    forall e | Apply(REG, s, e).Some?
      ensures var s2 := Apply(REG, s, e).value;
              && ((2 !in s2.txs || s2.txs[2] != s.txs[2]) ==> e == Abort(2))
              && ((3 !in s2.txs || s2.txs[3] != s.txs[3]) ==> e == Abort(3))
    {
      OppositeMovesOnlyAbort(REG, s, 2, 3, e);
    }
  }
}

/** The repository's promises, over every interleaving of every set of transactions. */
module StoreTheorems {
  import opened Prelude
  import opened Access
  import opened ContentModel
  import opened Forest
  import opened MediaReferences
  import opened Store
  import opened StoreInvariants
  import opened StoreEffects
  import StoreSafety
  import StoreCommitProofs
  import Revisions
  import Blocks

  /** A history of an installation: it starts empty, and each event was possible when it happened. */
  ghost predicate IsRun(reg: Registry, run: seq<State>, events: seq<Event>) {
    && (forall k :: k in reg ==> reg[k].name == k)
    && |run| == |events| + 1
    && run[0] == Init(run[0].clock)
    && (forall i :: 0 <= i < |events| ==> Apply(reg, run[i], events[i]) == Some(run[i + 1]))
  }

  lemma {:induction false} RunInv(reg: Registry, run: seq<State>, events: seq<Event>, i: nat)
    requires IsRun(reg, run, events) && i < |run|
    ensures Inv(reg, run[i])
    decreases i
  {
    if i == 0 {
      InitInv(reg, run[0]);
    } else {
      RunInv(reg, run, events, i - 1);
      assert Apply(reg, run[i - 1], events[i - 1]) == Some(run[i]);
      StoreSafety.ApplyKeepsInv(reg, run[i - 1], events[i - 1]);
    }
  }

  lemma {:induction false} InitInv(reg: Registry, s: State)
    requires s == Init(s.clock) && forall k :: k in reg ==> reg[k].name == k
    ensures Inv(reg, s)
  {
    assert Par(s.db.docs) == map[];
  }

  // ---------- The page tree ----------

  /**
   * Concurrent creates, moves and deletes keep the page tree a forest: every document has a
   * root at most seven parents up, no document is its own ancestor, and a parent has its
   * child's type and language. The height of a moved subtree is read without locks.
   */
  lemma {:induction false} TreeStaysForest(reg: Registry, run: seq<State>, events: seq<Event>, i: nat, id: Id)
    requires IsRun(reg, run, events) && i < |run| && id in run[i].db.docs
    ensures WithinDepth(Par(run[i].db.docs), id, 8)
    ensures forall k: nat :: Below(Par(run[i].db.docs), id, id, k) ==> k == 1
    ensures run[i].db.docs[id].state.parent.Some? ==>
              var up := run[i].db.docs[id].state.parent.value;
              && up in run[i].db.docs
              && run[i].db.docs[up].kind == run[i].db.docs[id].kind
              && run[i].db.docs[up].locale == run[i].db.docs[id].locale
  {
    RunInv(reg, run, events, i);
    ForestAt(run[i].db.docs, id);
  }

  lemma {:induction false} ForestAt(docs: map<Id, Row>, id: Id)
    requires Placed(docs) && id in docs
    ensures WithinDepth(Par(docs), id, 8)
    ensures forall k: nat :: Below(Par(docs), id, id, k) ==> k == 1
  {
    var p := Par(docs);
    assert id in p;
    var d: nat :| d <= 8 && HasDepth(p, id, d);
    forall k: nat | Below(p, id, id, k)
      ensures k == 1
    {
      LevelWithinDepth(p, id, id, d, k);
      DepthUnique(p, id, d, d + 1 - k);
    }
  }

  // ---------- Translation groups ----------

  lemma {:induction false} GroupsStaySound(reg: Registry, run: seq<State>, events: seq<Event>, i: nat)
    requires IsRun(reg, run, events) && i < |run|
    ensures var db := run[i].db;
            && (forall g :: g in db.groups ==> exists id :: id in db.docs && db.docs[id].group == g)
            && (forall id :: id in db.docs ==>
                  db.docs[id].group in db.groups && db.groups[db.docs[id].group] == db.docs[id].kind)
            && (forall a, b :: a in db.docs && b in db.docs && a != b && db.docs[a].group == db.docs[b].group ==>
                  db.docs[a].locale != db.docs[b].locale)
  {
    RunInv(reg, run, events, i);
    var db := run[i].db;
    forall g | g in db.groups
      ensures exists id :: id in db.docs && db.docs[id].group == g
    {
      assert Members(db.docs, g) != {};
      var id :| id in Members(db.docs, g);
    }
  }

  // ---------- The media mirror ----------

  /** The mirror is exactly what the live documents name, and what they name exists. */
  lemma {:induction false} MirrorStaysExact(reg: Registry, run: seq<State>, events: seq<Event>, i: nat, id: Id, use: MediaUse)
    requires IsRun(reg, run, events) && i < |run| && id in run[i].db.docs
    ensures var row := run[i].db.docs[id];
            && row.kind in reg
            && (MirrorRow(id, use) in run[i].db.mirror <==> use in Uses(reg[row.kind], row.state.blocks, row.state.meta))
            && (use in Uses(reg[row.kind], row.state.blocks, row.state.meta) ==> use.media in run[i].db.media)
  {
    RunInv(reg, run, events, i);
    assert Mirrored(reg, run[i].db) && RowsFollowRules(reg, run[i].db.docs);
    assert MirrorRow(id, use) in run[i].db.mirror ==> MirrorRow(id, use).use.media in run[i].db.media;
  }

  // ---------- Versions ----------

  lemma {:induction false} StepEffect(reg: Registry, run: seq<State>, events: seq<Event>, i: nat, id: Id)
    requires IsRun(reg, run, events) && i < |events|
    ensures Effect(reg, run[i], run[i + 1], Writer(events[i]), id)
    ensures run[i].db.docs.Keys <= run[i].db.usedDocs && run[i].db.usedDocs <= run[i + 1].db.usedDocs
  {
    RunInv(reg, run, events, i);
    assert Apply(reg, run[i], events[i]) == Some(run[i + 1]);
    InvReady(reg, run[i], events[i]);
    EventEffect(reg, run[i], events[i], id);
    UsedGrows(reg, run[i], events[i]);
  }

  lemma {:induction false} UsedGrows(reg: Registry, s: State, e: Event)
    requires Apply(reg, s, e).Some?
    ensures s.db.usedDocs <= Apply(reg, s, e).value.db.usedDocs
  {
    OnlyCommitsWrite(reg, s, e);
  }

  /** One accepted write, one version; no write, no version. */
  lemma {:induction false} VersionsMoveByOne(reg: Registry, run: seq<State>, events: seq<Event>, i: nat, id: Id)
    requires IsRun(reg, run, events) && i < |events| && id in run[i].db.docs && id in run[i + 1].db.docs
    ensures var s, s2, t := run[i], run[i + 1], Writer(events[i]);
            if SavedBy(reg, s, s2, t, id) || PublishedBy(s, s2, t, id)
            then s2.db.docs[id].version == s.db.docs[id].version + 1
            else s2.db.docs[id].version == s.db.docs[id].version
                 && s2.db.docs[id] == s.db.docs[id].(state := s.db.docs[id].state.(parent := s2.db.docs[id].state.parent))
                 && HistoryOf(s2.db, id) == HistoryOf(s.db, id)
  {
    StepEffect(reg, run, events, i, id);
  }

  /** A document's version never goes back, and a deleted document never returns. */
  ghost predicate NeverBack(s: State, s2: State, id: Id) {
    && id in s2.db.usedDocs
    && (id in s2.db.docs ==> id in s.db.docs && s2.db.docs[id].version >= s.db.docs[id].version)
  }

  lemma {:induction false} EffectNeverBack(reg: Registry, s: State, s2: State, t: TxId, id: Id)
    requires Effect(reg, s, s2, t, id) && id in s.db.usedDocs && s.db.usedDocs <= s2.db.usedDocs
    ensures NeverBack(s, s2, id)
  {
  }

  lemma {:induction false} StepNeverBack(reg: Registry, run: seq<State>, events: seq<Event>, i: nat, id: Id)
    requires IsRun(reg, run, events) && i < |events| && id in run[i].db.usedDocs
    ensures NeverBack(run[i], run[i + 1], id)
  {
    StepEffect(reg, run, events, i, id);
    EffectNeverBack(reg, run[i], run[i + 1], Writer(events[i]), id);
  }

  lemma {:induction false} VersionsNeverGoBack(reg: Registry, run: seq<State>, events: seq<Event>, i: nat, j: nat, id: Id)
    requires IsRun(reg, run, events) && i <= j < |run| && id in run[i].db.usedDocs
    ensures NeverBack(run[i], run[j], id)
    decreases j
  {
    if i < j {
      VersionsNeverGoBack(reg, run, events, i, j - 1, id);
      StepNeverBack(reg, run, events, j - 1, id);
    }
  }

  lemma {:induction false} UpdateCommits(reg: Registry, s: State, e: Event, s2: State)
    requires Commits(reg, s, e) && s.txs[e.t].op.Update? && Apply(reg, s, e) == Some(s2)
    ensures s.txs[e.t].op.kind in reg && s.txs[e.t].pc == UpdateWrite
    ensures CommitUpdate(reg, s, s.txs[e.t]).Commit? && s2.db == CommitUpdate(reg, s, s.txs[e.t]).db
  {
  }

  lemma {:induction false} CommittedUpdate(reg: Registry, s: State, e: Event, s2: State, id: Id)
    requires Commits(reg, s, e) && s.txs[e.t].op.Update? && s.txs[e.t].op.id == id
    requires Versioned(s.db) && LocksHold(s.db, s.txs[e.t]) && PcInv(reg, s.db, s.txs[e.t])
    requires Apply(reg, s, e) == Some(s2)
    ensures SavedBy(reg, s, s2, e.t, id)
  {
    UpdateCommits(reg, s, e, s2);
    StoreCommitProofs.WriteFacts(reg, s.db, s.txs[e.t]);
    UpdateSaved(reg, s, e.t, s2);
  }

  /** A save is only ever accepted over the version it was composed against. */
  lemma {:induction false} NoLostUpdate(reg: Registry, run: seq<State>, events: seq<Event>, i: nat)
    requires IsRun(reg, run, events) && i < |events| && Commits(reg, run[i], events[i])
    requires run[i].txs[events[i].t].op.Update?
    ensures var op := run[i].txs[events[i].t].op;
            && op.id in run[i].db.docs && op.id in run[i + 1].db.docs
            && (op.expected.Some? ==> op.expected.value == run[i].db.docs[op.id].version)
            && SavedBy(reg, run[i], run[i + 1], events[i].t, op.id)
  {
    RunInv(reg, run, events, i);
    InvReady(reg, run[i], events[i]);
    assert Apply(reg, run[i], events[i]) == Some(run[i + 1]);
    CommittedUpdate(reg, run[i], events[i], run[i + 1], run[i].txs[events[i].t].op.id);
  }

  /** Once a document has moved past a version, no save composed against it is ever accepted. */
  lemma {:induction false} StaleSaveNeverCommits(reg: Registry, run: seq<State>, events: seq<Event>, i: nat, j: nat, id: Id, v: nat)
    requires IsRun(reg, run, events) && i <= j < |events|
    requires id in run[i].db.docs && run[i].db.docs[id].version > v
    requires events[j].Finish? && events[j].t in run[j].txs
    requires run[j].txs[events[j].t].op.Update? && run[j].txs[events[j].t].op.id == id
    requires run[j].txs[events[j].t].op.expected == Some(v)
    ensures !Commits(reg, run[j], events[j])
  {
    RunInv(reg, run, events, i);
    VersionsNeverGoBack(reg, run, events, i, j, id);
    if Commits(reg, run[j], events[j]) {
      NoLostUpdate(reg, run, events, j);
    }
  }

  // ---------- Scheduled publication ----------

  lemma {:induction false} PassCommits(reg: Registry, s: State, e: Event, s2: State)
    requires Commits(reg, s, e) && s.txs[e.t].op.PublishDue? && Apply(reg, s, e) == Some(s2)
    ensures s.txs[e.t].pc == PublishClaim({})
    ensures var c := CommitPublish(s, s.txs[e.t]);
            c.Commit? && s2 == Ended(s, e.t, c.db, c.outcome)
  {
  }

  lemma {:induction false} PassPublishesRow(s: State, t: TxId, s2: State, id: Id)
    requires t in s.txs && s.txs[t].op.PublishDue? && s.txs[t].pc == PublishClaim({}) && id in s.txs[t].held
    requires s2.db == CommitPublish(s, s.txs[t]).db
    requires LocksHold(s.db, s.txs[t]) && Versioned(s.db) && IsDue(s.txs[t].held[id], s.txs[t].op.now)
    ensures PublishedBy(s, s2, t, id)
  {
  }

  lemma {:induction false} PassPublishes(reg: Registry, s: State, e: Event, s2: State)
    requires Commits(reg, s, e) && s.txs[e.t].op.PublishDue?
    requires Versioned(s.db) && LocksHold(s.db, s.txs[e.t]) && PcInv(reg, s.db, s.txs[e.t])
    requires Apply(reg, s, e) == Some(s2)
    ensures e.t in s2.outcomes && s2.outcomes[e.t].PublishedSet?
    ensures s2.outcomes[e.t].published.Keys == s.txs[e.t].held.Keys
    ensures forall id :: id in s.txs[e.t].held ==>
              PublishedBy(s, s2, e.t, id) && s2.outcomes[e.t].published[id] == s2.db.docs[id].version
  {
    PassCommits(reg, s, e, s2);
    StoreCommitProofs.ClaimFacts(reg, s.db, s.txs[e.t]);
    forall id | id in s.txs[e.t].held
      ensures PublishedBy(s, s2, e.t, id)
    {
      PassPublishesRow(s, e.t, s2, id);
    }
  }

  lemma {:induction false} OthersUntouched(reg: Registry, s: State, s2: State, t: TxId, id: Id)
    requires Effect(reg, s, s2, t, id) && t in s.txs && s.txs[t].op.PublishDue?
    requires id in s.db.docs && id !in s.txs[t].held
    ensures Untouched(s, s2, id)
  {
  }

  lemma {:induction false} PassAtStep(reg: Registry, run: seq<State>, events: seq<Event>, i: nat)
    requires IsRun(reg, run, events) && i < |events| && Commits(reg, run[i], events[i])
    requires run[i].txs[events[i].t].op.PublishDue?
    ensures var s, s2, t := run[i], run[i + 1], events[i].t;
            && t in s2.outcomes && s2.outcomes[t].PublishedSet? && s2.outcomes[t].published.Keys == s.txs[t].held.Keys
            && forall id :: id in s.txs[t].held ==>
                 PublishedBy(s, s2, t, id) && s2.outcomes[t].published[id] == s2.db.docs[id].version
  {
    RunInv(reg, run, events, i);
    InvReady(reg, run[i], events[i]);
    assert Apply(reg, run[i], events[i]) == Some(run[i + 1]);
    PassPublishes(reg, run[i], events[i], run[i + 1]);
  }

  /**
   * What a pass returns is what it published: each document it names was scheduled and due,
   * and moved to `published` with one version and one revision.
   */
  lemma {:induction false} PassReturnsWhatItPublished(reg: Registry, run: seq<State>, events: seq<Event>, i: nat)
    requires IsRun(reg, run, events) && i < |events| && Commits(reg, run[i], events[i])
    requires run[i].txs[events[i].t].op.PublishDue?
    ensures var t := events[i].t;
            && t in run[i + 1].outcomes && run[i + 1].outcomes[t].PublishedSet?
            && var p := run[i + 1].outcomes[t].published;
               && (forall id :: id in p ==> PublishedBy(run[i], run[i + 1], t, id) && p[id] == run[i + 1].db.docs[id].version)
               && (forall id :: id in run[i].db.docs && id !in p ==> Untouched(run[i], run[i + 1], id))
  {
    PassAtStep(reg, run, events, i);
    forall id | id in run[i].db.docs && id !in run[i].txs[events[i].t].held
      ensures Untouched(run[i], run[i + 1], id)
    {
      StepEffect(reg, run, events, i, id);
      OthersUntouched(reg, run[i], run[i + 1], events[i].t, id);
    }
  }

  /** Two passes never return the same publication: the later one names a later version. */
  lemma {:induction false} PublishedExactlyOnce(reg: Registry, run: seq<State>, events: seq<Event>, i: nat, j: nat, id: Id)
    requires IsRun(reg, run, events) && i < j < |events|
    requires Commits(reg, run[i], events[i]) && run[i].txs[events[i].t].op.PublishDue?
    requires Commits(reg, run[j], events[j]) && run[j].txs[events[j].t].op.PublishDue?
    requires id in run[i].txs[events[i].t].held && id in run[j].txs[events[j].t].held
    ensures var p, q := run[i + 1].outcomes[events[i].t], run[j + 1].outcomes[events[j].t];
            p.PublishedSet? && q.PublishedSet? && id in p.published && id in q.published && p.published[id] < q.published[id]
  {
    PassAt(reg, run, events, i, id);
    PassAt(reg, run, events, j, id);
    VersionsNeverGoBack(reg, run, events, i + 1, j, id);
  }

  lemma {:induction false} PassAt(reg: Registry, run: seq<State>, events: seq<Event>, i: nat, id: Id)
    requires IsRun(reg, run, events) && i < |events|
    requires Commits(reg, run[i], events[i]) && run[i].txs[events[i].t].op.PublishDue?
    requires id in run[i].txs[events[i].t].held
    ensures events[i].t in run[i + 1].outcomes
    ensures var p := run[i + 1].outcomes[events[i].t];
            && PublishedBy(run[i], run[i + 1], events[i].t, id)
            && p.PublishedSet? && id in p.published && p.published[id] == run[i + 1].db.docs[id].version
            && id in run[i + 1].db.usedDocs
  {
    PassAtStep(reg, run, events, i);
    RunInv(reg, run, events, i + 1);
    assert IdsUsed(run[i + 1].db);
  }

  lemma {:induction false} ClaimStep(reg: Registry, s: State, e: Event, t: TxId, v: Id)
    requires Apply(reg, s, e).Some? && t in s.txs && t in Apply(reg, s, e).value.txs
    requires s.txs[t].op.PublishDue? && v in s.db.docs && IsDue(s.db.docs[v], s.txs[t].op.now)
    ensures var tx2 := Apply(reg, s, e).value.txs[t];
            && tx2.op == s.txs[t].op
            && (s.txs[t].pc.PublishScan? && e.Advance? && e.t == t ==> tx2.pc.PublishClaim? && v in tx2.pc.todo)
            && (s.txs[t].pc.PublishClaim? && (v in s.txs[t].pc.todo || v in s.txs[t].held) ==>
                  tx2.pc.PublishClaim? && (v in tx2.pc.todo || v in tx2.held))
  {
  }

  /** `v` is in the pass: still to be claimed, or claimed. */
  ghost predicate InPass(s: State, t: TxId, now: int, v: Id) {
    t in s.txs && s.txs[t].op == PublishDue(now) && s.txs[t].pc.PublishClaim? &&
    (v in s.txs[t].pc.todo || v in s.txs[t].held)
  }

  ghost predicate StaysDue(run: seq<State>, i: nat, j: nat, t: TxId, now: int, v: Id) {
    forall k :: i <= k <= j && k < |run| ==>
      t in run[k].txs && v in run[k].db.docs && IsDue(run[k].db.docs[v], now)
  }

  lemma {:induction false} PassStep(reg: Registry, s: State, e: Event, s2: State, t: TxId, now: int, v: Id)
    requires Apply(reg, s, e) == Some(s2) && t in s.txs && t in s2.txs
    requires v in s.db.docs && IsDue(s.db.docs[v], now)
    ensures s.txs[t].op == PublishDue(now) && s.txs[t].pc.PublishScan? && e.Advance? && e.t == t ==> InPass(s2, t, now, v)
    ensures InPass(s, t, now, v) ==> InPass(s2, t, now, v)
  {
    if s.txs[t].op == PublishDue(now) {
      ClaimStep(reg, s, e, t, v);
    }
  }

  /** A row that stays due from the scan on stays in the pass: waiting for a lock skips nothing. */
  lemma {:induction false} DueStaysInPass(reg: Registry, run: seq<State>, events: seq<Event>, i: nat, j: nat, t: TxId, now: int, v: Id)
    requires IsRun(reg, run, events) && i < j < |run| && StaysDue(run, i, j, t, now, v)
    requires t in run[i].txs && run[i].txs[t].op == PublishDue(now) && run[i].txs[t].pc.PublishScan?
    requires events[i].Advance? && events[i].t == t
    ensures InPass(run[j], t, now, v)
    decreases j
  {
    if i + 1 < j {
      DueStaysInPass(reg, run, events, i, j - 1, t, now, v);
    }
    assert Apply(reg, run[j - 1], events[j - 1]) == Some(run[j - 1 + 1]);
    PassStep(reg, run[j - 1], events[j - 1], run[j], t, now, v);
  }

  lemma {:induction false} CommitsWhenClaimed(reg: Registry, s: State, e: Event)
    requires Commits(reg, s, e) && s.txs[e.t].op.PublishDue?
    ensures s.txs[e.t].pc == PublishClaim({})
  {
  }

  /** An editor still holding the version a pass superseded is always refused. */
  lemma {:induction false} EditorRefusedAfterPublication(reg: Registry, run: seq<State>, events: seq<Event>, i: nat, j: nat, id: Id)
    requires IsRun(reg, run, events) && i < j < |events|
    requires PublishedBy(run[i], run[i + 1], Writer(events[i]), id)
    requires events[j].Finish? && events[j].t in run[j].txs
    requires run[j].txs[events[j].t].op.Update? && run[j].txs[events[j].t].op.id == id
    requires run[j].txs[events[j].t].op.expected == Some(run[i].db.docs[id].version)
    ensures !Commits(reg, run[j], events[j])
  {
    StaleSaveNeverCommits(reg, run, events, i + 1, j, id, run[i].db.docs[id].version);
  }

  // ---------- History ----------

  /** If this event records a revision of `id`, there is room for it, or the lowest version kept was recorded no later than any. */
  ghost predicate RecordsInOrder(reg: Registry, s: State, s2: State, t: TxId, id: Id) {
    SavedBy(reg, s, s2, t, id) || PublishedBy(s, s2, t, id) ==>
      || |HistoryOf(s.db, id)| < Revisions.REVISION_LIMIT
      || Revisions.LowestIsEarliest(HistoryOf(s.db, id) + {RevisionOf(s.db.docs[id], s.txs[t].startedAt)})
  }

  ghost predicate RecordedInOrder(reg: Registry, run: seq<State>, events: seq<Event>, id: Id)
    requires |run| == |events| + 1
  {
    forall i :: 0 <= i < |events| ==> RecordsInOrder(reg, run[i], run[i + 1], Writer(events[i]), id)
  }

  lemma {:induction false} HistoryIsBounded(reg: Registry, run: seq<State>, events: seq<Event>, i: nat, id: Id)
    requires IsRun(reg, run, events) && i < |run| && id in run[i].db.docs
    ensures id in run[i].db.history && |run[i].db.history[id]| <= 50
    ensures forall r :: r in run[i].db.history[id] ==> r.version < run[i].db.docs[id].version
  {
    RunInv(reg, run, events, i);
    assert Versioned(run[i].db);
    assert HistoryOk(run[i].db.docs[id], run[i].db.history[id]);
  }

  lemma {:induction false} HistoryStep(reg: Registry, s: State, s2: State, t: TxId, id: Id)
    requires Effect(reg, s, s2, t, id) && RecordsInOrder(reg, s, s2, t, id) && id in s2.db.docs
    requires id in s.db.docs ==>
      s.db.docs[id].version >= 1 && Revisions.HoldsNewest(HistoryOf(s.db, id), s.db.docs[id].version)
    ensures Revisions.HoldsNewest(HistoryOf(s2.db, id), s2.db.docs[id].version)
  {
    if SavedBy(reg, s, s2, t, id) || PublishedBy(s, s2, t, id) {
      Revisions.RecordingKeepsNewestIff(HistoryOf(s.db, id), RevisionOf(s.db.docs[id], s.txs[t].startedAt));
    }
  }

  lemma {:induction false} HistoryGrows(reg: Registry, run: seq<State>, events: seq<Event>, i: nat, id: Id)
    requires IsRun(reg, run, events) && i < |events| && RecordedInOrder(reg, run, events, id) && id in run[i + 1].db.docs
    requires id in run[i].db.docs ==> Revisions.HoldsNewest(HistoryOf(run[i].db, id), run[i].db.docs[id].version)
    ensures Revisions.HoldsNewest(HistoryOf(run[i + 1].db, id), run[i + 1].db.docs[id].version)
  {
    StepEffect(reg, run, events, i, id);
    if id in run[i].db.docs {
      RunVersionPositive(reg, run, events, i, id);
    }
    HistoryStep(reg, run[i], run[i + 1], Writer(events[i]), id);
  }

  /** Recorded in order, the history is exactly the last fifty superseded versions. */
  lemma {:induction false} HistoryIsTheNewest(reg: Registry, run: seq<State>, events: seq<Event>, i: nat, id: Id)
    requires IsRun(reg, run, events) && i < |run| && id in run[i].db.docs
    requires RecordedInOrder(reg, run, events, id)
    ensures Revisions.HoldsNewest(HistoryOf(run[i].db, id), run[i].db.docs[id].version)
    decreases i
  {
    if i > 0 {
      if id in run[i - 1].db.docs {
        HistoryIsTheNewest(reg, run, events, i - 1, id);
      }
      HistoryGrows(reg, run, events, i - 1, id);
    }
  }

  lemma {:induction false} NewestRecordsInOrder(reg: Registry, s: State, s2: State, t: TxId, id: Id)
    requires id in s.db.docs ==>
      s.db.docs[id].version >= 1 && Revisions.HoldsNewest(HistoryOf(s.db, id), s.db.docs[id].version)
    requires id in s2.db.docs ==> Revisions.HoldsNewest(HistoryOf(s2.db, id), s2.db.docs[id].version)
    ensures RecordsInOrder(reg, s, s2, t, id)
  {
    if SavedBy(reg, s, s2, t, id) || PublishedBy(s, s2, t, id) {
      Revisions.RecordingKeepsNewestIff(HistoryOf(s.db, id), RevisionOf(s.db.docs[id], s.txs[t].startedAt));
    }
  }

  /**
   * Throughout a run the history is exactly the last fifty superseded versions, if and only if
   * at every write that finds it full the lowest version is the one recorded first.
   */
  lemma {:induction false} HistoryIsTheNewestIff(reg: Registry, run: seq<State>, events: seq<Event>, id: Id)
    requires IsRun(reg, run, events)
    ensures (forall i :: 0 <= i < |run| && id in run[i].db.docs ==>
               Revisions.HoldsNewest(HistoryOf(run[i].db, id), run[i].db.docs[id].version)) <==>
            RecordedInOrder(reg, run, events, id)
  {
    if RecordedInOrder(reg, run, events, id) {
      forall i | 0 <= i < |run| && id in run[i].db.docs
        ensures Revisions.HoldsNewest(HistoryOf(run[i].db, id), run[i].db.docs[id].version)
      {
        HistoryIsTheNewest(reg, run, events, i, id);
      }
    } else {
      var i :| 0 <= i < |events| && !RecordsInOrder(reg, run[i], run[i + 1], Writer(events[i]), id);
      if id in run[i].db.docs {
        RunVersionPositive(reg, run, events, i, id);
      }
      if forall k :: 0 <= k < |run| && id in run[k].db.docs ==>
           Revisions.HoldsNewest(HistoryOf(run[k].db, id), run[k].db.docs[id].version) {
        NewestRecordsInOrder(reg, run[i], run[i + 1], Writer(events[i]), id);
        assert false;
      }
    }
  }

  lemma {:induction false} RunVersionPositive(reg: Registry, run: seq<State>, events: seq<Event>, i: nat, id: Id)
    requires IsRun(reg, run, events) && i < |run| && id in run[i].db.docs
    ensures run[i].db.docs[id].version >= 1
  {
    RunInv(reg, run, events, i);
    VersionPositive(run[i].db, id);
  }

  lemma {:induction false} VersionPositive(db: Db, id: Id)
    requires Versioned(db) && id in db.docs
    ensures db.docs[id].version >= 1
  {
    assert HistoryOk(db.docs[id], db.history[id]);
  }

  // ---------- Who decides what the public sees ----------

  /** What a reader of the site can be shown of a document. */
  datatype Face =
    | Hidden
    | Shown(status: Status, slug: string, title: string, excerpt: Option<string>, blocks: seq<Blocks.Block>,
            meta: Meta, publishedAt: Option<int>)

  function FaceOf(docs: map<Id, Row>, id: Id): Face {
    if id !in docs || !IsPublishable(docs[id].state.status) then Hidden
    else
      var d := docs[id].state;
      Shown(d.status, d.slug, d.title, d.excerpt, d.blocks, d.meta, d.publishedAt)
  }

  /** A write by an actor who passed the type's publish check against the row it replaced. */
  ghost predicate ApprovedWrite(reg: Registry, s: State, s2: State, t: TxId, id: Id) {
    || (SavedBy(reg, s, s2, t, id) && MayPublish(reg[s.txs[t].op.kind].access, s.txs[t].op.actor, s.db.docs[id].author))
    || (InsertedBy(reg, s, s2, t, id) && MayPublish(reg[s.txs[t].op.kind].access, s.txs[t].op.actor, None))
    || (RemovedBy(reg, s, s2, t, id) && MayPublish(reg[s.txs[t].op.kind].access, s.txs[t].op.actor, s.db.docs[id].author))
  }

  lemma {:induction false} FaceChange(reg: Registry, s: State, s2: State, t: TxId, id: Id)
    requires Effect(reg, s, s2, t, id) && s.db.docs.Keys <= s.db.usedDocs
    requires FaceOf(s.db.docs, id) != FaceOf(s2.db.docs, id)
    ensures ApprovedWrite(reg, s, s2, t, id) || PublishedBy(s, s2, t, id)
  {
    if SavedBy(reg, s, s2, t, id) {
      var op, row, row2 := s.txs[t].op, s.db.docs[id], s2.db.docs[id];
      WriteCostsPublish(reg[op.kind].access, Some(row.state.status), row2.state.status, op.actor, row.author);
    } else if InsertedBy(reg, s, s2, t, id) {
      var op := s.txs[t].op;
      WriteCostsPublish(reg[op.kind].access, None, op.state.status, op.actor, None);
    } else if RemovedBy(reg, s, s2, t, id) {
      var op, row := s.txs[t].op, s.db.docs[id];
      DeleteCostsPublish(reg[op.kind].access, row.state.status, op.actor, row.author);
    }
  }

  /**
   * What the public sees of a document, or will see when its moment comes, changes only by a
   * write that passed the publish check, or by a publishing pass.
   */
  lemma {:induction false} PublicChangeIsApproved(reg: Registry, run: seq<State>, events: seq<Event>, i: nat, id: Id)
    requires IsRun(reg, run, events) && i < |events|
    requires FaceOf(run[i].db.docs, id) != FaceOf(run[i + 1].db.docs, id)
    ensures var t := Writer(events[i]);
            || ApprovedWrite(reg, run[i], run[i + 1], t, id)
            || (PublishedBy(run[i], run[i + 1], t, id)
                && FaceOf(run[i + 1].db.docs, id) == FaceOf(run[i].db.docs, id).(status := Published))
  {
    StepEffect(reg, run, events, i, id);
    FaceChange(reg, run[i], run[i + 1], Writer(events[i]), id);
  }

  /** `b` shows the words of `a`, whether or not a pass has published them since. */
  predicate SameWords(a: Face, b: Face) {
    a.Shown? && b.Shown? && a.(status := Published) == b.(status := Published)
  }

  ghost predicate ApprovedAt(reg: Registry, run: seq<State>, events: seq<Event>, j: nat, id: Id, face: Face)
    requires j < |events| && |run| == |events| + 1
  {
    ApprovedWrite(reg, run[j], run[j + 1], Writer(events[j]), id) && SameWords(FaceOf(run[j + 1].db.docs, id), face)
  }

  /** What is shown now was written by this event, or was shown, in these words, before it. */
  lemma {:induction false} ApprovedOrShownBefore(reg: Registry, run: seq<State>, events: seq<Event>, i: nat, id: Id)
    requires IsRun(reg, run, events) && i < |events| && FaceOf(run[i + 1].db.docs, id).Shown?
    ensures ApprovedWrite(reg, run[i], run[i + 1], Writer(events[i]), id)
            || SameWords(FaceOf(run[i].db.docs, id), FaceOf(run[i + 1].db.docs, id))
  {
    if FaceOf(run[i].db.docs, id) != FaceOf(run[i + 1].db.docs, id) {
      PublicChangeIsApproved(reg, run, events, i, id);
    }
  }

  /** Everything the public can see was put there, word for word, by an actor allowed to publish. */
  lemma {:induction false} EverythingShownWasApproved(reg: Registry, run: seq<State>, events: seq<Event>, n: nat, id: Id)
      returns (j: nat)
    requires IsRun(reg, run, events) && n < |run| && FaceOf(run[n].db.docs, id).Shown?
    ensures j < n && ApprovedAt(reg, run, events, j, id, FaceOf(run[n].db.docs, id))
    decreases n
  {
    assert n > 0;
    ApprovedOrShownBefore(reg, run, events, n - 1, id);
    if ApprovedWrite(reg, run[n - 1], run[n - 1 + 1], Writer(events[n - 1]), id) {
      j := n - 1;
    } else {
      j := EverythingShownWasApproved(reg, run, events, n - 1, id);
    }
  }

  /** Nothing is scheduled without a moment. */
  lemma {:induction false} ScheduledHasDate(reg: Registry, run: seq<State>, events: seq<Event>, i: nat, id: Id)
    requires IsRun(reg, run, events) && i < |run| && id in run[i].db.docs
    requires run[i].db.docs[id].state.status == Scheduled
    ensures run[i].db.docs[id].state.publishedAt.Some?
  {
    RunInv(reg, run, events, i);
    assert RowsFollowRules(reg, run[i].db.docs);
  }
}

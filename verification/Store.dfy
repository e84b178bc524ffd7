/**
 * The content repository as concurrent transactions.
 *
 * A state is the committed database plus the transactions in flight. A transaction takes one
 * row lock at a time, reads the latest committed row when it gets it, and keeps the lock until
 * it ends; unlocked reads see the committed rows of that moment. Its writes become visible
 * together when it commits. Any transaction may abort at any point, which is also how a
 * deadlock ends.
 */
module Store {
  import opened Prelude
  import opened Access
  import opened ContentModel
  import opened Forest
  import opened MediaReferences
  import Revisions

  type TxId = nat
  type Registry = map<string, ContentType>

  datatype Row = Row(
    kind: string,
    locale: string,
    group: Id,
    author: Option<Id>,
    state: DocState,
    version: nat,
    updatedAt: int)

  /** The committed tables. The two `used` sets say that ids are never handed out twice. */
  datatype Db = Db(
    docs: map<Id, Row>,
    groups: map<Id, string>,
    usedDocs: set<Id>,
    usedGroups: set<Id>,
    history: map<Id, set<Revision>>,
    mirror: set<MirrorRow>,
    media: set<Id>)

  datatype Op =
    | Create(actor: Actor, kind: string, locale: string, join: Option<Id>, state: DocState, now: int)
    | Update(actor: Actor, kind: string, id: Id, patch: Patch, isRestore: bool, expected: Option<nat>, now: int)
    | Delete(actor: Actor, kind: string, id: Id)
    | PublishDue(now: int)

  /** Where a transaction stands: the statement it will run next. */
  datatype Pc =
    | CreateLockGroup
    | CreateJudge
    | CreateWalk(cursor: Id)
    | CreateInsert
    | UpdateLock
    | UpdateWalk(cursor: Id)
    | UpdateMeasure
    | UpdateWrite
    | DeleteFind
    | DeleteLockGroup(g: Id)
    | DeleteLock(g: Id)
    | DeleteFindChildren(g: Id)
    | DeleteDetach(g: Id, todo: set<Id>)
    | DeleteCount(g: Id)
    | DeleteCommit(g: Id, last: bool)
    | PublishScan
    | PublishClaim(todo: set<Id>)

  /** `held` are the document rows it has locked, as read under the lock. */
  datatype Tx = Tx(
    op: Op,
    pc: Pc,
    startedAt: int,
    held: map<Id, Row>,
    group: Option<Id>,
    members: set<Id>,
    path: seq<Id>,
    height: nat)

  datatype Reason =
    | GroupNotFound | GroupTypeMismatch | GroupForbidden | TranslationExists | SlugTaken
    | StaleVersion | ParentNotFound | ParentMismatch | ParentCycle | ParentTooDeep
    | InvalidState | Forbidden | MediaMissing | Aborted

  datatype Outcome =
    | Refused(reason: Reason)
    | NoSuchDocument
    | Created(id: Id)
    | Updated(id: Id, version: nat)
    | Deleted(row: Row)
    | PublishedSet(published: map<Id, nat>)

  datatype State = State(db: Db, txs: map<TxId, Tx>, outcomes: map<TxId, Outcome>, clock: int)

  datatype Event =
    | Begin(t: TxId, op: Op)
    | Advance(t: TxId, pick: Id)
    | Finish(t: TxId, newDoc: Id, newGroup: Id)
    | Abort(t: TxId)
    | Tick(to: int)
    | UploadMedia(m: Id)
    | DeleteMedia(m: Id)

  // ---------- Reading the tables ----------

  function Par(docs: map<Id, Row>): Parents {
    map id | id in docs :: docs[id].state.parent
  }

  function Members(docs: map<Id, Row>, g: Id): set<Id> {
    set id | id in docs && docs[id].group == g
  }

  function ChildrenOf(docs: map<Id, Row>, id: Id): set<Id> {
    set v | v in docs && docs[v].state.parent == Some(id)
  }

  predicate IsDue(row: Row, now: int) {
    row.state.status == Scheduled && row.state.publishedAt.Some? && row.state.publishedAt.value <= now
  }

  predicate RowFree(s: State, t: TxId, id: Id) {
    forall u :: u in s.txs && u != t ==> id !in s.txs[u].held
  }

  predicate GroupFree(s: State, t: TxId, g: Id) {
    forall u :: u in s.txs && u != t ==> s.txs[u].group != Some(g)
  }

  predicate SlugIsFree(docs: map<Id, Row>, id: Id, kind: string, locale: string, slug: string) {
    forall v :: v in docs && v != id ==>
      !(docs[v].kind == kind && docs[v].locale == locale && docs[v].state.slug == slug)
  }

  // ---------- Decisions ----------

  function InsertedState(op: Op): DocState
    requires op.Create?
  {
    StampState(op.state, op.now)
  }

  function NextOf(reg: Registry, op: Op, row: Row): Option<DocState>
    requires op.Update? && op.kind in reg
  {
    NextState(reg[op.kind], row.state, op.patch, op.isRestore, op.now)
  }

  predicate MayUpdate(reg: Registry, op: Op, row: Row, next: DocState)
    requires op.Update? && op.kind in reg
  {
    row.kind == op.kind &&
    CanWrite(reg[op.kind].access, Some(row.state.status), next.status, op.actor, row.author)
  }

  predicate MayDelete(reg: Registry, op: Op, row: Row)
    requires op.Delete? && op.kind in reg
  {
    row.kind == op.kind && CanDelete(reg[op.kind].access, row.state.status, op.actor, row.author)
  }

  /** A group may be joined by somebody who could write one of its members as it stands. */
  predicate MayJoin(reg: Registry, op: Op, docs: map<Id, Row>, g: Id)
    requires op.Create? && op.kind in reg
  {
    var access := reg[op.kind].access;
    Allows(access(CreateDoc), op.actor, None) &&
    exists m :: m in Members(docs, g) &&
      CanWrite(access, Some(docs[m].state.status), docs[m].state.status, op.actor, docs[m].author)
  }

  predicate Moves(next: DocState, row: Row) {
    next.parent.Some? && next.parent != row.state.parent
  }

  /** What a route checks before it opens the transaction. */
  predicate MayBegin(reg: Registry, db: Db, op: Op) {
    match op
    case Create(actor, kind, _, _, state, _) =>
      kind in reg && WellFormed(reg[kind], state) &&
      CanWrite(reg[kind].access, None, state.status, actor, None)
    case Update(_, kind, id, patch, isRestore, _, _) =>
      kind in reg &&
      (isRestore ==> id in db.history && exists r :: r in db.history[id] && patch == StateOfRevision(r))
    case Delete(_, kind, _) => kind in reg
    case PublishDue(_) => true
  }

  function AfterJoin(op: Op): Pc
    requires op.Create?
  {
    if op.state.parent.None? then CreateInsert else CreateWalk(op.state.parent.value)
  }

  function FirstPc(op: Op): Pc {
    match op
    case Create(_, _, _, join, _, _) => if join.Some? then CreateLockGroup else AfterJoin(op)
    case Update(_, _, _, _, _, _, _) => UpdateLock
    case Delete(_, _, _) => DeleteFind
    case PublishDue(_) => PublishScan
  }

  // ---------- One statement at a time ----------

  datatype Next = Blocked | Goto(tx: Tx) | Stop(outcome: Outcome)

  datatype Walk = WalkBlocked | WalkRefused(reason: Reason) | WalkTo(tx: Tx, cursor: Option<Id>)

  /** One round of the ancestor walk: lock the row at the cursor and move to its parent. */
  function WalkStep(s: State, t: TxId, tx: Tx, child: Option<Id>, kind: string, locale: string, cursor: Id): Walk {
    if child == Some(cursor) then WalkRefused(ParentCycle)
    else if |tx.path| + 1 > MAX_HIERARCHY_DEPTH + 1 then WalkRefused(ParentTooDeep)
    else if cursor !in s.db.docs then WalkRefused(ParentNotFound)
    else if !RowFree(s, t, cursor) then WalkBlocked
    else
      var row := s.db.docs[cursor];
      if tx.path == [] && (row.kind != kind || row.locale != locale) then WalkRefused(ParentMismatch)
      else WalkTo(tx.(held := tx.held[cursor := row], path := tx.path + [cursor]), row.state.parent)
  }

  function StepCreate(reg: Registry, s: State, t: TxId, tx: Tx): Next
    requires tx.op.Create? && tx.op.kind in reg
  {
    var op := tx.op;
    match tx.pc
    case CreateLockGroup =>
      if op.join.None? then Blocked
      else if op.join.value !in s.db.groups then Stop(Refused(GroupNotFound))
      else if !GroupFree(s, t, op.join.value) then Blocked
      else if s.db.groups[op.join.value] != op.kind then Stop(Refused(GroupTypeMismatch))
      else Goto(tx.(group := op.join, pc := CreateJudge))
    case CreateJudge =>
      if op.join.None? then Blocked
      else
        var members := Members(s.db.docs, op.join.value);
        if !MayJoin(reg, op, s.db.docs, op.join.value) then Stop(Refused(GroupForbidden))
        else if exists m :: m in members && s.db.docs[m].locale == op.locale then Stop(Refused(TranslationExists))
        else Goto(tx.(members := members, pc := AfterJoin(op)))
    case CreateWalk(cursor) =>
      (match WalkStep(s, t, tx, None, op.kind, op.locale, cursor)
       case WalkBlocked => Blocked
       case WalkRefused(reason) => Stop(Refused(reason))
       case WalkTo(tx2, up) =>
         if up.Some? then Goto(tx2.(pc := CreateWalk(up.value)))
         else if |tx2.path| + 1 > MAX_HIERARCHY_DEPTH then Stop(Refused(ParentTooDeep))
         else Goto(tx2.(pc := CreateInsert)))
    case _ => Blocked
  }

  function StepUpdate(reg: Registry, s: State, t: TxId, tx: Tx): Next
    requires tx.op.Update? && tx.op.kind in reg
  {
    var op := tx.op;
    match tx.pc
    case UpdateLock =>
      if op.id !in s.db.docs then Stop(NoSuchDocument)
      else if !RowFree(s, t, op.id) then Blocked
      else
        var row := s.db.docs[op.id];
        if op.expected.Some? && op.expected.value != row.version then Stop(Refused(StaleVersion))
        else
          var next := NextOf(reg, op, row);
          if next.None? then Stop(Refused(InvalidState))
          else if !MayUpdate(reg, op, row, next.value) then Stop(Refused(Forbidden))
          else Goto(tx.(held := tx.held[op.id := row],
                        pc := if Moves(next.value, row) then UpdateWalk(next.value.parent.value) else UpdateWrite))
    case UpdateWalk(cursor) =>
      if op.id !in tx.held then Blocked
      else
        (match WalkStep(s, t, tx, Some(op.id), tx.held[op.id].kind, tx.held[op.id].locale, cursor)
         case WalkBlocked => Blocked
         case WalkRefused(reason) => Stop(Refused(reason))
         case WalkTo(tx2, up) =>
           Goto(tx2.(pc := if up.Some? then UpdateWalk(up.value) else UpdateMeasure)))
    case UpdateMeasure =>
      var height := SubtreeHeight(Par(s.db.docs), op.id);
      if |tx.path| + height > MAX_HIERARCHY_DEPTH then Stop(Refused(ParentTooDeep))
      else Goto(tx.(height := height, pc := UpdateWrite))
    case _ => Blocked
  }

  function StepDelete(reg: Registry, s: State, t: TxId, tx: Tx, pick: Id): Next
    requires tx.op.Delete? && tx.op.kind in reg
  {
    var id := tx.op.id;
    match tx.pc
    case DeleteFind =>
      if id !in s.db.docs then Stop(NoSuchDocument)
      else Goto(tx.(pc := DeleteLockGroup(s.db.docs[id].group)))
    case DeleteLockGroup(g) =>
      if g in s.db.groups && !GroupFree(s, t, g) then Blocked
      else Goto(tx.(group := if g in s.db.groups then Some(g) else None, pc := DeleteLock(g)))
    case DeleteLock(g) =>
      if id !in s.db.docs then Stop(NoSuchDocument)
      else if !RowFree(s, t, id) then Blocked
      else if !MayDelete(reg, tx.op, s.db.docs[id]) then Stop(Refused(Forbidden))
      else Goto(tx.(held := tx.held[id := s.db.docs[id]], pc := DeleteFindChildren(g)))
    case DeleteFindChildren(g) =>
      Goto(tx.(pc := DeleteDetach(g, ChildrenOf(s.db.docs, id))))
    case DeleteDetach(g, todo) =>
      if todo == {} then Goto(tx.(pc := DeleteCount(g)))
      else if pick !in todo then Blocked
      else if pick in s.db.docs && !RowFree(s, t, pick) then Blocked
      else if pick in s.db.docs && s.db.docs[pick].state.parent == Some(id)
        then Goto(tx.(held := tx.held[pick := s.db.docs[pick]], pc := DeleteDetach(g, todo - {pick})))
      else Goto(tx.(pc := DeleteDetach(g, todo - {pick})))
    case DeleteCount(g) =>
      Goto(tx.(pc := DeleteCommit(g, Members(s.db.docs, g) - {id} == {})))
    case _ => Blocked
  }

  function StepPublish(s: State, t: TxId, tx: Tx, pick: Id): Next
    requires tx.op.PublishDue?
  {
    match tx.pc
    case PublishScan =>
      Goto(tx.(pc := PublishClaim(set id | id in s.db.docs && IsDue(s.db.docs[id], tx.op.now))))
    case PublishClaim(todo) =>
      if pick !in todo then Blocked
      else if pick !in s.db.docs then Goto(tx.(pc := PublishClaim(todo - {pick})))
      else if !RowFree(s, t, pick) then Blocked
      else if IsDue(s.db.docs[pick], tx.op.now)
        then Goto(tx.(held := tx.held[pick := s.db.docs[pick]], pc := PublishClaim(todo - {pick})))
      else Goto(tx.(pc := PublishClaim(todo - {pick})))
    case _ => Blocked
  }

  function StepTx(reg: Registry, s: State, t: TxId, tx: Tx, pick: Id): Next {
    match tx.op
    case Create(_, kind, _, _, _, _) => if kind in reg then StepCreate(reg, s, t, tx) else Blocked
    case Update(_, kind, _, _, _, _, _) => if kind in reg then StepUpdate(reg, s, t, tx) else Blocked
    case Delete(_, kind, _) => if kind in reg then StepDelete(reg, s, t, tx, pick) else Blocked
    case PublishDue(_) => StepPublish(s, t, tx, pick)
  }

  // ---------- Commits ----------

  datatype Commit = NotReady | Reject(reason: Reason) | Commit(db: Db, outcome: Outcome)

  /** Only rows that are added are checked against the assets. */
  predicate AddedMediaExist(db: Db, id: Id, uses: set<MediaUse>) {
    forall u :: u in uses && MirrorRow(id, u) !in db.mirror ==> u.media in db.media
  }

  function RevisionOf(row: Row, createdAt: int): Revision {
    Revision(row.version, createdAt, row.author, row.state)
  }

  function HistoryOf(db: Db, id: Id): set<Revision> {
    if id in db.history then db.history[id] else {}
  }

  function CommitCreate(reg: Registry, s: State, tx: Tx, newDoc: Id, newGroup: Id): Commit
    requires tx.op.Create? && tx.op.kind in reg
  {
    var op := tx.op;
    var db := s.db;
    if tx.pc != CreateInsert || newDoc in db.usedDocs || (op.join.None? && newGroup in db.usedGroups) then NotReady
    else
      var g := if op.join.Some? then op.join.value else newGroup;
      var state := InsertedState(op);
      var row := Row(op.kind, op.locale, g, op.actor.id, state, 1, tx.startedAt);
      var uses := Uses(reg[op.kind], state.blocks, state.meta);
      if !SlugIsFree(db.docs, newDoc, op.kind, op.locale, state.slug) then Reject(SlugTaken)
      else if !AddedMediaExist(db, newDoc, uses) then Reject(MediaMissing)
      else Commit(
        db.(docs := db.docs[newDoc := row],
            groups := db.groups[g := op.kind],
            usedDocs := db.usedDocs + {newDoc},
            usedGroups := db.usedGroups + {g},
            history := db.history[newDoc := {}],
            mirror := Synced(db.mirror, newDoc, uses)),
        Created(newDoc))
  }

  /** Instants are microseconds; the application's own clock shows whole milliseconds of them. */
  function Millis(instant: int): int {
    instant / 1000 * 1000
  }

  function CommitUpdate(reg: Registry, s: State, tx: Tx): Commit
    requires tx.op.Update? && tx.op.kind in reg
  {
    var op := tx.op;
    var db := s.db;
    if tx.pc != UpdateWrite || op.id !in tx.held || NextOf(reg, op, tx.held[op.id]).None? then NotReady
    else
      var row := tx.held[op.id];
      var next := NextOf(reg, op, row).value;
      var uses := Uses(reg[op.kind], next.blocks, next.meta);
      if !SlugIsFree(db.docs, op.id, row.kind, row.locale, next.slug) then Reject(SlugTaken)
      else if !AddedMediaExist(db, op.id, uses) then Reject(MediaMissing)
      else Commit(
        db.(docs := db.docs[op.id := row.(state := next, version := row.version + 1, updatedAt := Millis(s.clock))],
            history := db.history[op.id := Revisions.Recorded(HistoryOf(db, op.id), RevisionOf(row, tx.startedAt))],
            mirror := Synced(db.mirror, op.id, uses)),
        Updated(op.id, row.version + 1))
  }

  function Detached(row: Row, id: Id): Row {
    if row.state.parent == Some(id) then row.(state := row.state.(parent := None)) else row
  }

  function CommitDelete(s: State, tx: Tx): Commit
    requires tx.op.Delete?
  {
    var id := tx.op.id;
    var db := s.db;
    if !tx.pc.DeleteCommit? || id !in tx.held then NotReady
    else Commit(
      db.(docs := map v | v in db.docs && v != id :: if v in tx.held then Detached(db.docs[v], id) else db.docs[v],
          groups := if tx.pc.last then db.groups - {tx.pc.g} else db.groups,
          history := db.history - {id},
          mirror := set m | m in db.mirror && m.content != id),
      Deleted(tx.held[id]))
  }

  function PublishedRow(row: Row, clock: int): Row {
    row.(state := row.state.(status := Published), version := row.version + 1, updatedAt := Millis(clock))
  }

  function CommitPublish(s: State, tx: Tx): Commit
    requires tx.op.PublishDue?
  {
    var db := s.db;
    if tx.pc != PublishClaim({}) then NotReady
    else Commit(
      db.(docs := map v | v in db.docs :: if v in tx.held then PublishedRow(db.docs[v], s.clock) else db.docs[v],
          history := map v | v in db.history ::
            if v in tx.held then Revisions.Recorded(db.history[v], RevisionOf(tx.held[v], tx.startedAt))
            else db.history[v]),
      PublishedSet(map v | v in tx.held :: tx.held[v].version + 1))
  }

  function CommitTx(reg: Registry, s: State, tx: Tx, newDoc: Id, newGroup: Id): Commit {
    match tx.op
    case Create(_, kind, _, _, _, _) => if kind in reg then CommitCreate(reg, s, tx, newDoc, newGroup) else NotReady
    case Update(_, kind, _, _, _, _, _) => if kind in reg then CommitUpdate(reg, s, tx) else NotReady
    case Delete(_, _, _) => CommitDelete(s, tx)
    case PublishDue(_) => CommitPublish(s, tx)
  }

  // ---------- The machine ----------

  function Init(clock: int): State {
    State(Db(map[], map[], {}, {}, map[], {}, {}), map[], map[], clock)
  }

  function Ended(s: State, t: TxId, db: Db, outcome: Outcome): State {
    s.(db := db, txs := s.txs - {t}, outcomes := s.outcomes[t := outcome])
  }

  /** `None` when the event cannot happen now. */
  function Apply(reg: Registry, s: State, e: Event): Option<State> {
    match e
    case Begin(t, op) =>
      if t in s.txs || t in s.outcomes || !MayBegin(reg, s.db, op) then None
      else Some(s.(txs := s.txs[t := Tx(op, FirstPc(op), s.clock, map[], None, {}, [], 0)]))
    case Advance(t, pick) =>
      if t !in s.txs then None
      else
        (match StepTx(reg, s, t, s.txs[t], pick)
         case Blocked => None
         case Goto(tx) => Some(s.(txs := s.txs[t := tx]))
         case Stop(outcome) => Some(Ended(s, t, s.db, outcome)))
    case Finish(t, newDoc, newGroup) =>
      if t !in s.txs then None
      else
        (match CommitTx(reg, s, s.txs[t], newDoc, newGroup)
         case NotReady => None
         case Reject(reason) => Some(Ended(s, t, s.db, Refused(reason)))
         case Commit(db, outcome) => Some(Ended(s, t, db, outcome)))
    case Abort(t) =>
      if t !in s.txs then None else Some(Ended(s, t, s.db, Refused(Aborted)))
    case Tick(to) =>
      if to < s.clock then None else Some(s.(clock := to))
    case UploadMedia(m) => Some(s.(db := s.db.(media := s.db.media + {m})))
    case DeleteMedia(m) =>
      if exists r :: r in s.db.mirror && r.use.media == m then None
      else Some(s.(db := s.db.(media := s.db.media - {m})))
  }
}

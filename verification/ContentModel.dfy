/** One document's state, patches to it, and the revisions that restore it. */
module ContentModel {
  import opened Prelude
  import opened Access
  import Blocks

  type Meta = map<string, string>

  datatype DocState = DocState(
    slug: string,
    title: string,
    excerpt: Option<string>,
    status: Status,
    blocks: seq<Blocks.Block>,
    meta: Meta,
    publishedAt: Option<int>,
    parent: Option<Id>)

  datatype MetaReference = MetaReference(mediaId: Id, at: string)

  /**
   * A declared content type. `accepts` stands for the field validators (slug shape, title
   * length, metadata schema); the two rules that span fields are in `ParseState`.
   */
  datatype ContentType = ContentType(
    name: string,
    hierarchical: bool,
    access: AccessTable,
    accepts: DocState -> bool,
    mediaIn: Meta -> seq<MetaReference>)

  /** The three things a key of a patch can say: nothing, "clear this", or a value. */
  datatype Cell<+T> = Undefined | Null | Value(value: T)

  datatype Patch = Patch(
    slug: Option<string>,
    title: Option<string>,
    excerpt: Cell<string>,
    status: Option<Status>,
    blocks: Option<seq<Blocks.Block>>,
    meta: Option<Meta>,
    publishedAt: Cell<int>,
    parent: Cell<Id>)

  /** A stored state with a patch laid over it, before the type's rules have seen it. */
  datatype Merged = Merged(
    slug: string,
    title: string,
    excerpt: Cell<string>,
    status: Status,
    blocks: seq<Blocks.Block>,
    meta: Meta,
    publishedAt: Cell<int>,
    parent: Cell<Id>)

  /** What a row was, immediately before it became something else. */
  datatype Revision = Revision(version: nat, createdAt: int, author: Option<Id>, state: DocState)

  function Or<T>(patched: Option<T>, stored: T): T {
    if patched.Some? then patched.value else stored
  }

  function OrCell<T>(patched: Cell<T>, stored: Option<T>): Cell<T> {
    if !patched.Undefined? then patched
    else if stored.Some? then Value(stored.value) else Undefined
  }

  function Merge(stored: DocState, patch: Patch): Merged {
    Merged(
      Or(patch.slug, stored.slug),
      Or(patch.title, stored.title),
      OrCell(patch.excerpt, stored.excerpt),
      Or(patch.status, stored.status),
      Or(patch.blocks, stored.blocks),
      Or(patch.meta, stored.meta),
      OrCell(patch.publishedAt, stored.publishedAt),
      OrCell(patch.parent, stored.parent))
  }

  /** A null date is not a missing date here: an explicit "no date" is not stamped. */
  function StampPublication(merged: Merged, now: int): Merged {
    if merged.status != Published || !merged.publishedAt.Undefined? then merged
    else merged.(publishedAt := Value(now))
  }

  function StampState(state: DocState, now: int): DocState {
    if state.status != Published || state.publishedAt.Some? then state
    else state.(publishedAt := Some(now))
  }

  function Cleared<T>(cell: Cell<T>): Option<T> {
    if cell.Value? then Some(cell.value) else None
  }

  /** The two cross-field rules: a schedule has a date, and only a hierarchical type nests. */
  predicate WellFormed(t: ContentType, s: DocState) {
    && t.accepts(s)
    && (s.status == Scheduled ==> s.publishedAt.Some?)
    && (!t.hierarchical ==> s.parent.None?)
  }

  /** The whole-state check: nulls become absence, and a parent a type cannot have is stripped. */
  function ParseState(t: ContentType, m: Merged): Option<DocState> {
    var s := DocState(m.slug, m.title, Cleared(m.excerpt), m.status, m.blocks, m.meta,
                      Cleared(m.publishedAt), if t.hierarchical then Cleared(m.parent) else None);
    if WellFormed(t, s) then Some(s) else None
  }

  /** Every field stated, with null for the empty ones. */
  function StateOfRevision(r: Revision): Patch {
    Patch(
      Some(r.state.slug),
      Some(r.state.title),
      if r.state.excerpt.Some? then Value(r.state.excerpt.value) else Null,
      Some(r.state.status),
      Some(r.state.blocks),
      Some(r.state.meta),
      if r.state.publishedAt.Some? then Value(r.state.publishedAt.value) else Null,
      if r.state.parent.Some? then Value(r.state.parent.value) else Null)
  }

  /** A save stamps the date when it enters `published`; a restore never does. */
  function NextState(t: ContentType, current: DocState, patch: Patch, isRestore: bool, now: int): Option<DocState> {
    var raw := Merge(current, patch);
    ParseState(t, if isRestore || current.status == Published then raw else StampPublication(raw, now))
  }

  // ---------- What a patch means ----------

  /** What a key of a patch does to an optional field: nothing, empty it, or fill it. */
  predicate Does<T(==)>(cell: Cell<T>, stored: Option<T>, next: Option<T>) {
    match cell
    case Undefined => next == stored
    case Null => next == None
    case Value(value) => next == Some(value)
  }

  /**
   * An absent key leaves the stored value alone, a null clears it, a value replaces it; only
   * entering `published` without a word on the date fills in a missing one. The result follows
   * the type's rules.
   */
  lemma {:induction false} PatchMeaning(t: ContentType, current: DocState, patch: Patch, now: int)
    requires WellFormed(t, current) && NextState(t, current, patch, false, now).Some?
    ensures var next := NextState(t, current, patch, false, now).value;
            && WellFormed(t, next)
            && (if patch.slug.Some? then next.slug == patch.slug.value else next.slug == current.slug)
            && (if patch.title.Some? then next.title == patch.title.value else next.title == current.title)
            && (if patch.status.Some? then next.status == patch.status.value else next.status == current.status)
            && (if patch.blocks.Some? then next.blocks == patch.blocks.value else next.blocks == current.blocks)
            && (if patch.meta.Some? then next.meta == patch.meta.value else next.meta == current.meta)
            && Does(patch.excerpt, current.excerpt, next.excerpt)
            && (if t.hierarchical then Does(patch.parent, current.parent, next.parent) else next.parent == None)
            && (if patch.publishedAt.Undefined? && next.status == Published && current.status != Published && current.publishedAt.None?
                then next.publishedAt == Some(now)
                else Does(patch.publishedAt, current.publishedAt, next.publishedAt))
  {
  }

  /** Saving nothing changes nothing, whatever was stored. */
  lemma {:induction false} EmptyPatchIsIdentity(t: ContentType, current: DocState, now: int)
    requires WellFormed(t, current)
    ensures NextState(t, current, Patch(None, None, Undefined, None, None, None, Undefined, Undefined), false, now)
            == Some(current)
  {
  }

  // ---------- Restoring ----------

  /** What a type can hold of a recorded state: a parent only if it nests. */
  function Kept(t: ContentType, s: DocState): DocState {
    if t.hierarchical then s else s.(parent := None)
  }

  /**
   * A restore is accepted exactly when the recorded state, less a parent the type no longer
   * has, satisfies the type's rules; then it reproduces all eight recorded fields, the empty
   * ones included, whatever the document holds now.
   */
  lemma {:induction false} RestoreIsExact(t: ContentType, current: DocState, r: Revision, now: int)
    ensures NextState(t, current, StateOfRevision(r), true, now)
            == if WellFormed(t, Kept(t, r.state)) then Some(Kept(t, r.state)) else None
  {
    var m := Merge(current, StateOfRevision(r));
    assert Cleared(m.excerpt) == r.state.excerpt;
    assert Cleared(m.publishedAt) == r.state.publishedAt;
    assert Cleared(m.parent) == r.state.parent;
  }

  /** Restoring the revision that a restore leaves behind brings back the state before it. */
  lemma {:induction false} RestoreIsUndoable(t: ContentType, before: DocState, r: Revision, now: int,
                                             version: nat, createdAt: int, author: Option<Id>, later: int)
    requires WellFormed(t, before)
    requires NextState(t, before, StateOfRevision(r), true, now).Some?
    ensures var after := NextState(t, before, StateOfRevision(r), true, now).value;
            var left := Revision(version, createdAt, author, before);
            NextState(t, after, StateOfRevision(left), true, later) == Some(before)
  {
    var after := NextState(t, before, StateOfRevision(r), true, now).value;
    RestoreIsExact(t, after, Revision(version, createdAt, author, before), later);
  }
}

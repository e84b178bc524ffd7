/** The admin's listing, read page by page with tokens while the repository is written to. */
module Listing {
  import opened Prelude
  import opened Store
  import opened StoreEffects
  import opened StoreTheorems
  import opened Paging
  import opened StoreExamples
  import CursorToken

  // ---------- Tokens ----------

  /** How ids are printed as uuids and read back. */
  datatype Names = Names(show: Id -> string, read: string -> Id)

  function TokenOf(names: Names, dates: CursorToken.Dates, c: Bookmark): Option<string> {
    CursorToken.EncodeCursor(dates, CursorToken.Cursor(c.ms, names.show(c.id)))
  }

  function BookmarkIn(names: Names, dates: CursorToken.Dates, token: string): Option<Bookmark> {
    var c := CursorToken.DecodeCursor(dates, token);
    if c.None? then None else Some(Bookmark(c.value.at, names.read(c.value.id)))
  }

  /** What a reader sees who sends each page's token back for the next page; `None` when refused. */
  function FollowTokens(names: Names, dates: CursorToken.Dates, states: seq<seq<Entry>>, after: Option<Bookmark>, limit: nat): Option<seq<Entry>> {
    if states == [] then Some([])
    else
      var page := ListRoute(states[0], after, limit);
      if page.next.None? then Some(page.rows)
      else
        var token := TokenOf(names, dates, page.next.value);
        if token.None? || BookmarkIn(names, dates, token.value).None? then None
        else
          var rest := FollowTokens(names, dates, states[1..], BookmarkIn(names, dates, token.value), limit);
          if rest.None? then None else Some(page.rows + rest.value)
  }

  /** The row's id and its instant in milliseconds print in a way that reads back. */
  ghost predicate CanBeNamed(names: Names, dates: CursorToken.Dates, r: Entry) {
    && CursorToken.IsUuid(names.show(r.id)) && names.read(names.show(r.id)) == r.id
    && var printed := dates.show(BookmarkOf(r).ms);
       CursorToken.IsLatin1(printed) && dates.read(printed) == Some(BookmarkOf(r).ms)
  }

  lemma {:induction false} BookmarkComesBack(names: Names, dates: CursorToken.Dates, r: Entry)
    requires CanBeNamed(names, dates, r)
    ensures var token := TokenOf(names, dates, BookmarkOf(r));
            token.Some? && BookmarkIn(names, dates, token.value) == Some(BookmarkOf(r))
  {
    CursorToken.CursorRoundTrip(dates, CursorToken.Cursor(BookmarkOf(r).ms, names.show(r.id)));
  }

  lemma {:induction false} IssuedIdText(names: Names, dates: CursorToken.Dates, b: Bookmark, token: string)
    requires CursorToken.IsUuid(names.show(b.id)) && TokenOf(names, dates, b) == Some(token)
    ensures CursorToken.IdText(token) == Some(names.show(b.id))
  {
    var date, id := dates.show(b.ms), names.show(b.id);
    CursorToken.IssuedForm(date + "|" + id, token);
    forall i | 0 <= i < |id|
      ensures id[i] != '|'
    {
      assert id[i] == '-' || CursorToken.IsHex(id[i]);
    }
    CursorToken.LastIndexOfTail(date, id, '|');
    assert (date + "|" + id)[|date| + 1..] == id;
  }

  /**
   * Of the tokens that name a place in the listing, whatever they look like, exactly the one was
   * issued for it that uses nothing but the url alphabet, leaves its spare bits zero, and spells
   * both date and id as they are printed.
   */
  lemma {:induction false} PlaceTokenIsIssuedIff(names: Names, dates: CursorToken.Dates, token: string, b: Bookmark)
    requires BookmarkIn(names, dates, token) == Some(b) && CursorToken.IsUuid(names.show(b.id))
    ensures TokenOf(names, dates, b) == Some(token) <==>
            && CursorToken.AllUrlLetters(token) && CursorToken.NoSpareBits(CursorToken.UrlDigits(token))
            && CursorToken.DateText(token) == Some(dates.show(b.ms))
            && CursorToken.IdText(token) == Some(names.show(b.id))
  {
    var c := CursorToken.DecodeCursor(dates, token).value;
    CursorToken.ReadInParts(dates, token, c);
    CursorToken.AcceptedTokenIsIssuedIff(dates, token, c);
    if TokenOf(names, dates, b) == Some(token) {
      IssuedIdText(names, dates, b, token);
    }
  }

  /** Hexadecimal letters in capitals. */
  function Capitals(s: string): string {
    seq(|s|, i requires 0 <= i < |s| => if 'a' <= s[i] <= 'f' then s[i] - 'a' + 'A' else s[i])
  }

  /**
   * A row's token with the id written in capitals names the same row, because ids are read in
   * either case. It was never issued, although nothing else about it differs from an issued one.
   */
  lemma {:induction false} CapitalsAreAccepted(names: Names, dates: CursorToken.Dates, r: Entry)
    requires CanBeNamed(names, dates, r)
    requires names.read(Capitals(names.show(r.id))) == r.id && Capitals(names.show(r.id)) != names.show(r.id)
    ensures var b := BookmarkOf(r);
            var token := CursorToken.EncodeCursor(dates, CursorToken.Cursor(b.ms, Capitals(names.show(b.id))));
            && token.Some? && BookmarkIn(names, dates, token.value) == Some(b)
            && CursorToken.AllUrlLetters(token.value) && CursorToken.NoSpareBits(CursorToken.UrlDigits(token.value))
            && CursorToken.DateText(token.value) == Some(dates.show(b.ms))
            && TokenOf(names, dates, b) != token
  {
    var b := BookmarkOf(r);
    var c := CursorToken.Cursor(b.ms, Capitals(names.show(b.id)));
    CursorToken.CursorRoundTrip(dates, c);
    var token := CursorToken.EncodeCursor(dates, c).value;
    CursorToken.AcceptedTokenIsIssuedIff(dates, token, c);
    CursorToken.ReadInParts(dates, token, c);
    PlaceTokenIsIssuedIff(names, dates, token, b);
  }

  /** Tokens name the places of the pages: no page is refused, and the reader sees what bookmarks show. */
  lemma {:induction false} TokensFollow(names: Names, dates: CursorToken.Dates, states: seq<seq<Entry>>,
                                        after: Option<Bookmark>, limit: nat)
    requires Listings(states) && 1 <= limit <= MAX_PAGE_SIZE
    requires forall k, r :: 0 <= k < |states| && r in states[k] ==> CanBeNamed(names, dates, r)
    ensures FollowTokens(names, dates, states, after, limit) == Some(FollowOver(states, after, limit))
    decreases |states|
  {
    if states != [] {
      var page := ListRoute(states[0], after, limit);
      Splits(states[0], after, limit);
      if page.next.Some? {
        BookmarkComesBack(names, dates, page.rows[|page.rows| - 1]);
        LaterListings(states);
        TokensFollow(names, dates, states[1..], page.next, limit);
      }
    }
  }

  // ---------- The instants of the repository ----------

  /** No clock reading lies ahead; a document that was saved has whole milliseconds. */
  ghost predicate Timed(s: State) {
    && (forall t :: t in s.txs ==> s.txs[t].startedAt <= s.clock)
    && (forall id :: id in s.db.docs ==>
          s.db.docs[id].updatedAt <= s.clock && IsTimed(s.db.docs[id]))
  }

  ghost predicate IsTimed(row: Row) {
    row.version >= 1 && (row.version > 1 ==> row.updatedAt % 1000 == 0)
  }

  lemma {:induction false} ClockStep(reg: Registry, s: State, e: Event, s2: State)
    requires Apply(reg, s, e) == Some(s2) && forall t :: t in s.txs ==> s.txs[t].startedAt <= s.clock
    ensures s.clock <= s2.clock && forall t :: t in s2.txs ==> s2.txs[t].startedAt <= s2.clock
  {
  }

  lemma {:induction false} TimedStep(reg: Registry, s: State, s2: State, t: TxId, id: Id)
    requires Effect(reg, s, s2, t, id) && Timed(s) && s.clock <= s2.clock && id in s2.db.docs
    ensures s2.db.docs[id].updatedAt <= s2.clock && IsTimed(s2.db.docs[id])
  {
  }

  lemma {:induction false} RunTimed(reg: Registry, run: seq<State>, events: seq<Event>, i: nat)
    requires IsRun(reg, run, events) && i < |run|
    ensures Timed(run[i])
    decreases i
  {
    if i > 0 {
      RunTimed(reg, run, events, i - 1);
      assert Apply(reg, run[i - 1], events[i - 1]) == Some(run[i - 1 + 1]);
      ClockStep(reg, run[i - 1], events[i - 1], run[i]);
      forall id | id in run[i].db.docs
        ensures run[i].db.docs[id].updatedAt <= run[i].clock && IsTimed(run[i].db.docs[id])
      {
        StepEffect(reg, run, events, i - 1, id);
        TimedStep(reg, run[i - 1], run[i], Writer(events[i - 1]), id);
      }
    }
  }

  /** The second row is no older, or is the first save of a document created in that very millisecond. */
  ghost predicate IsNoOlder(row: Row, row2: Row) {
    || row.updatedAt <= row2.updatedAt
    || (row.version == 1 < row2.version && row2.updatedAt == Millis(row.updatedAt))
  }

  lemma {:induction false} MillisGrow(a: int, clock: int)
    requires a <= clock
    ensures a <= Millis(clock) || Millis(clock) == Millis(a)
    ensures a % 1000 == 0 ==> a <= Millis(clock)
    ensures Millis(clock) % 1000 == 0
  {
  }

  lemma {:induction false} NoOlderStep(reg: Registry, s: State, s2: State, t: TxId, id: Id)
    requires Effect(reg, s, s2, t, id) && Timed(s) && id in s.db.docs && id in s2.db.docs && id in s.db.usedDocs
    ensures IsNoOlder(s.db.docs[id], s2.db.docs[id])
  {
    MillisGrow(s.db.docs[id].updatedAt, s.clock);
  }

  lemma {:induction false} NoOlderChains(a: Row, b: Row, c: Row)
    requires IsNoOlder(a, b) && IsNoOlder(b, c) && a.version <= b.version <= c.version
    requires IsTimed(a) && IsTimed(b) && IsTimed(c)
    ensures IsNoOlder(a, c)
  {
    MillisGrow(a.updatedAt, a.updatedAt);
    if a.updatedAt <= b.updatedAt {
      MillisGrow(a.updatedAt, b.updatedAt);
    }
  }

  lemma {:induction false} RowIsTimed(reg: Registry, run: seq<State>, events: seq<Event>, i: nat, id: Id)
    requires IsRun(reg, run, events) && i < |run| && id in run[i].db.docs
    ensures IsTimed(run[i].db.docs[id]) && id in run[i].db.usedDocs
  {
    RunTimed(reg, run, events, i);
    RunInv(reg, run, events, i);
  }

  lemma {:induction false} NoOlderNext(reg: Registry, run: seq<State>, events: seq<Event>, i: nat, id: Id)
    requires IsRun(reg, run, events) && i < |events| && id in run[i].db.docs && id in run[i + 1].db.docs
    ensures IsNoOlder(run[i].db.docs[id], run[i + 1].db.docs[id])
  {
    RunTimed(reg, run, events, i);
    RowIsTimed(reg, run, events, i, id);
    StepEffect(reg, run, events, i, id);
    NoOlderStep(reg, run[i], run[i + 1], Writer(events[i]), id);
  }

  ghost predicate NoOlderSince(run: seq<State>, i: nat, m: nat, id: Id)
    requires i < |run| && m < |run|
  {
    && id in run[m].db.usedDocs
    && (id in run[m].db.docs ==>
          && id in run[i].db.docs && run[i].db.docs[id].version <= run[m].db.docs[id].version
          && IsNoOlder(run[i].db.docs[id], run[m].db.docs[id]))
  }

  lemma {:induction false} NoOlderSinceStep(reg: Registry, run: seq<State>, events: seq<Event>, i: nat, m: nat, id: Id)
    requires IsRun(reg, run, events) && i <= m < |events| && NoOlderSince(run, i, m, id)
    ensures NoOlderSince(run, i, m + 1, id)
  {
    StepNeverBack(reg, run, events, m, id);
    if id in run[m + 1].db.docs {
      NoOlderNext(reg, run, events, m, id);
      RowIsTimed(reg, run, events, i, id);
      RowIsTimed(reg, run, events, m, id);
      RowIsTimed(reg, run, events, m + 1, id);
      NoOlderChains(run[i].db.docs[id], run[m].db.docs[id], run[m + 1].db.docs[id]);
    }
  }

  lemma {:induction false} NoOlderThroughout(reg: Registry, run: seq<State>, events: seq<Event>, i: nat, m: nat, id: Id)
    requires IsRun(reg, run, events) && i <= m < |run| && id in run[i].db.docs && id in run[i].db.usedDocs
    ensures NoOlderSince(run, i, m, id)
    decreases m
  {
    if i < m {
      NoOlderThroughout(reg, run, events, i, m - 1, id);
      NoOlderSinceStep(reg, run, events, i, m - 1, id);
    }
  }

  /** Along any run, a document's instant goes back only by its first save, in the millisecond it was created in. */
  lemma {:induction false} InstantsRarelyGoBack(reg: Registry, run: seq<State>, events: seq<Event>, i: nat, j: nat, id: Id)
    requires IsRun(reg, run, events) && i <= j < |run| && id in run[i].db.docs && id in run[j].db.docs
    ensures run[i].db.docs[id].version <= run[j].db.docs[id].version && IsNoOlder(run[i].db.docs[id], run[j].db.docs[id])
  {
    RowIsTimed(reg, run, events, i, id);
    NoOlderThroughout(reg, run, events, i, j, id);
  }

  // ---------- The listing of a run ----------

  /** `states` are what some filters select, in listing order, at moments `at` of the run. */
  ghost predicate ListsRun(run: seq<State>, at: seq<nat>, states: seq<seq<Entry>>) {
    && |at| == |states| && Listings(states)
    && (forall k :: 0 <= k < |at| ==> at[k] < |run|)
    && (forall k, m :: 0 <= k <= m < |at| ==> at[k] <= at[m])
    && (forall k, r :: 0 <= k < |at| && r in states[k] ==>
          r.id in run[at[k]].db.docs && r.at == run[at[k]].db.docs[r.id].updatedAt)
  }

  /**
   * Whatever everybody writes while a reader pages on: if the reader sees a document twice, the
   * first time is before and the second time after its first save, and that save fell in the
   * millisecond the document was created in.
   */
  lemma {:induction false} ComesTwiceOnlyWhenNew(reg: Registry, run: seq<State>, events: seq<Event>, at: seq<nat>,
                                                 states: seq<seq<Entry>>, after: Option<Bookmark>, limit: nat,
                                                 shown: seq<Entry>, i: nat, j: nat)
    requires IsRun(reg, run, events) && ListsRun(run, at, states) && 1 <= limit <= MAX_PAGE_SIZE
    requires shown == FollowOver(states, after, limit) && i < j < |shown| && shown[i].id == shown[j].id
    ensures var a, b, id := PageOfRow(states, after, limit, i), PageOfRow(states, after, limit, j), shown[i].id;
            && a <= b < |at| && id in run[at[a]].db.docs && id in run[at[b]].db.docs
            && run[at[a]].db.docs[id].version == 1 && shown[i].at == run[at[a]].db.docs[id].updatedAt
            && run[at[b]].db.docs[id].version > 1 && shown[j].at == Millis(shown[i].at) < shown[i].at
  {
    PageShowsRow(states, after, limit, i);
    PageShowsRow(states, after, limit, j);
    PagesInOrder(states, after, limit, i, j);
    ShownInOrder(states, after, limit);
    assert Precedes(shown[i], shown[j]);
    var a, b := PageOfRow(states, after, limit, i), PageOfRow(states, after, limit, j);
    InstantsRarelyGoBack(reg, run, events, at[a], at[b], shown[i].id);
  }

  const BEFORE: seq<Entry> := [Entry(1500, 1), Entry(1400, 2), Entry(900, 3)]
  const AFTER_SAVE: seq<Entry> := [Entry(1400, 2), Entry(1000, 1), Entry(900, 3)]

  lemma {:induction false} ShownTwice()
    ensures FollowOver([BEFORE, AFTER_SAVE], None, 2) == [Entry(1500, 1), Entry(1400, 2), Entry(1000, 1), Entry(900, 3)]
  {
    var before, saved := BEFORE, AFTER_SAVE;
    var next := Some(Bookmark(1, 2));
    assert ListRoute(before, None, 2) == Page([Entry(1500, 1), Entry(1400, 2)], next);
    assert [before, saved][1..] == [saved];
    assert After(saved, next) == [Entry(1000, 1), Entry(900, 3)] by {
      assert saved[1..] == [Entry(1000, 1), Entry(900, 3)] && saved[2..] == [Entry(900, 3)];
      assert StrictlyAfter(saved[2..], Place(next.value)) == [Entry(900, 3)];
    }
    assert ListRoute(saved, next, 2) == Page([Entry(1000, 1), Entry(900, 3)], None);
  }

  lemma {:induction false} TwoDocuments() returns (s: State)
    ensures Reachable(s) && s.txs == map[] && s.clock == 1400 && s.outcomes.Keys == {0, 1}
    ensures s.db.docs == map[3 := NewRow("c", 3, 900), 2 := NewRow("b", 2, 1400)]
    ensures s.db.usedDocs == {3, 2} && s.db.usedGroups == {3, 2}
  {
    StartIsReachable(0);
    s := Creates(Init(0), 0, 900, "c", 3, 3);
    s := Creates(s, 1, 1400, "b", 2, 2);
  }

  /** Three documents, the last of them created in the second half of its millisecond. */
  lemma {:induction false} ThreeDocuments() returns (s: State)
    ensures Reachable(s) && s.txs == map[] && s.clock == 1500 && s.outcomes.Keys == {0, 1, 2}
    ensures s.db.docs == map[3 := NewRow("c", 3, 900), 2 := NewRow("b", 2, 1400), 1 := NewRow("a", 1, 1500)]
  {
    s := TwoDocuments();
    s := Creates(s, 2, 1500, "a", 1, 1);
  }

  /** A run that goes on by a save of document 1, from one state to the other. */
  lemma {:induction false} ThenSaved(run: seq<State>, events: seq<Event>, s: State)
      returns (run2: seq<State>, events2: seq<Event>, s2: State)
    requires Reaches(run, events, s) && s.txs == map[] && 3 !in s.outcomes && 1 in s.db.docs && IsPage(s.db.docs[1])
    requires forall v :: v in s.db.docs && v != 1 ==> s.db.docs[v].state.slug != s.db.docs[1].state.slug
    ensures Reaches(run2, events2, s2) && |run2| == |run| + 3 && run2[|run| - 1] == s
    ensures s2.db.docs == s.db.docs[1 := Saved(s.db.docs[1], s.clock)]
  {
    var tx := Waiting(Saving(1, None), s.clock);
    var began := s.(txs := s.txs[3 := tx]);
    GoesOn(run, events, s, Begin(3, Saving(1, None)), began);
    Locks(began, 3, 1, s.clock);
    var locked := began.(txs := began.txs[3 := tx.(held := map[1 := s.db.docs[1]], pc := UpdateWrite)]);
    GoesOn(run + [began], events + [Begin(3, Saving(1, None))], began, Advance(3, 0), locked);
    Writes(locked, 3, 1, s.clock);
    var c := CommitUpdate(REG, locked, locked.txs[3]);
    s2 := Ended(locked, 3, c.db, c.outcome);
    run2, events2 := run + [began] + [locked], events + [Begin(3, Saving(1, None))] + [Advance(3, 0)];
    GoesOn(run2, events2, locked, Finish(3, 0, 0), s2);
    run2, events2 := run2 + [s2], events2 + [Finish(3, 0, 0)];
  }

  lemma {:induction false} TheirListings(before: State, saved: State)
    requires before.db.docs == map[3 := NewRow("c", 3, 900), 2 := NewRow("b", 2, 1400), 1 := NewRow("a", 1, 1500)]
    requires saved.db.docs == before.db.docs[1 := Saved(before.db.docs[1], 1500)]
    ensures forall r :: r in BEFORE ==> r.id in before.db.docs && r.at == before.db.docs[r.id].updatedAt
    ensures forall r :: r in AFTER_SAVE ==> r.id in saved.db.docs && r.at == saved.db.docs[r.id].updatedAt
    ensures Listings([BEFORE, AFTER_SAVE])
  {
  }

  lemma {:induction false} PagesOfRun(run: seq<State>, n: nat, before: State, saved: State)
    requires n < |run| && run[n] == before && run[|run| - 1] == saved && Listings([BEFORE, AFTER_SAVE])
    requires forall r :: r in BEFORE ==> r.id in before.db.docs && r.at == before.db.docs[r.id].updatedAt
    requires forall r :: r in AFTER_SAVE ==> r.id in saved.db.docs && r.at == saved.db.docs[r.id].updatedAt
    ensures ListsRun(run, [n, |run| - 1], [BEFORE, AFTER_SAVE])
  {
    var at: seq<nat> := [n, |run| - 1];
    var states := [BEFORE, AFTER_SAVE];
    forall k: nat, r: Entry | k < |at| && r in states[k]
      ensures r.id in run[at[k]].db.docs && r.at == run[at[k]].db.docs[r.id].updatedAt
    {
      if k == 0 {
        assert r in BEFORE;
      } else {
        assert r in AFTER_SAVE;
      }
    }
  }

  /**
   * It does happen: in this run a document is created, listed, saved within its first
   * millisecond, and listed again on the next page.
   */
  lemma {:induction false} NewDocumentCanComeTwice() returns (run: seq<State>, events: seq<Event>, at: seq<nat>)
    ensures IsRun(REG, run, events) && ListsRun(run, at, [BEFORE, AFTER_SAVE])
    ensures FollowOver([BEFORE, AFTER_SAVE], None, 2) == [Entry(1500, 1), Entry(1400, 2), Entry(1000, 1), Entry(900, 3)]
  {
    ShownTwice();
    var before := ThreeDocuments();
    var run0, events0 :| Reaches(run0, events0, before);
    var saved;
    run, events, saved := ThenSaved(run0, events0, before);
    at := [|run0| - 1, |run| - 1];
    TheirListings(before, saved);
    PagesOfRun(run, |run0| - 1, before, saved);
  }
}

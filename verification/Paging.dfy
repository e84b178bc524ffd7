/** Following `nextCursor` through a listing that others keep writing to. */
module Paging {
  import opened Prelude
  import opened Ranges

  const MAX_PAGE_SIZE: nat := 100

  /** What a listing sorts a row by. Instants are stored in microseconds. */
  datatype Entry = Entry(at: int, id: Id)

  /** Newest first; the id breaks the tie. */
  predicate Precedes(a: Entry, b: Entry) {
    a.at > b.at || (a.at == b.at && a.id > b.id)
  }

  ghost predicate Descending(s: seq<Entry>) {
    forall i, j :: 0 <= i < j < |s| ==> Precedes(s[i], s[j])
  }

  /** Where a page stopped. It carries milliseconds, because that is what a printed date carries. */
  datatype Bookmark = Bookmark(ms: int, id: Id)

  function BookmarkOf(r: Entry): Bookmark {
    Bookmark(r.at / 1000, r.id)
  }

  /** The entry a bookmark reads as. */
  function Place(c: Bookmark): Entry {
    Entry(c.ms * 1000, c.id)
  }

  predicate IsWhole(r: Entry) {
    r.at % 1000 == 0
  }

  ghost predicate AllWhole(s: seq<Entry>) {
    forall i :: 0 <= i < |s| ==> IsWhole(s[i])
  }

  /** The row comparison of the query, over the rows in listing order. */
  function After(s: seq<Entry>, after: Option<Bookmark>): seq<Entry> {
    if after.None? then s else StrictlyAfter(s, Place(after.value))
  }

  function StrictlyAfter(s: seq<Entry>, r: Entry): seq<Entry> {
    if s == [] then []
    else if Precedes(r, s[0]) then [s[0]] + StrictlyAfter(s[1..], r)
    else StrictlyAfter(s[1..], r)
  }

  function PageSize(limit: nat): nat {
    if limit < 1 then 1 else if limit > MAX_PAGE_SIZE then MAX_PAGE_SIZE else limit
  }

  function Take(s: seq<Entry>, n: nat): seq<Entry> {
    if n < |s| then s[..n] else s
  }

  /** `s` is what the filters select at that moment, in listing order. */
  function ListContents(s: seq<Entry>, after: Option<Bookmark>, limit: nat): seq<Entry> {
    Take(After(s, after), PageSize(limit))
  }

  datatype Page = Page(rows: seq<Entry>, next: Option<Bookmark>)

  /** The route asks for one row more than it shows, to know whether there is another page. */
  function ListRoute(s: seq<Entry>, after: Option<Bookmark>, limit: nat): Page {
    var rows := ListContents(s, after, limit + 1);
    var page := Take(rows, limit);
    Page(page, if |rows| > |page| && page != [] then Some(BookmarkOf(page[|page| - 1])) else None)
  }

  // ---------- Rows after a row ----------

  lemma {:induction false} HeadPrecedesRest(s: seq<Entry>)
    requires Descending(s) && s != []
    ensures Descending(s[1..]) && s[0] !in s[1..]
    ensures forall x :: x in s <==> x == s[0] || x in s[1..]
    ensures forall x :: x in s[1..] ==> Precedes(s[0], x)
  {
    assert s == [s[0]] + s[1..];
    assert forall i :: 0 <= i < |s[1..]| ==> s[1..][i] == s[i + 1];
  }

  lemma {:induction false} StrictlyAfterIs(s: seq<Entry>, r: Entry)
    requires Descending(s)
    ensures var t := StrictlyAfter(s, r);
            && Descending(t) && |t| <= |s|
            && (forall x :: x in t <==> x in s && Precedes(r, x))
            && (AllWhole(s) ==> AllWhole(t))
  {
    if s != [] {
      var rest := s[1..];
      StrictlyAfterIs(rest, r);
      HeadPrecedesRest(s);
      var t := StrictlyAfter(rest, r);
      assert forall i :: 0 <= i < |t| ==> t[i] in rest;
      assert AllWhole(s) ==> AllWhole(rest);
    }
  }

  lemma {:induction false} AfterIs(s: seq<Entry>, after: Option<Bookmark>)
    requires Descending(s)
    ensures var t := After(s, after);
            && Descending(t) && |t| <= |s|
            && (forall x :: x in t <==> x in s && (after.Some? ==> Precedes(Place(after.value), x)))
            && (AllWhole(s) ==> AllWhole(t))
  {
    if after.Some? {
      StrictlyAfterIs(s, Place(after.value));
    }
  }

  /** A descending sequence is determined by its rows. */
  lemma {:induction false} SameRowsSameOrder(a: seq<Entry>, b: seq<Entry>)
    requires Descending(a) && Descending(b) && forall x :: x in a <==> x in b
    ensures a == b
    decreases |a|
  {
    if b != [] {
      assert b[0] in b;
    }
    if a != [] {
      assert a[0] in b && b[0] in a;
      HeadPrecedesRest(a);
      HeadPrecedesRest(b);
      assert a[0] == b[0];
      SameRowsSameOrder(a[1..], b[1..]);
    }
  }

  lemma {:induction false} WholeRowRoundTrips(r: Entry)
    ensures Place(BookmarkOf(r)) == r <==> IsWhole(r)
    ensures Place(BookmarkOf(r)).at <= r.at
  {
  }

  // ---------- A fixed set ----------

  /** Every page from `after` on, of rows nobody writes to. */
  function Follow(s: seq<Entry>, after: Option<Bookmark>, limit: nat): seq<Entry>
    requires Descending(s) && 1 <= limit
    decreases |After(s, after)|
  {
    var page := ListRoute(s, after, limit);
    if page.next.None? then page.rows
    else
      NextIsShorter(s, after, limit);
      page.rows + Follow(s, page.next, limit)
  }

  lemma {:induction false} NextIsShorter(s: seq<Entry>, after: Option<Bookmark>, limit: nat)
    requires Descending(s) && 1 <= limit && ListRoute(s, after, limit).next.Some?
    ensures |After(s, ListRoute(s, after, limit).next)| < |After(s, after)|
  {
    var t := After(s, after);
    var next := ListRoute(s, after, limit).next;
    var rows := ListContents(s, after, limit + 1);
    var last := Take(rows, limit)[|Take(rows, limit)| - 1];
    AfterIs(s, after);
    AfterIs(s, next);
    WholeRowRoundTrips(last);
    assert last == t[|Take(rows, limit)| - 1];
    SubsetIsShorter(After(s, next), t, last, after, next);
  }

  lemma {:induction false} SubsetIsShorter(u: seq<Entry>, t: seq<Entry>, last: Entry, after: Option<Bookmark>, next: Option<Bookmark>)
    requires Descending(u) && Descending(t) && last in t && next == Some(BookmarkOf(last))
    requires forall x :: x in u ==> Precedes(Place(next.value), x)
    requires forall x :: x in u && Precedes(last, x) ==> x in t
    ensures |u| < |t|
  {
    WholeRowRoundTrips(last);
    forall x | x in u
      ensures x in t && x != last
    {
      assert Precedes(last, x);
    }
    var us, ts := set x | x in u, set x | x in t;
    assert us <= ts && last in ts && last !in us;
    DistinctCount(u);
    DistinctCount(t);
    SmallerSet(us, ts);
  }

  lemma {:induction false} SmallerSet<T>(a: set<T>, b: set<T>)
    requires a < b
    ensures |a| < |b|
  {
    assert b == a + (b - a);
    assert b - a != {};
  }

  lemma {:induction false} DistinctCount(s: seq<Entry>)
    requires Descending(s)
    ensures |set x | x in s| == |s|
    decreases |s|
  {
    if s != [] {
      var rest := s[1..];
      DistinctCount(rest);
      HeadPrecedesRest(s);
      assert (set x | x in s) == {s[0]} + (set x | x in rest);
    }
  }

  /** `x` comes after `r`, but not after what `r`'s cursor reads as. */
  predicate Lost(r: Entry, x: Entry) {
    r.at / 1000 == x.at / 1000 && (!IsWhole(x) || x.id >= r.id)
  }

  lemma {:induction false} LostIff(s: seq<Entry>, r: Entry, x: Entry)
    requires Descending(s) && x in s && Precedes(r, x)
    ensures x !in After(s, Some(BookmarkOf(r))) <==> Lost(r, x)
  {
    AfterIs(s, Some(BookmarkOf(r)));
  }

  /** No page boundary from row `m` on loses a row. */
  ghost predicate NothingLost(s: seq<Entry>, m: nat, limit: nat)
    requires limit >= 1
    decreases |s| - m
  {
    m + limit >= |s| ||
    ((forall j :: m + limit <= j < |s| ==> !Lost(s[m + limit - 1], s[j])) && NothingLost(s, m + limit, limit))
  }

  lemma {:induction false} FromDescends(s: seq<Entry>, m: nat)
    requires Descending(s) && m <= |s|
    ensures Descending(From(s, m))
  {
    forall i, j | 0 <= i < j < |s| - m
      ensures Precedes(From(s, m)[i], From(s, m)[j])
    {
      RangeAt(s, m, |s|, m + i);
      RangeAt(s, m, |s|, m + j);
    }
  }

  /** The query after the row before the boundary finds the rest exactly when none of it is lost. */
  lemma {:induction false} RestIff(s: seq<Entry>, m: nat)
    requires Descending(s) && 0 < m <= |s|
    ensures After(s, Some(BookmarkOf(s[m - 1]))) == From(s, m) <==> forall j :: m <= j < |s| ==> !Lost(s[m - 1], s[j])
  {
    var r := s[m - 1];
    var t := After(s, Some(BookmarkOf(r)));
    AfterIs(s, Some(BookmarkOf(r)));
    WholeRowRoundTrips(r);
    forall j | m <= j < |s|
      ensures s[j] in t <==> !Lost(r, s[j])
      ensures s[j] in From(s, m)
    {
      LostIff(s, r, s[j]);
      RangeMembers(s, m, |s|, s[j]);
    }
    if forall j :: m <= j < |s| ==> !Lost(r, s[j]) {
      forall x
        ensures x in t <==> x in From(s, m)
      {
        RangeMembers(s, m, |s|, x);
        if x in t {
          var k :| 0 <= k < |s| && s[k] == x;
          assert Precedes(r, x);
        }
      }
      FromDescends(s, m);
      SameRowsSameOrder(t, From(s, m));
    }
  }

  lemma {:induction false} FollowStaysAfter(s: seq<Entry>, after: Option<Bookmark>, limit: nat)
    requires Descending(s) && 1 <= limit
    ensures forall x :: x in Follow(s, after, limit) ==> x in After(s, after)
    decreases |After(s, after)|
  {
    var page := ListRoute(s, after, limit);
    var t := After(s, after);
    assert forall x :: x in page.rows ==> x in t;
    if page.next.Some? {
      NextIsShorter(s, after, limit);
      FollowStaysAfter(s, page.next, limit);
      AfterIs(s, after);
      AfterIs(s, page.next);
      var last := page.rows[|page.rows| - 1];
      WholeRowRoundTrips(last);
      assert last in t;
    }
  }

  /** One page's worth of `t`, for a limit that leaves room for the extra row. */
  lemma {:induction false} PageOf(s: seq<Entry>, after: Option<Bookmark>, limit: nat)
    requires 1 <= limit < MAX_PAGE_SIZE
    ensures var t, page := After(s, after), ListRoute(s, after, limit);
            && page.rows == Take(t, limit)
            && page.next == if |t| > limit then Some(BookmarkOf(t[limit - 1])) else None
  {
  }

  lemma {:induction false} TakeFrom(s: seq<Entry>, m: nat, k: nat)
    requires m < k <= |s|
    ensures From(s, m) == Range(s, m, k) + From(s, k)
    ensures Take(From(s, m), k - m) == Range(s, m, k) && From(s, m)[k - m - 1] == s[k - 1]
  {
    RangeSplits(s, m, k, |s|);
    RangeAt(s, m, |s|, k - 1);
  }

  lemma {:induction false} FullPage(s: seq<Entry>, after: Option<Bookmark>, m: nat, limit: nat)
    requires 1 <= limit < MAX_PAGE_SIZE && m + limit < |s| && After(s, after) == From(s, m)
    ensures ListRoute(s, after, limit) == Page(Range(s, m, m + limit), Some(BookmarkOf(s[m + limit - 1])))
  {
    PageOf(s, after, limit);
    TakeFrom(s, m, m + limit);
  }

  lemma {:induction false} FollowRest(s: seq<Entry>, after: Option<Bookmark>, m: nat, limit: nat)
    requires Descending(s) && 1 <= limit < MAX_PAGE_SIZE && m <= |s|
    requires After(s, after) == From(s, m)
    ensures Follow(s, after, limit) == From(s, m) <==> NothingLost(s, m, limit)
    decreases |s| - m, 0
  {
    var k := m + limit;
    if k < |s| {
      FullPage(s, after, m, limit);
      TakeFrom(s, m, k);
      RestFollows(s, Some(BookmarkOf(s[k - 1])), k, limit);
      SameTail(Range(s, m, k), Follow(s, Some(BookmarkOf(s[k - 1])), limit), From(s, k));
    } else {
      PageOf(s, after, limit);
    }
  }

  lemma {:induction false} RestFollows(s: seq<Entry>, next: Option<Bookmark>, k: nat, limit: nat)
    requires Descending(s) && 1 <= limit < MAX_PAGE_SIZE && 0 < k <= |s| && next == Some(BookmarkOf(s[k - 1]))
    ensures Follow(s, next, limit) == From(s, k) <==>
            (forall j :: k <= j < |s| ==> !Lost(s[k - 1], s[j])) && NothingLost(s, k, limit)
    decreases |s| - k, 1
  {
    RestIff(s, k);
    if After(s, next) == From(s, k) {
      FollowRest(s, next, k, limit);
    } else {
      MissingRow(s, next, k, limit);
    }
  }

  lemma {:induction false} SameTail<T>(a: seq<T>, x: seq<T>, y: seq<T>)
    ensures a + x == a + y <==> x == y
  {
    assert (a + x)[|a|..] == x && (a + y)[|a|..] == y;
  }

  lemma {:induction false} MissingRow(s: seq<Entry>, next: Option<Bookmark>, k: nat, limit: nat)
    requires Descending(s) && 1 <= limit && 0 < k <= |s| && next == Some(BookmarkOf(s[k - 1]))
    requires After(s, next) != From(s, k)
    ensures Follow(s, next, limit) != From(s, k)
  {
    RestIff(s, k);
    var j :| k <= j < |s| && Lost(s[k - 1], s[j]);
    LostIff(s, s[k - 1], s[j]);
    FollowStaysAfter(s, next, limit);
    RangeMembers(s, k, |s|, s[j]);
  }

  /**
   * Following the cursors returns exactly the listing, once and in order, if and only if the
   * look-ahead row fits under the page cap and no boundary loses a row. At the largest limit
   * there is never a second page.
   */
  lemma {:induction false} TraversalCompleteIff(s: seq<Entry>, limit: nat)
    requires Descending(s) && 1 <= limit <= MAX_PAGE_SIZE
    ensures Follow(s, None, limit) == s <==> if limit < MAX_PAGE_SIZE then NothingLost(s, 0, limit) else |s| <= 100
  {
    if limit < MAX_PAGE_SIZE {
      WholeRange(s);
      FollowRest(s, None, 0, limit);
    }
  }

  /** With instants in whole milliseconds no boundary loses anything. */
  lemma {:induction false} WholeLosesNothing(s: seq<Entry>, m: nat, limit: nat)
    requires Descending(s) && AllWhole(s) && limit >= 1
    ensures NothingLost(s, m, limit)
    decreases |s| - m
  {
    if m + limit < |s| {
      forall j | m + limit <= j < |s|
        ensures !Lost(s[m + limit - 1], s[j])
      {
        assert Precedes(s[m + limit - 1], s[j]);
        assert IsWhole(s[m + limit - 1]) && IsWhole(s[j]);
      }
      WholeLosesNothing(s, m + limit, limit);
    }
  }

  /** A row inserted in the same millisecond as the last one shown is never shown. */
  lemma {:induction false} SameMillisecondRowIsLost()
    ensures var s := [Entry(1700, 2), Entry(1300, 1)];
            Descending(s) && Follow(s, None, 1) == [Entry(1700, 2)]
  {
    var s := [Entry(1700, 2), Entry(1300, 1)];
    var next := Some(Bookmark(1, 2));
    assert ListRoute(s, None, 1) == Page([Entry(1700, 2)], next);
    assert StrictlyAfter(s[1..], Entry(1000, 2)) == [];
    assert After(s, next) == [];
    assert ListRoute(s, next, 1) == Page([], None);
  }

  // ---------- Rows that move between pages ----------

  /** One page from each successive state of the listing. */
  function FollowOver(states: seq<seq<Entry>>, after: Option<Bookmark>, limit: nat): seq<Entry> {
    if states == [] then []
    else
      var page := ListRoute(states[0], after, limit);
      if page.next.None? then page.rows
      else page.rows + FollowOver(states[1..], page.next, limit)
  }

  /** The last row of every page that has another page after it. */
  function Boundaries(states: seq<seq<Entry>>, after: Option<Bookmark>, limit: nat): seq<Entry> {
    if states == [] then []
    else
      var page := ListRoute(states[0], after, limit);
      if page.next.None? then []
      else [page.rows[|page.rows| - 1]] + Boundaries(states[1..], page.next, limit)
  }

  /** The reader got to the last page. */
  predicate Finished(states: seq<seq<Entry>>, after: Option<Bookmark>, limit: nat) {
    states != [] &&
    (ListRoute(states[0], after, limit).next.None? || Finished(states[1..], ListRoute(states[0], after, limit).next, limit))
  }

  ghost predicate Listings(states: seq<seq<Entry>>) {
    forall i :: 0 <= i < |states| ==> Descending(states[i])
  }

  lemma {:induction false} LaterListings(states: seq<seq<Entry>>)
    requires Listings(states) && states != []
    ensures Listings(states[1..])
  {
    assert forall i :: 0 <= i < |states[1..]| ==> states[1..][i] == states[i + 1];
  }

  predicate IsAfter(after: Option<Bookmark>, r: Entry) {
    after.Some? ==> Precedes(Place(after.value), r)
  }

  /** A bookmark is rounded up the list, never down it. */
  lemma {:induction false} BookmarkRounds(b: Entry, x: Entry)
    ensures IsAfter(Some(BookmarkOf(b)), x) ==> Precedes(b, x)
    ensures Precedes(b, x) ==> (IsAfter(Some(BookmarkOf(b)), x) <==> !Lost(b, x))
  {
  }

  /** `page` is what comes first after the bookmark, and its own bookmark splits it from the rest. */
  ghost predicate IsFirstPage(s: seq<Entry>, after: Option<Bookmark>, limit: nat, page: Page) {
    && Descending(page.rows)
    && (forall x :: x in page.rows ==> x in s && IsAfter(after, x))
    && (page.next.None? && limit < MAX_PAGE_SIZE ==> forall x :: x in s && IsAfter(after, x) ==> x in page.rows)
    && (page.next.Some? ==>
          && page.rows != []
          && var b := page.rows[|page.rows| - 1];
             && page.next == Some(BookmarkOf(b)) && b in page.rows
             && (forall x :: x in page.rows ==> x == b || Precedes(x, b))
             && (forall x :: x in s && IsAfter(after, x) ==> (x in page.rows <==> !Precedes(b, x))))
  }

  lemma {:induction false} FullPageIsFirst(s: seq<Entry>, after: Option<Bookmark>, t: seq<Entry>, limit: nat)
    requires Descending(t) && forall x :: x in t <==> x in s && IsAfter(after, x)
    requires 1 <= limit < |t|
    ensures IsFirstPage(s, after, limit, Page(t[..limit], Some(BookmarkOf(t[limit - 1]))))
  {
    SplitsAt(t, limit);
  }

  lemma {:induction false} LastPageIsFirst(s: seq<Entry>, after: Option<Bookmark>, t: seq<Entry>, limit: nat)
    requires Descending(t) && forall x :: x in t <==> x in s && IsAfter(after, x)
    requires limit < MAX_PAGE_SIZE ==> |t| <= limit
    ensures IsFirstPage(s, after, limit, Page(Take(t, limit), None))
  {
    TakeIs(t, limit);
  }

  lemma {:induction false} Splits(s: seq<Entry>, after: Option<Bookmark>, limit: nat)
    requires Descending(s) && 1 <= limit <= MAX_PAGE_SIZE
    ensures IsFirstPage(s, after, limit, ListRoute(s, after, limit))
  {
    AfterIs(s, after);
    var t := After(s, after);
    if limit == MAX_PAGE_SIZE {
      LargestPage(s, after);
      LastPageIsFirst(s, after, t, limit);
    } else {
      PageOf(s, after, limit);
      if |t| > limit {
        FullPageIsFirst(s, after, t, limit);
      } else {
        LastPageIsFirst(s, after, t, limit);
      }
    }
  }

  /** At the largest limit there is no look-ahead row, so no next page. */
  lemma {:induction false} LargestPage(s: seq<Entry>, after: Option<Bookmark>)
    ensures ListRoute(s, after, MAX_PAGE_SIZE) == Page(Take(After(s, after), MAX_PAGE_SIZE), None)
  {
  }

  lemma {:induction false} TakeIs(t: seq<Entry>, n: nat)
    requires Descending(t)
    ensures Descending(Take(t, n)) && forall x :: x in Take(t, n) ==> x in t
  {
  }

  lemma {:induction false} SplitsAt(t: seq<Entry>, limit: nat)
    requires Descending(t) && 1 <= limit < |t|
    ensures var b := t[limit - 1];
            && b in t[..limit]
            && (forall x :: x in t[..limit] ==> x == b || Precedes(x, b))
            && (forall x :: x in t ==> (x in t[..limit] <==> !Precedes(b, x)))
  {
    var b := t[limit - 1];
    assert t[..limit][limit - 1] == b;
    forall x | x in t
      ensures x in t[..limit] <==> !Precedes(b, x)
    {
      var k :| 0 <= k < |t| && t[k] == x;
      if k < limit {
        assert t[..limit][k] == x;
      }
    }
  }

  /** Whatever rows do between pages, no row comes twice and everything comes in listing order. */
  lemma {:induction false} ShownInOrder(states: seq<seq<Entry>>, after: Option<Bookmark>, limit: nat)
    requires Listings(states) && 1 <= limit <= MAX_PAGE_SIZE
    ensures Descending(FollowOver(states, after, limit))
    ensures forall x :: x in FollowOver(states, after, limit) ==> IsAfter(after, x)
    ensures forall b :: b in Boundaries(states, after, limit) ==> b in FollowOver(states, after, limit)
    decreases |states|
  {
    if states != [] {
      var page := ListRoute(states[0], after, limit);
      Splits(states[0], after, limit);
      if page.next.Some? {
        LaterListings(states);
        ShownInOrder(states[1..], page.next, limit);
        JoinsPages(page.rows, FollowOver(states[1..], page.next, limit), after, page.rows[|page.rows| - 1]);
      }
    }
  }

  lemma {:induction false} JoinsPages(rows: seq<Entry>, rest: seq<Entry>, after: Option<Bookmark>, b: Entry)
    requires Descending(rows) && Descending(rest) && b in rows
    requires forall x :: x in rows ==> (x == b || Precedes(x, b)) && IsAfter(after, x)
    requires forall x :: x in rest ==> IsAfter(Some(BookmarkOf(b)), x)
    ensures Descending(rows + rest) && forall x :: x in rows + rest ==> IsAfter(after, x)
  {
    forall x | x in rest
      ensures Precedes(b, x) && IsAfter(after, x)
    {
      BookmarkRounds(b, x);
    }
    JoinsDescending(rows, rest, b);
  }

  /** A page's last row loses `r` when the next page starts past it. */
  ghost predicate LostAt(boundaries: seq<Entry>, r: Entry) {
    exists b :: b in boundaries && Precedes(b, r) && Lost(b, r)
  }

  /**
   * While others write between pages, a row that stays where it is comes exactly once, unless
   * the last row of a page before it loses it; then it does not come at all.
   */
  lemma {:induction false} UntouchedRowsComeOnce(states: seq<seq<Entry>>, after: Option<Bookmark>, limit: nat, r: Entry)
    requires Listings(states) && 1 <= limit < MAX_PAGE_SIZE
    requires Finished(states, after, limit) && forall i :: 0 <= i < |states| ==> r in states[i]
    ensures Descending(FollowOver(states, after, limit))
    ensures r in FollowOver(states, after, limit) <==> IsAfter(after, r) && !LostAt(Boundaries(states, after, limit), r)
    decreases |states|
  {
    ShownInOrder(states, after, limit);
    var page := ListRoute(states[0], after, limit);
    assert r in states[0];
    if page.next.Some? && IsAfter(after, r) {
      var rest := states[1..];
      LaterListings(states);
      assert forall i :: 0 <= i < |rest| ==> rest[i] == states[i + 1];
      UntouchedRowsComeOnce(rest, page.next, limit, r);
      FirstPageOrLater(states, after, limit, r);
    } else {
      Splits(states[0], after, limit);
    }
  }

  lemma {:induction false} FirstPageOrLater(states: seq<seq<Entry>>, after: Option<Bookmark>, limit: nat, r: Entry)
    requires Listings(states) && 1 <= limit < MAX_PAGE_SIZE && states != [] && r in states[0] && IsAfter(after, r)
    requires ListRoute(states[0], after, limit).next.Some?
    requires var rest, next := states[1..], ListRoute(states[0], after, limit).next;
             r in FollowOver(rest, next, limit) <==> IsAfter(next, r) && !LostAt(Boundaries(rest, next, limit), r)
    ensures r in FollowOver(states, after, limit) <==> !LostAt(Boundaries(states, after, limit), r)
  {
    var page, rest := ListRoute(states[0], after, limit), states[1..];
    Splits(states[0], after, limit);
    LaterListings(states);
    ShownInOrder(rest, page.next, limit);
    var b := page.rows[|page.rows| - 1];
    BookmarkRounds(b, r);
    BoundaryAhead(b, Boundaries(rest, page.next, limit), r);
  }

  /** The first boundary decides when it comes after `r` or loses it; otherwise the others do. */
  lemma {:induction false} BoundaryAhead(b: Entry, more: seq<Entry>, r: Entry)
    requires forall x :: x in more ==> IsAfter(Some(BookmarkOf(b)), x)
    ensures LostAt([b] + more, r) <==> (Precedes(b, r) && Lost(b, r)) || LostAt(more, r)
    ensures !Precedes(b, r) ==> !LostAt(more, r)
  {
    assert b in [b] + more;
    forall x | x in more
      ensures Precedes(b, x)
    {
      BookmarkRounds(b, x);
    }
  }

  /** With instants in whole milliseconds every untouched row comes exactly once. */
  lemma {:induction false} WholeUntouchedRowsCome(states: seq<seq<Entry>>, after: Option<Bookmark>, limit: nat, r: Entry)
    requires Listings(states) && 1 <= limit < MAX_PAGE_SIZE
    requires Finished(states, after, limit) && forall i :: 0 <= i < |states| ==> r in states[i] && AllWhole(states[i])
    ensures r in FollowOver(states, after, limit) <==> IsAfter(after, r)
  {
    UntouchedRowsComeOnce(states, after, limit, r);
    ShownInOrder(states, after, limit);
    if LostAt(Boundaries(states, after, limit), r) {
      var b :| b in Boundaries(states, after, limit) && Precedes(b, r) && Lost(b, r);
      ShownRowsAreListed(states, after, limit, b);
    }
  }

  lemma {:induction false} JoinsDescending(a: seq<Entry>, b: seq<Entry>, last: Entry)
    requires Descending(a) && Descending(b)
    requires forall x :: x in a ==> x == last || Precedes(x, last)
    requires forall x :: x in b ==> Precedes(last, x)
    ensures Descending(a + b)
  {
    assert forall i :: 0 <= i < |a| ==> a[i] in a;
    assert forall i :: 0 <= i < |b| ==> b[i] in b;
  }

  /** A document's instant never goes back from one page to the next. */
  ghost predicate InstantsGrow(states: seq<seq<Entry>>) {
    forall i, j :: 0 <= i <= j < |states| ==> NotBefore(states[i], states[j])
  }

  ghost predicate NotBefore(s: seq<Entry>, later: seq<Entry>) {
    forall x, y :: x in s && y in later && x.id == y.id ==> x.at <= y.at
  }

  lemma {:induction false} ShownRowsAreListed(states: seq<seq<Entry>>, after: Option<Bookmark>, limit: nat, x: Entry)
    requires Listings(states) && 1 <= limit <= MAX_PAGE_SIZE && x in FollowOver(states, after, limit)
    ensures exists j :: 0 <= j < |states| && x in states[j]
    decreases |states|
  {
    Splits(states[0], after, limit);
    var page := ListRoute(states[0], after, limit);
    if x !in page.rows {
      LaterListings(states);
      ShownRowsAreListed(states[1..], page.next, limit, x);
      var j :| 0 <= j < |states[1..]| && x in states[1..][j];
      assert x in states[j + 1];
    } else {
      assert x in states[0];
    }
  }

  /** The state whose page shows the `i`-th row the reader sees. */
  ghost function PageOfRow(states: seq<seq<Entry>>, after: Option<Bookmark>, limit: nat, i: nat): nat {
    if states == [] || i < |ListRoute(states[0], after, limit).rows| then 0
    else
      var page := ListRoute(states[0], after, limit);
      1 + PageOfRow(states[1..], page.next, limit, i - |page.rows|)
  }

  lemma {:induction false} FirstPageShowsRow(states: seq<seq<Entry>>, after: Option<Bookmark>, limit: nat, i: nat)
    requires Listings(states) && 1 <= limit <= MAX_PAGE_SIZE && states != []
    requires i < |ListRoute(states[0], after, limit).rows|
    ensures i < |FollowOver(states, after, limit)| && FollowOver(states, after, limit)[i] in states[0]
  {
    Splits(states[0], after, limit);
    assert FollowOver(states, after, limit)[i] == ListRoute(states[0], after, limit).rows[i];
  }

  lemma {:induction false} LaterPageShowsRow(states: seq<seq<Entry>>, after: Option<Bookmark>, limit: nat, i: nat)
    requires i < |FollowOver(states, after, limit)| && i >= |ListRoute(states[0], after, limit).rows|
    ensures var page := ListRoute(states[0], after, limit);
            && i - |page.rows| < |FollowOver(states[1..], page.next, limit)|
            && FollowOver(states, after, limit)[i] == FollowOver(states[1..], page.next, limit)[i - |page.rows|]
  {
  }

  lemma {:induction false} PageShowsRow(states: seq<seq<Entry>>, after: Option<Bookmark>, limit: nat, i: nat)
    requires Listings(states) && 1 <= limit <= MAX_PAGE_SIZE && i < |FollowOver(states, after, limit)|
    ensures var a := PageOfRow(states, after, limit, i);
            a < |states| && FollowOver(states, after, limit)[i] in states[a]
    decreases |states|
  {
    var page := ListRoute(states[0], after, limit);
    if i >= |page.rows| {
      LaterListings(states);
      LaterPageShowsRow(states, after, limit, i);
      var later, k := states[1..], i - |page.rows|;
      PageShowsRow(later, page.next, limit, k);
      assert states[PageOfRow(later, page.next, limit, k) + 1] == later[PageOfRow(later, page.next, limit, k)];
    } else {
      FirstPageShowsRow(states, after, limit, i);
    }
  }

  lemma {:induction false} PagesInOrder(states: seq<seq<Entry>>, after: Option<Bookmark>, limit: nat, i: nat, j: nat)
    requires i <= j
    ensures PageOfRow(states, after, limit, i) <= PageOfRow(states, after, limit, j)
    decreases |states|
  {
    if states != [] && i >= |ListRoute(states[0], after, limit).rows| {
      var page := ListRoute(states[0], after, limit);
      PagesInOrder(states[1..], page.next, limit, i - |page.rows|, j - |page.rows|);
    }
  }

  /** While instants only grow, no document is shown twice, even one that is saved while the reader pages on. */
  lemma {:induction false} NoDocumentComesTwice(states: seq<seq<Entry>>, after: Option<Bookmark>, limit: nat,
                                                shown: seq<Entry>, i: nat, j: nat)
    requires Listings(states) && InstantsGrow(states) && 1 <= limit <= MAX_PAGE_SIZE
    requires shown == FollowOver(states, after, limit) && i < j < |shown|
    ensures shown[i].id != shown[j].id
  {
    PageShowsRow(states, after, limit, i);
    PageShowsRow(states, after, limit, j);
    PagesInOrder(states, after, limit, i, j);
    ShownInOrder(states, after, limit);
    assert NotBefore(states[PageOfRow(states, after, limit, i)], states[PageOfRow(states, after, limit, j)]);
  }
}

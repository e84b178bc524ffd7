/** The public site's reads: who is visible, and the path every page is reachable at. */
module ReadSide {
  import opened Prelude
  import opened Access
  import opened Forest
  import opened Store
  import opened StoreInvariants
  import StoreTheorems

  predicate IsPubliclyVisible(row: Row, now: int) {
    row.state.status == Published && (row.state.publishedAt.None? || row.state.publishedAt.value <= now)
  }

  // ---------- Climbing to the root ----------

  datatype Ancestry = Ancestry(slugs: seq<string>, complete: bool)

  predicate In(docs: map<Id, Row>, id: Id, kind: string, locale: string) {
    id in docs && docs[id].kind == kind && docs[id].locale == locale
  }

  /** The recursive query: the document first, then its ancestors of the same type and locale. */
  function Climb(docs: map<Id, Row>, id: Id, kind: string, locale: string, depth: nat): seq<Id>
    decreases MAX_HIERARCHY_DEPTH - depth
  {
    if !In(docs, id, kind, locale) then []
    else if depth < MAX_HIERARCHY_DEPTH && docs[id].state.parent.Some?
      then [id] + Climb(docs, docs[id].state.parent.value, kind, locale, depth + 1)
    else [id]
  }

  /** Slugs root first, for a chain that runs from the document upwards. */
  function SlugPath(docs: map<Id, Row>, c: seq<Id>): seq<string>
    requires forall i :: 0 <= i < |c| ==> c[i] in docs
  {
    seq(|c|, i requires 0 <= i < |c| => docs[c[|c| - 1 - i]].state.slug)
  }

  lemma {:induction false} ClimbIsChain(docs: map<Id, Row>, id: Id, kind: string, locale: string, depth: nat)
    ensures var c := Climb(docs, id, kind, locale, depth);
            && IsChain(Par(docs), c)
            && (forall i :: 0 <= i < |c| ==> In(docs, c[i], kind, locale))
            && (c != [] <==> In(docs, id, kind, locale))
            && (c != [] ==> c[0] == id)
            && (depth <= MAX_HIERARCHY_DEPTH ==> |c| + depth <= MAX_HIERARCHY_DEPTH + 1)
    decreases MAX_HIERARCHY_DEPTH - depth
  {
    if In(docs, id, kind, locale) && depth < MAX_HIERARCHY_DEPTH && docs[id].state.parent.Some? {
      var up := docs[id].state.parent.value;
      ClimbIsChain(docs, up, kind, locale, depth + 1);
    }
  }

  function ResolveAncestry(docs: map<Id, Row>, id: Id, kind: string, locale: string): Option<Ancestry> {
    var c := Climb(docs, id, kind, locale, 1);
    ClimbIsChain(docs, id, kind, locale, 1);
    if c == [] then None
    else Some(Ancestry(SlugPath(docs, c), docs[c[|c| - 1]].state.parent == None))
  }

  /** `c` leads from `id` to a root, inside one type and locale, within the limit. */
  ghost predicate RootPath(docs: map<Id, Row>, id: Id, kind: string, locale: string, c: seq<Id>) {
    && IsRootChain(Par(docs), c) && c[0] == id && |c| <= MAX_HIERARCHY_DEPTH
    && (forall i :: 0 <= i < |c| ==> In(docs, c[i], kind, locale))
  }

  lemma {:induction false} RestOfChain(p: Parents, c: seq<Id>)
    requires IsRootChain(p, c) && |c| > 1
    ensures p[c[0]] == Some(c[1]) && IsRootChain(p, c[1..])
  {
    var rest := c[1..];
    assert forall i :: 0 <= i < |rest| ==> rest[i] == c[i + 1];
    assert p[c[0]] == Some(c[1]);
    assert rest[|rest| - 1] == c[|c| - 1];
  }

  lemma {:induction false} ClimbFollows(docs: map<Id, Row>, c: seq<Id>, kind: string, locale: string, depth: nat)
    requires IsRootChain(Par(docs), c) && forall i :: 0 <= i < |c| ==> In(docs, c[i], kind, locale)
    requires |c| + depth <= MAX_HIERARCHY_DEPTH + 1
    ensures Climb(docs, c[0], kind, locale, depth) == c
    decreases |c|
  {
    if |c| > 1 {
      RestOfChain(Par(docs), c);
      ClimbFollows(docs, c[1..], kind, locale, depth + 1);
    }
  }

  /**
   * On any table at all, the walk is complete exactly when there is a root path, and then its
   * slugs are that path's.
   */
  lemma {:induction false} AncestryCompleteIff(docs: map<Id, Row>, id: Id, kind: string, locale: string, slugs: seq<string>)
    ensures ResolveAncestry(docs, id, kind, locale) == Some(Ancestry(slugs, true)) <==>
            exists c :: RootPath(docs, id, kind, locale, c) && slugs == SlugPath(docs, c)
  {
    var c := Climb(docs, id, kind, locale, 1);
    ClimbIsChain(docs, id, kind, locale, 1);
    if c != [] && docs[c[|c| - 1]].state.parent == None {
      assert RootPath(docs, id, kind, locale, c);
    }
    forall d | RootPath(docs, id, kind, locale, d)
      ensures c == d
    {
      ClimbFollows(docs, d, kind, locale, 1);
    }
  }

  /** Every row of a bounded forest has a root path: the write side's limit is enough. */
  lemma {:induction false} PlacedRootPath(docs: map<Id, Row>, id: Id, d: nat) returns (c: seq<Id>)
    requires Placed(docs) && HasDepth(Par(docs), id, d)
    ensures IsRootChain(Par(docs), c) && c[0] == id && |c| == d
    ensures forall i :: 0 <= i < |c| ==> In(docs, c[i], docs[id].kind, docs[id].locale)
    decreases d
  {
    if docs[id].state.parent.None? {
      c := [id];
    } else {
      var up := docs[id].state.parent.value;
      var rest := PlacedRootPath(docs, up, d - 1);
      c := [id] + rest;
    }
  }

  // ---------- Descending from the roots ----------

  datatype PathRow = PathRow(id: Id, path: seq<string>)

  predicate Extends(docs: map<Id, Row>, now: int, v: Id, up: PathRow) {
    && v in docs && IsPubliclyVisible(docs[v], now)
    && docs[v].state.parent == Some(up.id)
    && In(docs, up.id, docs[v].kind, docs[v].locale)
  }

  /** One level of the recursive query. */
  function Level(docs: map<Id, Row>, now: int, k: nat): set<PathRow>
    requires k > 0
  {
    if k == 1 then
      set v | v in docs && docs[v].state.parent.None? && IsPubliclyVisible(docs[v], now) ::
        PathRow(v, [docs[v].state.slug])
    else
      var above := Level(docs, now, k - 1);
      set v, up | v in docs && up in above && Extends(docs, now, v, up) ::
        PathRow(v, up.path + [docs[v].state.slug])
  }

  function ListPublishedPaths(docs: map<Id, Row>, now: int): set<PathRow> {
    set k: nat, r | 0 < k <= MAX_HIERARCHY_DEPTH && r in Level(docs, now, k) :: r
  }

  /** A root path all of whose documents the public may read. */
  ghost predicate VisiblePath(docs: map<Id, Row>, now: int, c: seq<Id>) {
    && IsRootChain(Par(docs), c)
    && (forall i :: 0 <= i < |c| ==> In(docs, c[i], docs[c[0]].kind, docs[c[0]].locale))
    && (forall i :: 0 <= i < |c| ==> IsPubliclyVisible(docs[c[i]], now))
  }

  lemma {:induction false} SlugPathExtends(docs: map<Id, Row>, v: Id, c: seq<Id>)
    requires v in docs && forall i :: 0 <= i < |c| ==> c[i] in docs
    ensures SlugPath(docs, [v] + c) == SlugPath(docs, c) + [docs[v].state.slug]
  {
    var left, right := SlugPath(docs, [v] + c), SlugPath(docs, c) + [docs[v].state.slug];
    forall i | 0 <= i < |left|
      ensures left[i] == right[i]
    {
      if i < |c| {
        assert ([v] + c)[|c| - i] == c[|c| - 1 - i];
      }
    }
  }

  lemma {:induction false} ChildPath(docs: map<Id, Row>, now: int, v: Id, up: PathRow, c: seq<Id>)
    requires VisiblePath(docs, now, c) && c[0] == up.id && Extends(docs, now, v, up)
    ensures VisiblePath(docs, now, [v] + c)
  {
    var e := [v] + c;
    assert e[|e| - 1] == c[|c| - 1];
  }

  lemma {:induction false} LevelRows(docs: map<Id, Row>, now: int, k: nat, r: PathRow) returns (c: seq<Id>)
    requires k > 0 && r in Level(docs, now, k)
    ensures VisiblePath(docs, now, c) && c[0] == r.id && |c| == k && r.path == SlugPath(docs, c)
    decreases k
  {
    if k == 1 {
      c := [r.id];
    } else {
      var v, up :| v in docs && up in Level(docs, now, k - 1) && Extends(docs, now, v, up)
                   && r == PathRow(v, up.path + [docs[v].state.slug]);
      var rest := LevelRows(docs, now, k - 1, up);
      ChildPath(docs, now, v, up, rest);
      SlugPathExtends(docs, v, rest);
      c := [v] + rest;
    }
  }

  lemma {:induction false} PathIsListed(docs: map<Id, Row>, now: int, c: seq<Id>)
    requires VisiblePath(docs, now, c)
    ensures PathRow(c[0], SlugPath(docs, c)) in Level(docs, now, |c|)
    decreases |c|
  {
    if |c| > 1 {
      var rest := c[1..];
      RestOfChain(Par(docs), c);
      PathIsListed(docs, now, rest);
      SlugPathExtends(docs, c[0], rest);
      assert c == [c[0]] + rest;
      assert Extends(docs, now, c[0], PathRow(rest[0], SlugPath(docs, rest)));
    } else {
      assert SlugPath(docs, c) == [docs[c[0]].state.slug];
    }
  }

  /** On any table: a row is listed exactly when a visible root path within the limit leads to it. */
  lemma {:induction false} ListedIff(docs: map<Id, Row>, now: int, r: PathRow)
    ensures r in ListPublishedPaths(docs, now) <==>
            exists c :: VisiblePath(docs, now, c) && c[0] == r.id && |c| <= MAX_HIERARCHY_DEPTH && r.path == SlugPath(docs, c)
  {
    if r in ListPublishedPaths(docs, now) {
      var k: nat :| 0 < k <= MAX_HIERARCHY_DEPTH && r in Level(docs, now, k);
      var c := LevelRows(docs, now, k, r);
    }
    if c :| VisiblePath(docs, now, c) && c[0] == r.id && |c| <= MAX_HIERARCHY_DEPTH && r.path == SlugPath(docs, c) {
      PathIsListed(docs, now, c);
    }
  }

  // ---------- What the sitemap is handed ----------

  /** The caller's limit, brought between 1 and 50 000. */
  function SitemapLimit(limit: Option<int>): nat {
    if limit.None? || limit.value > 50_000 then 50_000 else if limit.value < 1 then 1 else limit.value
  }

  function UpdatedAt(docs: map<Id, Row>, id: Id): int {
    if id in docs then docs[id].updatedAt else 0
  }

  ghost predicate DistinctRows(rows: seq<PathRow>) {
    forall i, j :: 0 <= i < j < |rows| ==> rows[i] != rows[j]
  }

  /** The first `n` of `listed`, newest first; rows of one instant come in any order. */
  ghost predicate IsTop(docs: map<Id, Row>, listed: set<PathRow>, n: nat, rows: seq<PathRow>) {
    && (forall i :: 0 <= i < |rows| ==> rows[i] in listed) && DistinctRows(rows)
    && (forall i, j :: 0 <= i < j < |rows| ==> UpdatedAt(docs, rows[i].id) >= UpdatedAt(docs, rows[j].id))
    && |rows| == (if n < |listed| then n else |listed|)
    && (forall r, i :: r in listed && r !in rows && 0 <= i < |rows| ==> UpdatedAt(docs, rows[i].id) >= UpdatedAt(docs, r.id))
  }

  /** What the query may answer. */
  ghost predicate IsAnswer(docs: map<Id, Row>, now: int, limit: Option<int>, rows: seq<PathRow>) {
    IsTop(docs, ListPublishedPaths(docs, now), SitemapLimit(limit), rows)
  }

  lemma {:induction false} NewestExists(docs: map<Id, Row>, listed: set<PathRow>) returns (m: PathRow)
    requires listed != {}
    ensures m in listed && forall r :: r in listed ==> UpdatedAt(docs, m.id) >= UpdatedAt(docs, r.id)
    decreases |listed|
  {
    m :| m in listed;
    if listed != {m} {
      var rest := NewestExists(docs, listed - {m});
      if UpdatedAt(docs, rest.id) > UpdatedAt(docs, m.id) {
        m := rest;
      }
    }
  }

  lemma {:induction false} TopExists(docs: map<Id, Row>, listed: set<PathRow>, n: nat) returns (rows: seq<PathRow>)
    ensures IsTop(docs, listed, n, rows)
    decreases n
  {
    if n == 0 || listed == {} {
      rows := [];
    } else {
      var m := NewestExists(docs, listed);
      var rest := TopExists(docs, listed - {m}, n - 1);
      rows := [m] + rest;
      assert |listed - {m}| == |listed| - 1;
      forall r | r in listed && r !in rows
        ensures r in listed - {m} && r !in rest
      {
        assert m in rows;
      }
    }
  }

  lemma {:induction false} CountDistinct(rows: seq<PathRow>)
    requires DistinctRows(rows)
    ensures |set r | r in rows| == |rows|
    decreases |rows|
  {
    if rows != [] {
      var rest, last := rows[..|rows| - 1], rows[|rows| - 1];
      CountDistinct(rest);
      assert rows == rest + [last] && last !in rest;
      assert (set r | r in rows) == (set r | r in rest) + {last};
    }
  }

  lemma {:induction false} LeftOutOnlyWhenFull(docs: map<Id, Row>, listed: set<PathRow>, n: nat, rows: seq<PathRow>, r: PathRow)
    requires IsTop(docs, listed, n, rows) && r in listed && r !in rows
    ensures |rows| == n && forall i :: 0 <= i < |rows| ==> UpdatedAt(docs, rows[i].id) >= UpdatedAt(docs, r.id)
  {
    CountDistinct(rows);
    var shown := set x | x in rows;
    assert shown <= listed - {r};
    assert listed == shown + (listed - shown);
  }

  /**
   * On any table: what the sitemap lists has a visible root path within the depth limit and is
   * listed at it, newest first; and what has one is listed, unless as many rows as the limit
   * allows, all of them at least as new, take its place.
   */
  lemma {:induction false} SitemapListsIff(docs: map<Id, Row>, now: int, limit: Option<int>, rows: seq<PathRow>, r: PathRow)
    requires IsAnswer(docs, now, limit, rows)
    ensures var deserves := exists c :: VisiblePath(docs, now, c) && c[0] == r.id && |c| <= MAX_HIERARCHY_DEPTH
                                        && r.path == SlugPath(docs, c);
            && (r in rows ==> deserves)
            && (deserves && r !in rows ==>
                  |rows| == SitemapLimit(limit)
                  && forall i :: 0 <= i < |rows| ==> UpdatedAt(docs, rows[i].id) >= UpdatedAt(docs, r.id))
    ensures |rows| <= SitemapLimit(limit)
    ensures forall i, j :: 0 <= i < j < |rows| ==> UpdatedAt(docs, rows[i].id) >= UpdatedAt(docs, rows[j].id)
  {
    ListedIff(docs, now, r);
    if r in ListPublishedPaths(docs, now) && r !in rows {
      LeftOutOnlyWhenFull(docs, ListPublishedPaths(docs, now), SitemapLimit(limit), rows, r);
    }
  }

  // ---------- The two reads agree, in every reachable state ----------

  /** `a` is `id` or one of its ancestors. */
  ghost predicate IsAtOrAbove(docs: map<Id, Row>, id: Id, a: Id) {
    exists k: nat :: Below(Par(docs), id, a, k)
  }

  lemma {:induction false} ChainReaches(p: Parents, c: seq<Id>, i: nat)
    requires IsChain(p, c) && i < |c|
    ensures Below(p, c[0], c[i], i + 1)
    decreases i
  {
    if i > 0 {
      var rest := c[1..];
      assert forall j :: 0 <= j < |rest| ==> rest[j] == c[j + 1];
      assert p[c[0]] == Some(c[1]);
      ChainReaches(p, rest, i - 1);
    }
  }

  lemma {:induction false} AboveIsOnChain(p: Parents, c: seq<Id>, a: Id, k: nat)
    requires IsRootChain(p, c) && Below(p, c[0], a, k)
    ensures a in c
    decreases k
  {
    if k > 1 {
      var rest := c[1..];
      RestOfChain(p, c);
      AboveIsOnChain(p, rest, a, k - 1);
    }
  }

  /**
   * Whatever the writers did, every document's ancestry resolves completely, and the sitemap
   * lists it at exactly that path, if and only if it and all its ancestors are visible.
   */
  lemma {:induction false} ReadSideIsTotal(docs: map<Id, Row>, id: Id, now: int, path: seq<string>)
    requires Placed(docs) && id in docs
    ensures var a := ResolveAncestry(docs, id, docs[id].kind, docs[id].locale);
            && a.Some? && a.value.complete
            && (PathRow(id, path) in ListPublishedPaths(docs, now) <==>
                  && path == a.value.slugs
                  && forall v :: v in docs && IsAtOrAbove(docs, id, v) ==> IsPubliclyVisible(docs[v], now))
  {
    var p := Par(docs);
    assert id in p;
    var d: nat :| d <= MAX_HIERARCHY_DEPTH && HasDepth(p, id, d);
    var c := PlacedRootPath(docs, id, d);
    var kind, locale := docs[id].kind, docs[id].locale;
    OnlyRootPath(docs, id, c);
    AncestryCompleteIff(docs, id, kind, locale, SlugPath(docs, c));
    ListedIff(docs, now, PathRow(id, path));
    VisibleAbove(docs, now, c);
  }

  /** A document's root path is the one way up from it. */
  lemma {:induction false} OnlyRootPath(docs: map<Id, Row>, id: Id, c: seq<Id>)
    requires id in docs && IsRootChain(Par(docs), c) && c[0] == id && |c| <= MAX_HIERARCHY_DEPTH
    requires forall i :: 0 <= i < |c| ==> In(docs, c[i], docs[id].kind, docs[id].locale)
    ensures RootPath(docs, id, docs[id].kind, docs[id].locale, c)
    ensures forall now, e :: VisiblePath(docs, now, e) && e[0] == id && |e| <= MAX_HIERARCHY_DEPTH ==> e == c
  {
    ClimbFollows(docs, c, docs[id].kind, docs[id].locale, 1);
    forall now, e | VisiblePath(docs, now, e) && e[0] == id && |e| <= MAX_HIERARCHY_DEPTH
      ensures e == c
    {
      ClimbFollows(docs, e, docs[id].kind, docs[id].locale, 1);
    }
  }

  lemma {:induction false} VisibleAbove(docs: map<Id, Row>, now: int, c: seq<Id>)
    requires IsRootChain(Par(docs), c)
    ensures (forall i :: 0 <= i < |c| ==> IsPubliclyVisible(docs[c[i]], now)) <==>
            (forall v :: v in docs && IsAtOrAbove(docs, c[0], v) ==> IsPubliclyVisible(docs[v], now))
  {
    forall i | 0 <= i < |c|
      ensures IsAtOrAbove(docs, c[0], c[i])
    {
      ChainReaches(Par(docs), c, i);
    }
    forall v | v in docs && IsAtOrAbove(docs, c[0], v)
      ensures v in c
    {
      var k: nat :| Below(Par(docs), c[0], v, k);
      AboveIsOnChain(Par(docs), c, v, k);
    }
  }

  lemma {:induction false} ReadSideIsTotalInEveryRun(reg: Registry, run: seq<State>, events: seq<Event>, i: nat, id: Id, now: int, path: seq<string>)
    requires StoreTheorems.IsRun(reg, run, events) && i < |run| && id in run[i].db.docs
    ensures var docs := run[i].db.docs;
            var a := ResolveAncestry(docs, id, docs[id].kind, docs[id].locale);
            && a.Some? && a.value.complete
            && (PathRow(id, path) in ListPublishedPaths(docs, now) <==>
                  && path == a.value.slugs
                  && forall v :: v in docs && IsAtOrAbove(docs, id, v) ==> IsPubliclyVisible(docs[v], now))
  {
    StoreTheorems.RunInv(reg, run, events, i);
    ReadSideIsTotal(run[i].db.docs, id, now, path);
  }

  lemma {:induction false} ListedUnderOwnSlug(docs: map<Id, Row>, now: int, r: PathRow)
    requires r in ListPublishedPaths(docs, now)
    ensures r.id in docs && |r.path| > 0 && r.path[|r.path| - 1] == docs[r.id].state.slug
  {
    var k: nat :| 0 < k <= MAX_HIERARCHY_DEPTH && r in Level(docs, now, k);
    var c := LevelRows(docs, now, k, r);
  }

  /** No two documents of one type and locale are listed at the same path. */
  lemma {:induction false} PathsIdentify(docs: map<Id, Row>, now: int, a: PathRow, b: PathRow)
    requires SlugsUnique(docs) && a.id in docs && b.id in docs
    requires a in ListPublishedPaths(docs, now) && b in ListPublishedPaths(docs, now)
    requires docs[a.id].kind == docs[b.id].kind && docs[a.id].locale == docs[b.id].locale && a.path == b.path
    ensures a.id == b.id
  {
    ListedUnderOwnSlug(docs, now, a);
    ListedUnderOwnSlug(docs, now, b);
  }
}

/** How much history a document keeps, and which part of it. */
module Revisions {
  import opened Prelude
  import opened ContentModel

  const REVISION_LIMIT: nat := 50

  type Order = (Revision, Revision) -> bool

  /** The delete statement's order: recording time first, version only to break ties. */
  function Later(): Order {
    (a: Revision, b: Revision) => a.createdAt > b.createdAt || (a.createdAt == b.createdAt && a.version > b.version)
  }

  /** The domain's own order. */
  function Newer(): Order {
    (a: Revision, b: Revision) => a.version > b.version
  }

  function Above(s: set<Revision>, order: Order, r: Revision): set<Revision> {
    set q | q in s && order(q, r)
  }

  /** The first `REVISION_LIMIT` rows under an order: those with fewer than that many above them. */
  function Top(s: set<Revision>, order: Order): set<Revision> {
    set r | r in s && |Above(s, order, r)| < REVISION_LIMIT
  }

  function PruneRevisions(s: set<Revision>): set<Revision> {
    Top(s, Later())
  }

  function Recorded(s: set<Revision>, r: Revision): set<Revision> {
    PruneRevisions(s + {r})
  }

  ghost predicate DistinctVersions(s: set<Revision>) {
    forall a, b :: a in s && b in s && a.version == b.version ==> a == b
  }

  ghost predicate IsLast(s: set<Revision>, order: Order, m: Revision) {
    m in s && !order(m, m) && forall r :: r in s && r != m ==> order(r, m) && !order(m, r)
  }

  /** `order` ranks `s`: any subset has a last row. */
  ghost predicate Ranks(s: set<Revision>, order: Order) {
    && (forall a :: a in s ==> !order(a, a))
    && (forall a, b :: a in s && b in s && a != b ==> order(a, b) != order(b, a))
    && (forall a, b, c :: a in s && b in s && c in s && order(a, b) && order(b, c) ==> order(a, c))
  }

  lemma {:induction false} SubsetSize(a: set<Revision>, b: set<Revision>)
    requires a <= b
    ensures |a| <= |b|
  {
    assert a + (b - a) == b;
  }

  lemma {:induction false} LastExists(s: set<Revision>, order: Order) returns (m: Revision)
    requires Ranks(s, order) && s != {}
    ensures IsLast(s, order, m)
    decreases |s|
  {
    var x :| x in s;
    if s == {x} {
      m := x;
    } else {
      m := LastExists(s - {x}, order);
      if order(m, x) {
        m := x;
      }
    }
  }

  lemma {:induction false} TopOfFew(s: set<Revision>, order: Order)
    requires Ranks(s, order) && |s| <= REVISION_LIMIT
    ensures Top(s, order) == s
  {
    forall r | r in s
      ensures |Above(s, order, r)| < REVISION_LIMIT
    {
      SubsetSize(Above(s, order, r), s - {r});
    }
  }

  lemma {:induction false} TopDropsLast(s: set<Revision>, order: Order, m: Revision)
    requires Ranks(s, order) && IsLast(s, order, m) && |s| > REVISION_LIMIT
    ensures Top(s, order) == Top(s - {m}, order)
  {
    assert Above(s, order, m) == s - {m};
    forall r | r in s && r != m
      ensures Above(s, order, r) == Above(s - {m}, order, r)
    {
    }
  }

  /** Never more than the limit, however much has piled up. */
  lemma {:induction false} TopIsBounded(s: set<Revision>, order: Order)
    requires Ranks(s, order)
    ensures |Top(s, order)| == if |s| <= REVISION_LIMIT then |s| else REVISION_LIMIT
    decreases |s|
  {
    if |s| <= REVISION_LIMIT {
      TopOfFew(s, order);
    } else {
      var m := LastExists(s, order);
      TopDropsLast(s, order, m);
      TopIsBounded(s - {m}, order);
    }
  }

  /** One row too many: exactly the last one goes. */
  lemma {:induction false} TopOfOneTooMany(s: set<Revision>, order: Order, m: Revision)
    requires Ranks(s, order) && IsLast(s, order, m) && |s| == REVISION_LIMIT + 1
    ensures Top(s, order) == s - {m}
  {
    TopDropsLast(s, order, m);
    TopOfFew(s - {m}, order);
  }

  lemma {:induction false} OrdersRank(s: set<Revision>)
    requires DistinctVersions(s)
    ensures Ranks(s, Later()) && Ranks(s, Newer())
  {
  }

  ghost predicate IsLowest(s: set<Revision>, m: Revision) {
    m in s && forall r :: r in s ==> m.version <= r.version
  }

  /** The lowest-numbered row was also recorded no later than any other. */
  ghost predicate LowestIsEarliest(s: set<Revision>) {
    exists m :: IsLowest(s, m) && forall r :: r in s ==> m.createdAt <= r.createdAt
  }

  /**
   * When pruning keeps the newest versions: exactly when there is nothing to prune, or the
   * lowest-numbered row is the one recorded first. Recording times are the start times of
   * transactions, so writers that wait for each other can break the condition.
   */
  lemma {:induction false} PruneKeepsNewestIff(s: set<Revision>)
    requires DistinctVersions(s) && |s| <= REVISION_LIMIT + 1
    ensures PruneRevisions(s) == Top(s, Newer()) <==> |s| <= REVISION_LIMIT || LowestIsEarliest(s)
  {
    OrdersRank(s);
    if |s| <= REVISION_LIMIT {
      TopOfFew(s, Later());
      TopOfFew(s, Newer());
    } else {
      var byTime := LastExists(s, Later());
      var byVersion := LastExists(s, Newer());
      TopOfOneTooMany(s, Later(), byTime);
      TopOfOneTooMany(s, Newer(), byVersion);
      assert IsLowest(s, byVersion);
      if LowestIsEarliest(s) {
        var m :| IsLowest(s, m) && forall r :: r in s ==> m.createdAt <= r.createdAt;
        assert m.version == byVersion.version;
        assert IsLast(s, Later(), m);
      }
      assert byVersion == byTime ==> LowestIsEarliest(s);
      assert byVersion in s - {byTime} <==> byVersion != byTime;
    }
  }

  /** `s` holds one row for each of the last fifty versions before `version`, and no other. */
  ghost predicate HoldsNewest(s: set<Revision>, version: nat) {
    && DistinctVersions(s)
    && (forall r :: r in s ==> 1 <= r.version < version && r.version + REVISION_LIMIT >= version)
    && |s| == if version - 1 <= REVISION_LIMIT then version - 1 else REVISION_LIMIT
  }

  /** Recording in time order keeps the history contiguous, one save after another. */
  lemma {:induction false} RecordingKeepsNewest(s: set<Revision>, r: Revision)
    requires r.version >= 1 && HoldsNewest(s, r.version)
    requires LowestIsEarliest(s + {r})
    ensures HoldsNewest(Recorded(s, r), r.version + 1)
    ensures r in Recorded(s, r)
  {
    var all := s + {r};
    assert r !in s && |all| == |s| + 1 && DistinctVersions(all);
    PruneKeepsNewestIff(all);
    if |all| <= REVISION_LIMIT {
      OrdersRank(all);
      TopOfFew(all, Newer());
    } else {
      OldestGoes(s, r);
    }
  }

  lemma {:induction false} OldestGoes(s: set<Revision>, r: Revision)
    requires HoldsNewest(s, r.version) && |s| == REVISION_LIMIT && DistinctVersions(s + {r}) && r !in s
    ensures HoldsNewest(Top(s + {r}, Newer()), r.version + 1) && r in Top(s + {r}, Newer())
  {
    var all := s + {r};
    OrdersRank(all);
    var m := LastExists(all, Newer());
    TopOfOneTooMany(all, Newer(), m);
    NoRoom(s, r.version);
    var x :| x in s && x.version + REVISION_LIMIT == r.version;
    assert x == m;
  }

  function VersionsOf(s: set<Revision>): set<int> {
    set r | r in s :: r.version
  }

  lemma {:induction false} VersionsCount(s: set<Revision>)
    requires DistinctVersions(s)
    ensures |VersionsOf(s)| == |s|
    decreases |s|
  {
    if s != {} {
      var x :| x in s;
      VersionsCount(s - {x});
      assert VersionsOf(s) == VersionsOf(s - {x}) + {x.version};
      assert x.version !in VersionsOf(s - {x});
    }
  }

  lemma {:induction false} RangeCount(a: int, b: int, s: set<int>)
    requires a <= b && forall n :: n in s ==> a <= n < b
    ensures |s| <= b - a
    decreases b - a
  {
    if a < b {
      RangeCount(a, b - 1, s - {b - 1});
    } else {
      assert s == {};
    }
  }

  /** Fifty distinct versions among the last fifty leave none out. */
  lemma {:induction false} NoRoom(s: set<Revision>, version: nat)
    requires HoldsNewest(s, version) && |s| == REVISION_LIMIT
    ensures exists x :: x in s && x.version + REVISION_LIMIT == version
  {
    VersionsCount(s);
    var low := version - REVISION_LIMIT;
    if low !in VersionsOf(s) {
      RangeCount(low + 1, version, VersionsOf(s));
    }
    assert low in VersionsOf(s);
  }

  /** Recording keeps the history contiguous exactly when nothing is pruned or the lowest version was recorded first. */
  lemma {:induction false} RecordingKeepsNewestIff(s: set<Revision>, r: Revision)
    requires r.version >= 1 && HoldsNewest(s, r.version)
    ensures HoldsNewest(Recorded(s, r), r.version + 1) <==> |s| < REVISION_LIMIT || LowestIsEarliest(s + {r})
  {
    assert r !in s && |s + {r}| == |s| + 1;
    if |s| < REVISION_LIMIT {
      FewKeepNewest(s, r);
    } else if LowestIsEarliest(s + {r}) {
      RecordingKeepsNewest(s, r);
    } else {
      OtherThanOldestGoes(s, r);
    }
  }

  lemma {:induction false} FewKeepNewest(s: set<Revision>, r: Revision)
    requires r.version >= 1 && HoldsNewest(s, r.version) && |s| < REVISION_LIMIT && |s + {r}| == |s| + 1
    ensures HoldsNewest(Recorded(s, r), r.version + 1)
  {
    OrdersRank(s + {r});
    TopOfFew(s + {r}, Later());
  }

  /** The version that should have gone stays, and a newer one goes. */
  lemma {:induction false} OtherThanOldestGoes(s: set<Revision>, r: Revision)
    requires HoldsNewest(s, r.version) && |s| == REVISION_LIMIT && |s + {r}| == |s| + 1 && !LowestIsEarliest(s + {r})
    ensures exists x :: x in Recorded(s, r) && x.version + REVISION_LIMIT == r.version
    ensures !HoldsNewest(Recorded(s, r), r.version + 1)
  {
    var all := s + {r};
    OrdersRank(all);
    var byTime := LastExists(all, Later());
    TopOfOneTooMany(all, Later(), byTime);
    NoRoom(s, r.version);
    var x :| x in s && x.version + REVISION_LIMIT == r.version;
    assert IsLowest(all, x);
    assert x != byTime;
  }

  /** When each version of a history was recorded, by two writers who started in the other order and a third after them. */
  function SwappedTime(v: nat): int {
    if v == 1 then 2000 else if v == 2 then 1000 else 1000 * v
  }

  function SwappedHistory(author: Option<Id>, state: DocState, n: nat): set<Revision> {
    set v: nat | 1 <= v <= n :: Revision(v, SwappedTime(v), author, state)
  }

  lemma {:induction false} SwappedHistorySize(author: Option<Id>, state: DocState, n: nat)
    ensures |SwappedHistory(author, state, n)| == n
  {
    if n > 0 {
      SwappedHistorySize(author, state, n - 1);
      assert SwappedHistory(author, state, n) == SwappedHistory(author, state, n - 1) + {Revision(n, SwappedTime(n), author, state)};
    }
  }

  lemma {:induction false} SwappedGrows(author: Option<Id>, state: DocState, v: nat)
    requires 1 <= v <= REVISION_LIMIT
    ensures Recorded(SwappedHistory(author, state, v - 1), Revision(v, SwappedTime(v), author, state)) == SwappedHistory(author, state, v)
  {
    var all := SwappedHistory(author, state, v);
    SwappedHistorySize(author, state, v);
    assert SwappedHistory(author, state, v - 1) + {Revision(v, SwappedTime(v), author, state)} == all;
    OrdersRank(all);
    TopOfFew(all, Later());
  }

  lemma {:induction false} SecondIsLast(author: Option<Id>, state: DocState)
    ensures IsLast(SwappedHistory(author, state, 51), Later(), Revision(2, 1000, author, state))
  {
    var all, second := SwappedHistory(author, state, 51), Revision(2, 1000, author, state);
    assert Revision(2, SwappedTime(2), author, state) in all;
    forall r | r in all && r != second
      ensures r.createdAt > second.createdAt
    {
      assert r.version != 2;
    }
  }

  lemma {:induction false} FiftyFirst(author: Option<Id>, state: DocState)
    ensures SwappedHistory(author, state, 51) == SwappedHistory(author, state, 50) + {Revision(51, 51000, author, state)}
  {
    assert SwappedTime(51) == 51000;
    forall r
      ensures r in SwappedHistory(author, state, 51) <==> r in SwappedHistory(author, state, 50) + {Revision(51, 51000, author, state)}
    {
    }
  }

  /**
   * Two writers who commit in the other order than they started record neighbouring versions
   * with swapped times. Fifty versions on, the older of the two stays and the newer one goes.
   */
  lemma {:induction false} SwappedWritersLeaveAGap(author: Option<Id>, state: DocState)
    ensures HoldsNewest(SwappedHistory(author, state, 50), 51)
    ensures var kept := Recorded(SwappedHistory(author, state, 50), Revision(51, 51000, author, state));
            && kept == SwappedHistory(author, state, 51) - {Revision(2, 1000, author, state)}
            && Revision(1, 2000, author, state) in kept
            && !HoldsNewest(kept, 52)
  {
    var all, first := SwappedHistory(author, state, 51), Revision(1, 2000, author, state);
    SwappedHistorySize(author, state, 50);
    SwappedHistorySize(author, state, 51);
    SecondIsLast(author, state);
    FiftyFirst(author, state);
    OrdersRank(all);
    TopOfOneTooMany(all, Later(), Revision(2, 1000, author, state));
    assert Revision(1, SwappedTime(1), author, state) in all;
    assert first.version + REVISION_LIMIT < 52;
  }

  /** A full history, each version recorded a second after the one before. */
  function FullHistory(state: DocState, n: nat): set<Revision> {
    set v: nat | 1 <= v <= n :: Revision(v, 1000 * v, None, state)
  }

  lemma {:induction false} FullHistorySize(state: DocState, n: nat)
    ensures |FullHistory(state, n)| == n
  {
    if n > 0 {
      FullHistorySize(state, n - 1);
      assert FullHistory(state, n) == FullHistory(state, n - 1) + {Revision(n, 1000 * n, None, state)};
    }
  }

  /**
   * A writer that started before the others and waited for them records its revision with the
   * earliest time, and loses it to its own pruning: the newest version is the one dropped.
   */
  lemma {:induction false} LateWriterLosesItsRevision(state: DocState)
    ensures var s := FullHistory(state, 50);
            var r := Revision(51, 999, None, state);
            HoldsNewest(s, 51) && r !in Recorded(s, r) && Recorded(s, r) == s
  {
    var s := FullHistory(state, 50);
    var r := Revision(51, 999, None, state);
    FullHistorySize(state, 50);
    OrdersRank(s + {r});
    assert r !in s;
    assert IsLast(s + {r}, Later(), r);
    TopOfOneTooMany(s + {r}, Later(), r);
    assert s + {r} - {r} == s;
  }
}

/** The walk that decides whether a document may be hung under another one. */
module ParentCheck {
  import opened Prelude
  import opened Forest

  /** The columns the walk reads. */
  datatype Place = Place(parent: Option<Id>, kind: string, locale: string)

  datatype Verdict = Usable | ParentNotFound | ParentMismatch | ParentCycle | ParentTooDeep

  function ParentsOf(rows: map<Id, Place>): Parents {
    map id | id in rows :: rows[id].parent
  }

  function HeightOf(p: Parents, child: Option<Id>): nat {
    if child.None? then 1 else SubtreeHeight(p, child.value)
  }

  /** What a usable parent is, with no mention of the walk. */
  ghost predicate UsableParent(rows: map<Id, Place>, child: Option<Id>, parent: Id, kind: string, locale: string) {
    exists path ::
      && IsRootChain(ParentsOf(rows), path) && path[0] == parent
      && (child.Some? ==> child.value !in path)
      && rows[parent].kind == kind && rows[parent].locale == locale
      && |path| + HeightOf(ParentsOf(rows), child) <= MAX_HIERARCHY_DEPTH
  }

  ghost predicate IsUnder(p: Parents, v: Id, c: Id) {
    exists k: nat :: Below(p, v, c, k)
  }

  lemma {:induction false} ChainsAgree(p: Parents, a: seq<Id>, b: seq<Id>, i: nat)
    requires IsChain(p, a) && IsChain(p, b) && i < |a| && i < |b| && a[0] == b[0]
    ensures a[i] == b[i]
    decreases i
  {
    if i > 0 {
      ChainsAgree(p, a, b, i - 1);
    }
  }

  lemma {:induction false} NoChainOutrunsRoot(p: Parents, path: seq<Id>, walk: seq<Id>)
    requires IsRootChain(p, path) && IsChain(p, walk) && walk != [] && walk[0] == path[0]
    ensures |walk| <= |path|
    decreases |walk|
  {
    assert |walk| > 1 ==> p[walk[0]] == Some(walk[1]);
    if |walk| > 1 && |path| > 1 {
      assert p[path[0]] == Some(path[1]);
      assert forall i :: 0 <= i < |path| - 1 ==> path[1..][i] == path[i + 1];
      assert forall i :: 0 <= i < |walk| - 1 ==> walk[1..][i] == walk[i + 1];
      NoChainOutrunsRoot(p, path[1..], walk[1..]);
    }
  }

  /** A walk that has not reached a root is a strict prefix of any chain that does. */
  lemma {:induction false} WalkIsPrefix(p: Parents, walk: seq<Id>, cursor: Id, path: seq<Id>)
    requires IsRootChain(p, path) && IsChain(p, walk)
    requires walk == [] ==> path[0] == cursor
    requires walk != [] ==> walk[0] == path[0] && p[walk[|walk| - 1]] == Some(cursor)
    ensures |walk| < |path| && path[|walk|] == cursor
  {
    if walk != [] {
      NoChainOutrunsRoot(p, path, walk);
      ChainsAgree(p, walk, path, |walk| - 1);
    }
  }

  lemma {:induction false} ChainIsUnder(p: Parents, walk: seq<Id>, cursor: Id, i: nat)
    requires IsChain(p, walk) && i < |walk| && cursor in p
    requires p[walk[|walk| - 1]] == Some(cursor)
    ensures Below(p, walk[i], cursor, |walk| - i + 1)
    decreases |walk| - i
  {
    if i < |walk| - 1 {
      ChainIsUnder(p, walk, cursor, i + 1);
    } else {
      assert Below(p, cursor, cursor, 1);
    }
  }

  method AssertUsableParent(rows: map<Id, Place>, child: Option<Id>, parent: Id, kind: string, locale: string)
    returns (verdict: Verdict)
    requires child.Some? ==> child.value in rows
    // On any table, even one that is not a forest:
    ensures verdict == Usable <==> UsableParent(rows, child, parent, kind, locale)
    ensures verdict == ParentNotFound ==> child != Some(parent)
    // On a forest, every refusal names its reason:
    ensures IsForest(ParentsOf(rows)) ==>
      && (verdict == ParentNotFound <==> parent !in rows)
      && (verdict == ParentMismatch <==>
            parent in rows && child != Some(parent) && (rows[parent].kind != kind || rows[parent].locale != locale))
      && (verdict == ParentCycle <==>
            child.Some? && IsUnder(ParentsOf(rows), parent, child.value)
            && (child.value == parent || (rows[parent].kind == kind && rows[parent].locale == locale)))
  {
    ghost var p := ParentsOf(rows);
    ghost var walk: seq<Id> := [];
    var current := Some(parent);
    var depth := 0;
    while current.Some?
      invariant depth == |walk| <= MAX_HIERARCHY_DEPTH + 1
      invariant IsChain(p, walk)
      invariant child.Some? ==> child.value !in walk
      invariant walk == [] ==> current == Some(parent)
      invariant walk != [] ==>
        walk[0] == parent && p[walk[|walk| - 1]] == current &&
        rows[parent].kind == kind && rows[parent].locale == locale
      decreases MAX_HIERARCHY_DEPTH + 2 - depth
    {
      var id := current.value;
      forall path | IsRootChain(p, path) && path[0] == parent
        ensures |walk| < |path| && path[|walk|] == id
      {
        WalkIsPrefix(p, walk, id, path);
      }
      if child == Some(id) {
        if walk == [] {
          assert Below(p, parent, id, 1);
        } else {
          ChainIsUnder(p, walk, id, 0);
        }
        return ParentCycle;
      }
      depth := depth + 1;
      if depth > MAX_HIERARCHY_DEPTH + 1 {
        NoLongChains(p, walk);
        return ParentTooDeep;
      }
      if id !in rows {
        MissingMeansNoForest(p, walk, id);
        return ParentNotFound;
      }
      if depth == 1 && (rows[id].kind != kind || rows[id].locale != locale) {
        return ParentMismatch;
      }
      walk := walk + [id];
      current := rows[id].parent;
    }
    if child.Some? {
      forall k: nat
        ensures !Below(p, parent, child.value, k)
      {
        ChainAvoids(p, walk, child.value, 0, k);
      }
    }
    var height := 1;
    if child.Some? {
      height := SubtreeHeight(ParentsOf(rows), child.value);
    }
    forall path | IsRootChain(p, path) && path[0] == parent
      ensures path == walk
    {
      SameRootChain(p, walk, path);
    }
    if depth + height > MAX_HIERARCHY_DEPTH {
      return ParentTooDeep;
    }
    assert IsRootChain(p, walk);
    return Usable;
  }

  lemma {:induction false} SameRootChain(p: Parents, a: seq<Id>, b: seq<Id>)
    requires IsRootChain(p, a) && IsRootChain(p, b) && a[0] == b[0]
    ensures a == b
  {
    NoChainOutrunsRoot(p, a, b);
    NoChainOutrunsRoot(p, b, a);
    forall i | 0 <= i < |a|
      ensures a[i] == b[i]
    {
      ChainsAgree(p, a, b, i);
    }
  }

  /** The runaway guard: a walk this long is impossible on a forest. */
  lemma {:induction false} NoLongChains(p: Parents, walk: seq<Id>)
    requires IsChain(p, walk) && |walk| > MAX_HIERARCHY_DEPTH
    ensures !IsForest(p)
  {
    if IsForest(p) {
      var last := walk[|walk| - 1];
      LevelOnChain(p, walk, 0);
      ForestLevels(p, last);
      assert false;
    }
  }

  lemma {:induction false} LevelOnChain(p: Parents, walk: seq<Id>, i: nat)
    requires IsChain(p, walk) && i < |walk|
    ensures Below(p, walk[i], walk[|walk| - 1], |walk| - i)
    decreases |walk| - i
  {
    if i < |walk| - 1 {
      LevelOnChain(p, walk, i + 1);
    }
  }

  lemma {:induction false} MissingMeansNoForest(p: Parents, walk: seq<Id>, id: Id)
    requires IsChain(p, walk) && id !in p
    requires walk != [] ==> p[walk[|walk| - 1]] == Some(id)
    ensures IsForest(p) ==> walk == []
  {
    if IsForest(p) && walk != [] {
      var last := walk[|walk| - 1];
      var d: nat :| d <= MAX_HIERARCHY_DEPTH && HasDepth(p, last, d);
      assert !HasDepth(p, id, d - 1);
      assert false;
    }
  }

  /** A move the check accepts leaves a forest of bounded depth. */
  lemma {:induction false} AcceptedMoveKeepsForest(rows: map<Id, Place>, child: Option<Id>, placed: Id, parent: Id, kind: string, locale: string)
    requires IsForest(ParentsOf(rows))
    requires UsableParent(rows, child, parent, kind, locale)
    requires child.Some? ==> child.value == placed && placed in rows
    requires child.None? ==> placed !in rows
    ensures IsForest(Graft(ParentsOf(rows), placed, parent))
  {
    var p := ParentsOf(rows);
    var path :|
      && IsRootChain(p, path) && path[0] == parent
      && (child.Some? ==> child.value !in path)
      && |path| + HeightOf(p, child) <= MAX_HIERARCHY_DEPTH;
    if child.Some? {
      SubtreeHeightExact(p, placed);
    } else {
      NothingBelowAbsent(p, placed);
    }
    GraftKeepsForest(p, placed, path, HeightOf(p, child));
  }

  lemma {:induction false} AbsentHasNoLevels(p: Parents, v: Id, c: Id, k: nat)
    requires c !in p
    ensures !Below(p, v, c, k)
    decreases k
  {
    if Below(p, v, c, k) && k > 1 {
      AbsentHasNoLevels(p, p[v].value, c, k - 1);
    }
  }

  lemma {:induction false} NothingBelowAbsent(p: Parents, c: Id)
    requires c !in p
    ensures NoDeeper(p, c, 0)
    ensures NoDeeper(p, c, 1)
  {
    forall v, k: nat
      ensures !Below(p, v, c, k)
    {
      AbsentHasNoLevels(p, v, c, k);
    }
  }
}

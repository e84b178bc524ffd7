/**
 * The page tree, as the `parent_id` column of the documents table.
 *
 * Depth and subtree height are given by relations that follow parent links, so
 * that "the table is a forest of bounded depth" can be said without assuming
 * there is no cycle.
 */
module Forest {
  import opened Prelude

  /** Every row's parent column. */
  type Parents = map<Id, Option<Id>>

  const MAX_HIERARCHY_DEPTH: nat := 8

  /** Following parents from `id` meets a root after exactly `d` rows. */
  ghost predicate HasDepth(p: Parents, id: Id, d: nat)
    decreases d
  {
    d > 0 && id in p &&
    match p[id]
    case None => d == 1
    case Some(up) => HasDepth(p, up, d - 1)
  }

  /** `v` is found on level `k` of the subtree of `c`; `c` itself is on level 1. */
  ghost predicate Below(p: Parents, v: Id, c: Id, k: nat)
    decreases k
  {
    k > 0 && v in p &&
    if k == 1 then v == c
    else p[v].Some? && Below(p, p[v].value, c, k - 1)
  }

  ghost predicate WithinDepth(p: Parents, id: Id, limit: nat) {
    exists d: nat :: d <= limit && HasDepth(p, id, d)
  }

  /** Every row has a root above it, at most `MAX_HIERARCHY_DEPTH` rows up. So no cycles. */
  ghost predicate IsForest(p: Parents) {
    forall id :: id in p ==> WithinDepth(p, id, MAX_HIERARCHY_DEPTH)
  }

  /** No subtree row of `c` is below level `h`. */
  ghost predicate NoDeeper(p: Parents, c: Id, h: nat) {
    forall v, k: nat :: Below(p, v, c, k) ==> k <= h
  }

  /** Consecutive parents, starting anywhere. */
  ghost predicate IsChain(p: Parents, path: seq<Id>) {
    && (forall i :: 0 <= i < |path| ==> path[i] in p)
    && (forall i :: 0 <= i < |path| - 1 ==> p[path[i]] == Some(path[i + 1]))
  }

  /** A chain that ends at a root. */
  ghost predicate IsRootChain(p: Parents, path: seq<Id>) {
    |path| > 0 && IsChain(p, path) && p[path[|path| - 1]] == None
  }

  /** `p2` has no parent link, and no row, that `p` does not have. */
  ghost predicate LinksRemoved(p: Parents, p2: Parents) {
    && p2.Keys <= p.Keys
    && (forall v :: v in p2 && p2[v].Some? ==> p2[v] == p[v] && p2[v].value in p2)
  }

  // ---------- Depth and levels ----------

  lemma {:induction false} DepthUnique(p: Parents, id: Id, d: nat, e: nat)
    requires HasDepth(p, id, d) && HasDepth(p, id, e)
    ensures d == e
    decreases d
  {
    if p[id].Some? {
      DepthUnique(p, p[id].value, d - 1, e - 1);
    }
  }

  lemma {:induction false} LevelWithinDepth(p: Parents, v: Id, c: Id, d: nat, k: nat)
    requires HasDepth(p, v, d) && Below(p, v, c, k)
    ensures k <= d && HasDepth(p, c, d + 1 - k)
    decreases k
  {
    if k > 1 {
      LevelWithinDepth(p, p[v].value, c, d - 1, k - 1);
    }
  }

  lemma {:induction false} ForestLevels(p: Parents, c: Id)
    requires IsForest(p)
    ensures NoDeeper(p, c, MAX_HIERARCHY_DEPTH)
  {
    forall v, k: nat | Below(p, v, c, k)
      ensures k <= MAX_HIERARCHY_DEPTH
    {
      assert v in p;
      var d: nat :| d <= MAX_HIERARCHY_DEPTH && HasDepth(p, v, d);
      LevelWithinDepth(p, v, c, d, k);
    }
  }

  lemma {:induction false} ChainDepth(p: Parents, path: seq<Id>)
    requires IsRootChain(p, path)
    ensures HasDepth(p, path[0], |path|)
  {
    if |path| > 1 {
      var rest := path[1..];
      assert forall i :: 0 <= i < |rest| ==> rest[i] == path[i + 1];
      assert rest[|rest| - 1] == path[|path| - 1];
      ChainDepth(p, rest);
    }
  }

  /** No row of a chain that reaches a root without meeting `c` is under `c`. */
  lemma {:induction false} ChainAvoids(p: Parents, path: seq<Id>, c: Id, i: nat, k: nat)
    requires IsRootChain(p, path) && c !in path && i < |path|
    ensures !Below(p, path[i], c, k)
    decreases k
  {
    if k > 1 && i < |path| - 1 {
      ChainAvoids(p, path, c, i + 1, k - 1);
    }
  }

  // ---------- Removing links ----------

  lemma {:induction false} RemovalLevels(p: Parents, p2: Parents, v: Id, c: Id, k: nat)
    requires LinksRemoved(p, p2) && Below(p2, v, c, k)
    ensures Below(p, v, c, k)
    decreases k
  {
    if k > 1 {
      RemovalLevels(p, p2, p2[v].value, c, k - 1);
    }
  }

  lemma {:induction false} RemovalDepth(p: Parents, p2: Parents, v: Id, d: nat)
    requires LinksRemoved(p, p2) && v in p2 && HasDepth(p, v, d)
    ensures WithinDepth(p2, v, d)
    decreases d
  {
    if p2[v].None? {
      assert HasDepth(p2, v, 1);
    } else {
      RemovalDepth(p, p2, p2[v].value, d - 1);
      var e: nat :| e <= d - 1 && HasDepth(p2, p2[v].value, e);
      assert HasDepth(p2, v, e + 1);
    }
  }

  lemma {:induction false} RemovalKeepsForest(p: Parents, p2: Parents)
    requires IsForest(p) && LinksRemoved(p, p2)
    ensures IsForest(p2)
  {
    forall v | v in p2
      ensures WithinDepth(p2, v, MAX_HIERARCHY_DEPTH)
    {
      assert v in p;
      var d: nat :| d <= MAX_HIERARCHY_DEPTH && HasDepth(p, v, d);
      RemovalDepth(p, p2, v, d);
    }
  }

  // ---------- Grafting ----------

  /** `x` hung under the first row of a root chain. `x` may be new, or may bring a subtree. */
  function Graft(p: Parents, x: Id, parent: Id): Parents {
    p[x := Some(parent)]
  }

  lemma {:induction false} GraftChain(p: Parents, x: Id, path: seq<Id>)
    requires IsRootChain(p, path) && x !in path
    ensures IsRootChain(Graft(p, x, path[0]), path)
  {
  }

  /**
   * Grafting `x` adds nothing to the subtree of a row `c` that is neither `x` nor on the
   * chain above it. This is why holding a lock on `c` freezes the height of its subtree from
   * above, although nothing locks the rows inside it.
   */
  lemma {:induction false} GraftLevels(p: Parents, x: Id, path: seq<Id>, v: Id, c: Id, k: nat)
    requires IsRootChain(p, path) && x !in path && c !in path && c != x
    requires Below(Graft(p, x, path[0]), v, c, k)
    ensures Below(p, v, c, k)
    decreases k
  {
    var p2 := Graft(p, x, path[0]);
    if k > 1 {
      if v == x {
        GraftChain(p, x, path);
        ChainAvoids(p2, path, c, 0, k - 1);
        assert false;
      } else {
        GraftLevels(p, x, path, p2[v].value, c, k - 1);
      }
    }
  }

  /** The new depth of `v`: measured from the chain when `v` moves with `x`, unchanged otherwise. */
  lemma {:induction false} GraftDepth(p: Parents, x: Id, path: seq<Id>, v: Id, d: nat) returns (k: nat)
    requires IsRootChain(p, path) && x !in path
    requires HasDepth(p, v, d)
    ensures k > 0 ==> Below(p, v, x, k) && HasDepth(Graft(p, x, path[0]), v, |path| + k)
    ensures k == 0 ==> HasDepth(Graft(p, x, path[0]), v, d)
    decreases d
  {
    var p2 := Graft(p, x, path[0]);
    if v == x {
      GraftChain(p, x, path);
      ChainDepth(p2, path);
      k := 1;
    } else if p[v].Some? {
      k := GraftDepth(p, x, path, p[v].value, d - 1);
      if k > 0 {
        k := k + 1;
      }
    } else {
      k := 0;
    }
  }

  /** The check `depth + height <= 8` keeps every row of the table within the limit. */
  lemma {:induction false} GraftKeepsForest(p: Parents, x: Id, path: seq<Id>, h: nat)
    requires IsForest(p) && IsRootChain(p, path) && x !in path
    requires NoDeeper(p, x, h) && h >= 1
    requires |path| + h <= MAX_HIERARCHY_DEPTH
    ensures IsForest(Graft(p, x, path[0]))
  {
    var p2 := Graft(p, x, path[0]);
    forall v | v in p2
      ensures WithinDepth(p2, v, MAX_HIERARCHY_DEPTH)
    {
      if v in p {
        var d: nat :| d <= MAX_HIERARCHY_DEPTH && HasDepth(p, v, d);
        var k := GraftDepth(p, x, path, v, d);
        assert HasDepth(p2, v, if k > 0 then |path| + k else d);
      } else {
        GraftChain(p, x, path);
        ChainDepth(p2, path);
        assert HasDepth(p2, v, |path| + 1);
      }
    }
  }

  // ---------- Making a root ----------

  /** Making `x` a root, whether it is new or moves, adds nothing to any other subtree. */
  lemma {:induction false} RootLevels(p: Parents, x: Id, v: Id, c: Id, k: nat)
    requires c != x && Below(p[x := None], v, c, k)
    ensures Below(p, v, c, k)
    decreases k
  {
    if k > 1 {
      RootLevels(p, x, p[x := None][v].value, c, k - 1);
    }
  }

  lemma {:induction false} RootDepth(p: Parents, x: Id, v: Id, d: nat)
    requires HasDepth(p, v, d)
    ensures WithinDepth(p[x := None], v, d)
    decreases d
  {
    var p2 := p[x := None];
    if p2[v].None? {
      assert HasDepth(p2, v, 1);
    } else {
      RootDepth(p, x, p2[v].value, d - 1);
      var e: nat :| e <= d - 1 && HasDepth(p2, p2[v].value, e);
      assert HasDepth(p2, v, e + 1);
    }
  }

  lemma {:induction false} RootKeepsForest(p: Parents, x: Id)
    requires IsForest(p)
    ensures IsForest(p[x := None])
  {
    var p2 := p[x := None];
    forall v | v in p2
      ensures WithinDepth(p2, v, MAX_HIERARCHY_DEPTH)
    {
      if v == x {
        assert HasDepth(p2, v, 1);
      } else {
        var d: nat :| d <= MAX_HIERARCHY_DEPTH && HasDepth(p, v, d);
        RootDepth(p, x, v, d);
      }
    }
  }

  // ---------- The height query ----------

  function Children(p: Parents, level: set<Id>): set<Id> {
    set v | v in p && p[v].Some? && p[v].value in level
  }

  /** One level of the recursive query at a time; it stops after the level past the limit. */
  function HeightFrom(p: Parents, level: set<Id>, depth: nat): nat
    decreases MAX_HIERARCHY_DEPTH + 1 - depth
  {
    if depth > MAX_HIERARCHY_DEPTH then depth
    else
      var next := Children(p, level);
      if next == {} then depth else HeightFrom(p, next, depth + 1)
  }

  function SubtreeHeight(p: Parents, c: Id): nat {
    HeightFrom(p, {c}, 1)
  }

  ghost predicate IsLevel(p: Parents, c: Id, level: set<Id>, depth: nat) {
    forall v :: v in p ==> (v in level <==> Below(p, v, c, depth))
  }

  lemma {:induction false} NextLevel(p: Parents, c: Id, level: set<Id>, depth: nat)
    requires depth > 0 && c in p && level <= p.Keys && IsLevel(p, c, level, depth)
    ensures IsLevel(p, c, Children(p, level), depth + 1)
  {
    forall v | v in p
      ensures v in Children(p, level) <==> Below(p, v, c, depth + 1)
    {
    }
  }

  lemma {:induction false} NothingPastAnEmptyLevel(p: Parents, v: Id, c: Id, k: nat, depth: nat)
    requires depth > 1 && IsLevel(p, c, {}, depth) && k >= depth
    ensures !Below(p, v, c, k)
    decreases k
  {
    if Below(p, v, c, k) && k > depth {
      NothingPastAnEmptyLevel(p, p[v].value, c, k - 1, depth);
    }
  }

  lemma {:induction false} HeightFromBounds(p: Parents, c: Id, level: set<Id>, depth: nat)
    requires 0 < depth <= MAX_HIERARCHY_DEPTH + 1
    requires c in p && level <= p.Keys && level != {} && IsLevel(p, c, level, depth)
    ensures var h := HeightFrom(p, level, depth);
            && depth <= h <= MAX_HIERARCHY_DEPTH + 1
            && (exists v :: Below(p, v, c, h))
            && (h <= MAX_HIERARCHY_DEPTH ==> NoDeeper(p, c, h))
    decreases MAX_HIERARCHY_DEPTH + 1 - depth
  {
    var w :| w in level;
    assert Below(p, w, c, depth);
    if depth <= MAX_HIERARCHY_DEPTH {
      var next := Children(p, level);
      NextLevel(p, c, level, depth);
      if next == {} {
        forall v, k: nat | Below(p, v, c, k)
          ensures k <= depth
        {
          if k > depth {
            NothingPastAnEmptyLevel(p, v, c, k, depth + 1);
          }
        }
      } else {
        HeightFromBounds(p, c, next, depth + 1);
      }
    }
  }

  /** The bounded query is exact up to the limit, and past the limit it says so. */
  lemma {:induction false} SubtreeHeightExact(p: Parents, c: Id)
    requires c in p
    ensures 1 <= SubtreeHeight(p, c) <= MAX_HIERARCHY_DEPTH + 1
    ensures exists v :: Below(p, v, c, SubtreeHeight(p, c))
    ensures SubtreeHeight(p, c) <= MAX_HIERARCHY_DEPTH <==> NoDeeper(p, c, MAX_HIERARCHY_DEPTH)
    ensures SubtreeHeight(p, c) <= MAX_HIERARCHY_DEPTH ==> NoDeeper(p, c, SubtreeHeight(p, c))
  {
    assert IsLevel(p, c, {c}, 1);
    HeightFromBounds(p, c, {c}, 1);
  }
}

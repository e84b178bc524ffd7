/** Repairing a document whose blocks share ids, on its way into the editor. */
module UniqueIds {
  import opened Prelude
  import opened Blocks

  function WithId(b: Block, id: Id): Block {
    b.(id := id)
  }

  ghost predicate DistinctIds(blocks: seq<Block>) {
    forall i, j :: 0 <= i < j < |blocks| ==> blocks[i].id != blocks[j].id
  }

  /** One of the first `n` blocks has this id. */
  ghost predicate IdAmong(id: Id, blocks: seq<Block>, n: nat)
    requires n <= |blocks|
  {
    exists i :: 0 <= i < n && blocks[i].id == id
  }

  /** The generator never runs dry: whatever was drawn, something outside a finite set follows. */
  ghost predicate Endless(newId: nat -> Id) {
    forall seen: set<Id>, k: nat :: OffersUnused(newId, seen, k)
  }

  ghost predicate OffersUnused(newId: nat -> Id, seen: set<Id>, k: nat) {
    exists j: nat :: OffersAfter(newId, seen, k, j)
  }

  ghost predicate OffersAfter(newId: nat -> Id, seen: set<Id>, k: nat, j: nat) {
    j >= k && newId(j) !in seen
  }

  /**
   * What the repair leaves of block `i`: everything but its id, and the id too unless an
   * earlier block of the result holds it.
   */
  ghost predicate Repaired(blocks: seq<Block>, result: seq<Block>, i: nat)
    requires i < |blocks| && i < |result|
  {
    && result[i] == WithId(blocks[i], result[i].id)
    && (result[i].id == blocks[i].id <==> !IdAmong(blocks[i].id, result, i))
  }

  // ---------- What is drawn ----------

  ghost predicate IsNextUnused(newId: nat -> Id, seen: set<Id>, k: nat, j: nat) {
    OffersAfter(newId, seen, k, j) && forall i: nat :: k <= i < j ==> newId(i) in seen
  }

  lemma {:induction false} NextUnusedExists(newId: nat -> Id, seen: set<Id>, k: nat, last: nat)
    requires OffersAfter(newId, seen, k, last)
    ensures exists j: nat :: IsNextUnused(newId, seen, k, j)
    decreases last - k
  {
    if newId(k) !in seen {
      assert IsNextUnused(newId, seen, k, k);
    } else {
      NextUnusedExists(newId, seen, k + 1, last);
      var j: nat :| IsNextUnused(newId, seen, k + 1, j);
      assert IsNextUnused(newId, seen, k, j);
    }
  }

  /** The first draw, from the `k`th on, that is not in `seen`. */
  ghost function NextUnused(newId: nat -> Id, seen: set<Id>, k: nat): (j: nat)
    requires Endless(newId)
    ensures IsNextUnused(newId, seen, k, j)
  {
    assert OffersUnused(newId, seen, k);
    var last: nat :| OffersAfter(newId, seen, k, last);
    NextUnusedExists(newId, seen, k, last);
    var j: nat :| IsNextUnused(newId, seen, k, j);
    j
  }

  function IdsBefore(blocks: seq<Block>, n: nat): set<Id>
    requires n <= |blocks|
  {
    set i | 0 <= i < n :: blocks[i].id
  }

  function DrawnIds(newId: nat -> Id, drawn: nat): set<Id> {
    set k: nat | k < drawn :: newId(k)
  }

  /** How many ids have been drawn when block `n` comes up. */
  ghost function Drawn(blocks: seq<Block>, newId: nat -> Id, n: nat): nat
    requires Endless(newId) && n <= |blocks|
    decreases n, 0
  {
    if n == 0 then 0
    else if blocks[n - 1].id in Taken(blocks, newId, n - 1)
      then NextUnused(newId, Taken(blocks, newId, n - 1), Drawn(blocks, newId, n - 1)) + 1
    else Drawn(blocks, newId, n - 1)
  }

  /** The ids block `n` must not have: those of the blocks before it, and those drawn for them. */
  ghost function Taken(blocks: seq<Block>, newId: nat -> Id, n: nat): set<Id>
    requires Endless(newId) && n <= |blocks|
    decreases n, 1
  {
    IdsBefore(blocks, n) + DrawnIds(newId, Drawn(blocks, newId, n))
  }

  /** Block `n` as the repair leaves it, from the document and the generator alone. */
  ghost function RepairedAt(blocks: seq<Block>, newId: nat -> Id, n: nat): Block
    requires Endless(newId) && n < |blocks|
  {
    if blocks[n].id in Taken(blocks, newId, n)
    then WithId(blocks[n], newId(Drawn(blocks, newId, n + 1) - 1))
    else blocks[n]
  }

  lemma {:induction false} TakenGrows(blocks: seq<Block>, newId: nat -> Id, n: nat)
    requires Endless(newId) && n < |blocks|
    ensures Taken(blocks, newId, n + 1) == Taken(blocks, newId, n) + {RepairedAt(blocks, newId, n).id}
  {
    var d, e := Drawn(blocks, newId, n), Drawn(blocks, newId, n + 1);
    assert IdsBefore(blocks, n + 1) == IdsBefore(blocks, n) + {blocks[n].id};
    if blocks[n].id in Taken(blocks, newId, n) {
      forall x | x in DrawnIds(newId, e)
        ensures x in Taken(blocks, newId, n) + {newId(e - 1)}
      {
        var k: nat :| k < e && newId(k) == x;
        assert k < d ==> x in DrawnIds(newId, d);
      }
      forall x | x in DrawnIds(newId, d)
        ensures x in DrawnIds(newId, e)
      {
      }
      assert newId(e - 1) in DrawnIds(newId, e);
    }
  }

  /** Drawn again and again, until it is an id that nothing has. */
  method DrawUnseen(newId: nat -> Id, seen: set<Id>, from: nat) returns (replacement: Id, drawn: nat)
    requires Endless(newId)
    ensures drawn == NextUnused(newId, seen, from) + 1 && replacement == newId(drawn - 1) && replacement !in seen
  {
    replacement := newId(from);
    drawn := from + 1;
    ghost var next := NextUnused(newId, seen, from);
    while replacement in seen
      invariant drawn > from && replacement == newId(drawn - 1) && drawn - 1 <= next
      decreases next - drawn
    {
      replacement := newId(drawn);
      drawn := drawn + 1;
    }
  }

  // ---------- The repair ----------

  lemma {:induction false} NeverTaken(blocks: seq<Block>, newId: nat -> Id, n: nat)
    requires Endless(newId) && n < |blocks|
    ensures RepairedAt(blocks, newId, n).id !in Taken(blocks, newId, n)
  {
  }

  ghost predicate IsRepair(blocks: seq<Block>, newId: nat -> Id, result: seq<Block>)
    requires Endless(newId)
  {
    |result| <= |blocks| && forall i :: 0 <= i < |result| ==> result[i] == RepairedAt(blocks, newId, i)
  }

  /** What is taken is what the result holds so far. */
  lemma {:induction false} TakenIsHeld(blocks: seq<Block>, newId: nat -> Id, result: seq<Block>, n: nat, id: Id)
    requires Endless(newId) && IsRepair(blocks, newId, result) && n <= |result|
    ensures id in Taken(blocks, newId, n) <==> IdAmong(id, result, n)
  {
    if n > 0 {
      TakenIsHeld(blocks, newId, result, n - 1, id);
      TakenGrows(blocks, newId, n - 1);
      assert IdAmong(id, result, n) <==> IdAmong(id, result, n - 1) || result[n - 1].id == id;
    }
  }

  lemma {:induction false} RepairRepairs(blocks: seq<Block>, newId: nat -> Id, result: seq<Block>)
    requires Endless(newId) && IsRepair(blocks, newId, result)
    ensures DistinctIds(result)
    ensures forall i :: 0 <= i < |result| ==> Repaired(blocks, result, i)
  {
    forall i | 0 <= i < |result|
      ensures Repaired(blocks, result, i)
    {
      TakenIsHeld(blocks, newId, result, i, blocks[i].id);
      NeverTaken(blocks, newId, i);
    }
    forall i, j | 0 <= i < j < |result|
      ensures result[i].id != result[j].id
    {
      TakenIsHeld(blocks, newId, result, j, result[i].id);
      NeverTaken(blocks, newId, j);
    }
  }

  method WithUniqueIds(blocks: seq<Block>, newId: nat -> Id) returns (result: seq<Block>)
    requires Endless(newId)
    ensures |result| == |blocks| && DistinctIds(result)
    ensures forall i :: 0 <= i < |blocks| ==> result[i] == RepairedAt(blocks, newId, i)
    ensures forall i :: 0 <= i < |blocks| ==> Repaired(blocks, result, i)
  {
    var seen: set<Id> := {};
    var drawn: nat := 0;
    result := [];
    for n := 0 to |blocks|
      invariant |result| == n && IsRepair(blocks, newId, result)
      invariant drawn == Drawn(blocks, newId, n) && seen == Taken(blocks, newId, n)
    {
      var block := blocks[n];
      if block.id in seen {
        var replacement;
        replacement, drawn := DrawUnseen(newId, seen, drawn);
        block := WithId(block, replacement);
      }
      TakenGrows(blocks, newId, n);
      seen := seen + {block.id};
      result := result + [block];
    }
    RepairRepairs(blocks, newId, result);
  }

  /** The result is repaired content: one more pass would find nothing to do. */
  lemma {:induction false} DistinctStaysPut(blocks: seq<Block>, result: seq<Block>, n: nat)
    requires n <= |blocks| == |result| && DistinctIds(blocks)
    requires forall i :: 0 <= i < |blocks| ==> Repaired(blocks, result, i)
    ensures result[..n] == blocks[..n]
  {
    if n > 0 {
      DistinctStaysPut(blocks, result, n - 1);
      var i := n - 1;
      assert Repaired(blocks, result, i);
      forall j | 0 <= j < i
        ensures result[j].id != blocks[i].id
      {
        assert result[..i][j] == blocks[..i][j];
      }
    }
  }

  ghost predicate IsFirst(blocks: seq<Block>, i: nat)
    requires i < |blocks|
  {
    blocks[i].id !in IdsBefore(blocks, i)
  }

  /**
   * The first block with an id keeps it exactly when that id is not among the ids drawn for
   * the blocks before it.
   */
  lemma {:induction false} FirstKeepsItsId(blocks: seq<Block>, newId: nat -> Id, i: nat)
    requires Endless(newId) && i < |blocks| && IsFirst(blocks, i)
    ensures RepairedAt(blocks, newId, i).id == blocks[i].id <==>
            blocks[i].id !in DrawnIds(newId, Drawn(blocks, newId, i))
  {
    if blocks[i].id in Taken(blocks, newId, i) {
      var d := Drawn(blocks, newId, i);
      var next := NextUnused(newId, Taken(blocks, newId, i), d);
      assert newId(next) !in Taken(blocks, newId, i);
    }
  }

  /** A generator that never offers an id of the document leaves every first block its id. */
  lemma {:induction false} ForeignIdsTakeNobodysPlace(blocks: seq<Block>, newId: nat -> Id, i: nat)
    requires Endless(newId) && i < |blocks| && IsFirst(blocks, i)
    requires forall k: nat :: newId(k) !in IdsBefore(blocks, |blocks|)
    ensures RepairedAt(blocks, newId, i) == blocks[i]
  {
    assert blocks[i].id in IdsBefore(blocks, |blocks|);
    FirstKeepsItsId(blocks, newId, i);
  }

  function FromTwo(k: nat): Id {
    k + 2
  }

  lemma {:induction false} CountingIsEndless(seen: set<Id>, k: nat)
    ensures OffersUnused(FromTwo, seen, k)
    decreases |seen|
  {
    if FromTwo(k) in seen {
      CountingIsEndless(seen - {FromTwo(k)}, k + 1);
      var j: nat :| OffersAfter(FromTwo, seen - {FromTwo(k)}, k + 1, j);
      assert OffersAfter(FromTwo, seen, k, j);
    } else {
      assert OffersAfter(FromTwo, seen, k, k);
    }
  }

  /** A generator that counts up from 2 takes the id of the block that had 2. */
  lemma {:induction false} FirstCanLoseItsId()
    ensures var blocks := [Divider(1), Divider(1), Divider(2)];
            Endless(FromTwo) && IsFirst(blocks, 2) && RepairedAt(blocks, FromTwo, 2).id != blocks[2].id
  {
    var blocks := [Divider(1), Divider(1), Divider(2)];
    forall seen: set<Id>, k: nat
      ensures OffersUnused(FromTwo, seen, k)
    {
      CountingIsEndless(seen, k);
    }
    assert blocks[0].id in IdsBefore(blocks, 1);
    assert FromTwo(0) == 2 && FromTwo(0) in DrawnIds(FromTwo, Drawn(blocks, FromTwo, 2));
    FirstKeepsItsId(blocks, FromTwo, 2);
  }
}

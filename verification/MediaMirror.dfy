/** The mirror table itself: kept in step by every save, and rebuilt as a whole on demand. */
module MediaMirror {
  import opened Prelude
  import opened ContentModel
  import opened MediaReferences
  import Blocks

  datatype SyncState = Pending | Ready

  datatype Document = Document(id: Id, kind: string, blocks: seq<Blocks.Block>, meta: Meta)

  datatype Dangling = Dangling(content: Id, ref: ContentReference)

  datatype ReconcileResult = ReconcileResult(
    dangling: seq<Dangling>,
    unknownTypes: set<string>,
    added: nat,
    removed: nat,
    state: SyncState)

  ghost predicate DistinctIds(documents: seq<Document>) {
    forall i, j :: 0 <= i < j < |documents| ==> documents[i].id != documents[j].id
  }

  /** Every row the table should hold. */
  function Wanted(reg: map<string, ContentType>, documents: seq<Document>): set<MirrorRow> {
    set d, u | d in documents && d.kind in reg && u in Uses(reg[d.kind], d.blocks, d.meta) :: MirrorRow(d.id, u)
  }

  function UnknownKinds(reg: map<string, ContentType>, documents: seq<Document>): set<string> {
    set d | d in documents && d.kind !in reg :: d.kind
  }

  function RowsOf(mirror: set<MirrorRow>, id: Id): set<MediaUse> {
    set m | m in mirror && m.content == id :: m.use
  }

  class MirrorTable {
    var rows: set<MirrorRow>
    var media: set<Id>
    var state: SyncState

    /** The foreign key on the asset. */
    ghost predicate Valid()
      reads this
    {
      forall r :: r in rows ==> r.use.media in media
    }

    /**
     * One document's rows brought in line by difference: only what changed is touched, in
     * ascending order, and a missing asset undoes everything.
     */
    method SyncMediaReferences(id: Id, refs: seq<ContentReference>) returns (ok: bool, ghost inserted: seq<MediaUse>)
      requires Valid() && AscendingRefs(refs)
      modifies this`rows
      ensures Valid()
      ensures ok <==> forall u :: u in UsesOf(refs) && u !in RowsOf(old(rows), id) ==> u.media in media
      ensures rows == if ok then Synced(old(rows), id, UsesOf(refs)) else old(rows)
      ensures Ascending(inserted)
      ensures ok ==> forall u :: u in inserted <==> u in UsesOf(refs) && u !in RowsOf(old(rows), id)
    {
      ghost var before := rows;
      var saved := rows;
      var gone := set m | m in rows && m.content == id && m.use !in UsesOf(refs);
      var removed := RemoveStale(gone);
      ok, inserted := true, [];
      var n := 0;
      while n < |refs|
        invariant 0 <= n <= |refs| && saved == before
        invariant rows == (before - gone) + set u | u in UsesOf(refs[..n]) :: MirrorRow(id, u)
        invariant Valid() && Ascending(inserted)
        invariant forall u :: u in inserted <==> u in UsesOf(refs[..n]) && u !in RowsOf(before, id)
      {
        var use := refs[n].use;
        assert refs[n] in refs;
        assert refs[..n + 1] == refs[..n] + [refs[n]];
        assert UsesOf(refs[..n + 1]) == UsesOf(refs[..n]) + {use};
        forall u | u in UsesOf(refs[..n])
          ensures Before(u, use)
        {
        }
        if MirrorRow(id, use) !in saved {
          if use.media !in media {
            assert use in UsesOf(refs) && use !in RowsOf(before, id);
            rows := saved;
            ok := false;
            return;
          }
          assert use !in RowsOf(before, id);
          rows := rows + {MirrorRow(id, use)};
          inserted := inserted + [use];
        } else {
          assert MirrorRow(id, use) in before - gone && use in RowsOf(before, id);
        }
        n := n + 1;
      }
      assert refs[..|refs|] == refs;
      forall m
        ensures m in rows <==> m in Synced(before, id, UsesOf(refs))
      {
        if m.content == id {
          assert m == MirrorRow(id, m.use);
        }
      }
      forall u | u in UsesOf(refs) && u !in RowsOf(before, id)
        ensures u.media in media
      {
        assert MirrorRow(id, u) in rows;
      }
    }

    /** The foreign key refuses to remove an asset that is still named. */
    method DeleteMedia(m: Id) returns (ok: bool)
      requires Valid()
      modifies this`media
      ensures Valid()
      ensures ok <==> m in old(media) && forall r :: r in rows ==> r.use.media != m
      ensures media == if ok then old(media) - {m} else old(media)
    {
      ok := m in media && forall r | r in rows :: r.use.media != m;
      if ok {
        media := media - {m};
      }
    }

    /**
     * The whole table rebuilt from the documents, or only a diagnosis: `Ready` means the rows
     * are exactly the wanted ones, `Pending` means no row was touched.
     */
    method ReconcileMediaReferences(reg: map<string, ContentType>, documents: seq<Document>)
      returns (result: ReconcileResult)
      requires Valid() && DistinctIds(documents)
      modifies this`rows, this`state
      ensures Valid() && state == result.state
      ensures result.state == Ready <==>
                UnknownKinds(reg, documents) == {} && forall r :: r in Wanted(reg, documents) ==> r.use.media in media
      ensures result.state == Ready ==>
                && rows == Wanted(reg, documents)
                && result.added == |Wanted(reg, documents) - old(rows)|
                && result.removed == |old(rows) - Wanted(reg, documents)|
                && result.dangling == []
      ensures result.state == Pending ==> rows == old(rows) && result.added == 0 && result.removed == 0
      ensures result.state == Pending ==> result.unknownTypes == UnknownKinds(reg, documents)
      ensures result.state == Pending ==> forall r ::
                (r in Wanted(reg, documents) && r.use.media !in media) <==>
                (exists d :: d in result.dangling && MirrorRow(d.content, d.ref.use) == r)
    {
      var wanted, unknown := CollectWanted(reg, documents);
      var dangling := Filter(wanted, media);
      FilterKeeps(wanted, media);
      if dangling != [] || unknown != {} {
        state := Pending;
        if dangling != [] {
          assert dangling[0] in dangling;
          assert MirrorRow(dangling[0].content, dangling[0].ref.use) in RowSet(wanted);
        }
        return ReconcileResult(dangling, unknown, 0, 0, Pending);
      }
      forall r | r in Wanted(reg, documents)
        ensures r.use.media in media
      {
        var w :| w in wanted && MirrorRow(w.content, w.ref.use) == r;
        assert w !in dangling;
      }
      var removed, added := Settle(wanted);
      state := Ready;
      return ReconcileResult([], {}, added, removed, Ready);
    }

    /** Deletes what is stale, then inserts what is missing, row by row. */
    method Settle(wanted: seq<Dangling>) returns (removed: nat, added: nat)
      requires Valid() && Distinct(wanted)
      requires forall r :: r in RowSet(wanted) ==> r.use.media in media
      modifies this`rows
      ensures Valid() && rows == RowSet(wanted)
      ensures removed == |old(rows) - RowSet(wanted)| && added == |RowSet(wanted) - old(rows)|
    {
      var held := rows;
      var shouldHold := RowSet(wanted);
      removed := RemoveStale(held - shouldHold);
      forall w | w in wanted
        ensures w.ref.use.media in media
      {
        assert MirrorRow(w.content, w.ref.use) in RowSet(wanted);
      }
      added := InsertFresh(wanted, held);
      AllFresh(wanted, held);
    }

    method RemoveStale(stale: set<MirrorRow>) returns (removed: nat)
      requires Valid() && stale <= rows
      modifies this`rows
      ensures Valid() && rows == old(rows) - stale && removed == |stale|
    {
      removed := 0;
      var left := stale;
      while left != {}
        invariant left <= stale && rows == old(rows) - (stale - left)
        invariant removed + |left| == |stale|
        decreases left
      {
        var row :| row in left;
        rows := rows - {row};
        left := left - {row};
        removed := removed + 1;
      }
    }

    method InsertFresh(wanted: seq<Dangling>, held: set<MirrorRow>) returns (added: nat)
      requires Valid() && Distinct(wanted) && forall w :: w in wanted ==> w.ref.use.media in media
      modifies this`rows
      ensures Valid() && rows == old(rows) + Fresh(wanted, |wanted|, held)
      ensures added == |Fresh(wanted, |wanted|, held)|
    {
      added := 0;
      ghost var before := rows;
      for n := 0 to |wanted|
        invariant rows == before + Fresh(wanted, n, held) && added == |Fresh(wanted, n, held)| && Valid()
      {
        InsertedSoFar(before, wanted, n, held);
        if MirrorRow(wanted[n].content, wanted[n].ref.use) !in held {
          rows := rows + {MirrorRow(wanted[n].content, wanted[n].ref.use)};
          added := added + 1;
        }
      }
    }

    /** A second run with no write in between changes nothing. */
    method ReconcileTwice(reg: map<string, ContentType>, documents: seq<Document>)
      returns (first: ReconcileResult, second: ReconcileResult)
      requires Valid() && DistinctIds(documents)
      modifies this`rows, this`state
      ensures first.state == second.state
      ensures second.added == 0 && second.removed == 0
    {
      first := ReconcileMediaReferences(reg, documents);
      ghost var settled := rows;
      second := ReconcileMediaReferences(reg, documents);
      assert settled - settled == {};
    }
  }

  /** Every reference of every document whose type is known, and the types that are not. */
  method CollectWanted(reg: map<string, ContentType>, documents: seq<Document>)
    returns (wanted: seq<Dangling>, unknown: set<string>)
    requires DistinctIds(documents)
    ensures unknown == UnknownKinds(reg, documents)
    ensures RowSet(wanted) == Wanted(reg, documents) && Distinct(wanted)
  {
    unknown, wanted := {}, [];
    for n := 0 to |documents|
      invariant unknown == UnknownKinds(reg, documents[..n])
      invariant RowSet(wanted) == Wanted(reg, documents[..n])
      invariant Distinct(wanted)
    {
      var d := documents[n];
      assert documents[..n + 1] == documents[..n] + [d];
      if d.kind !in reg {
        unknown := unknown + {d.kind};
        assert Wanted(reg, documents[..n + 1]) == Wanted(reg, documents[..n]);
      } else {
        assert UnknownKinds(reg, documents[..n + 1]) == unknown;
        var refs := MediaReferencesOf(reg[d.kind], d.blocks, d.meta);
        WantedGrows(reg, documents, n);
        AppendRows(wanted, d.id, refs);
        wanted := wanted + Tagged(d.id, refs);
      }
    }
    assert documents[..|documents|] == documents;
  }

  // ---------- Lists of wanted rows ----------

  function RowSet(wanted: seq<Dangling>): set<MirrorRow> {
    set w | w in wanted :: MirrorRow(w.content, w.ref.use)
  }

  ghost predicate Distinct(wanted: seq<Dangling>) {
    forall i, j :: 0 <= i < j < |wanted| ==>
      MirrorRow(wanted[i].content, wanted[i].ref.use) != MirrorRow(wanted[j].content, wanted[j].ref.use)
  }

  /** What the first `n` wanted rows add to the table. */
  function Fresh(wanted: seq<Dangling>, n: nat, held: set<MirrorRow>): set<MirrorRow>
    requires n <= |wanted|
  {
    RowSet(wanted[..n]) - held
  }

  lemma {:induction false} AllFresh(wanted: seq<Dangling>, held: set<MirrorRow>)
    ensures Fresh(wanted, |wanted|, held) == RowSet(wanted) - held
  {
    assert wanted[..|wanted|] == wanted;
  }

  lemma {:induction false} InsertedSoFar(before: set<MirrorRow>, wanted: seq<Dangling>, n: nat, held: set<MirrorRow>)
    requires n < |wanted| && Distinct(wanted)
    ensures var row := MirrorRow(wanted[n].content, wanted[n].ref.use);
            && wanted[n] in wanted
            && before + Fresh(wanted, n + 1, held)
               == (if row in held then before + Fresh(wanted, n, held) else before + Fresh(wanted, n, held) + {row})
            && |Fresh(wanted, n + 1, held)| == |Fresh(wanted, n, held)| + (if row in held then 0 else 1)
  {
    FreshStep(wanted, n, held);
  }

  lemma {:induction false} FreshStep(wanted: seq<Dangling>, n: nat, held: set<MirrorRow>)
    requires n < |wanted| && Distinct(wanted)
    ensures var row := MirrorRow(wanted[n].content, wanted[n].ref.use);
            && Fresh(wanted, n + 1, held) == (if row in held then Fresh(wanted, n, held) else Fresh(wanted, n, held) + {row})
            && row !in Fresh(wanted, n, held) && row in RowSet(wanted)
  {
    assert wanted[..n + 1] == wanted[..n] + [wanted[n]];
    assert wanted[n] in wanted;
    var row := MirrorRow(wanted[n].content, wanted[n].ref.use);
    assert RowSet(wanted[..n + 1]) == RowSet(wanted[..n]) + {row};
  }

  function Tagged(id: Id, refs: seq<ContentReference>): seq<Dangling> {
    seq(|refs|, i requires 0 <= i < |refs| => Dangling(id, refs[i]))
  }

  function Filter(wanted: seq<Dangling>, media: set<Id>): seq<Dangling> {
    if wanted == [] then []
    else (if wanted[0].ref.use.media in media then [] else [wanted[0]]) + Filter(wanted[1..], media)
  }

  lemma {:induction false} FilterKeeps(wanted: seq<Dangling>, media: set<Id>)
    ensures forall w :: w in Filter(wanted, media) <==> w in wanted && w.ref.use.media !in media
  {
    if wanted != [] {
      FilterKeeps(wanted[1..], media);
      assert wanted == [wanted[0]] + wanted[1..];
    }
  }

  lemma {:induction false} TaggedRows(id: Id, refs: seq<ContentReference>)
    ensures RowSet(Tagged(id, refs)) == set u | u in UsesOf(refs) :: MirrorRow(id, u)
  {
    var tagged := Tagged(id, refs);
    forall u | u in UsesOf(refs)
      ensures MirrorRow(id, u) in RowSet(tagged)
    {
      var i :| 0 <= i < |refs| && refs[i].use == u;
      assert tagged[i] in tagged;
    }
  }

  lemma {:induction false} AppendRows(wanted: seq<Dangling>, id: Id, refs: seq<ContentReference>)
    requires Distinct(wanted) && AscendingRefs(refs)
    requires forall r :: r in RowSet(wanted) ==> r.content != id
    ensures Distinct(wanted + Tagged(id, refs))
    ensures RowSet(wanted + Tagged(id, refs)) == RowSet(wanted) + set u | u in UsesOf(refs) :: MirrorRow(id, u)
  {
    TaggedRows(id, refs);
    var tagged := Tagged(id, refs);
    forall i, j | 0 <= i < |wanted| && 0 <= j < |tagged|
      ensures wanted[i].content != tagged[j].content
    {
      assert MirrorRow(wanted[i].content, wanted[i].ref.use) in RowSet(wanted);
    }
  }

  lemma {:induction false} WantedGrows(reg: map<string, ContentType>, documents: seq<Document>, n: nat)
    requires n < |documents| && DistinctIds(documents) && documents[n].kind in reg
    ensures var d := documents[n];
            && Wanted(reg, documents[..n + 1]) ==
                 Wanted(reg, documents[..n]) + (set u | u in Uses(reg[d.kind], d.blocks, d.meta) :: MirrorRow(d.id, u))
            && (forall r :: r in Wanted(reg, documents[..n]) ==> r.content != d.id)
  {
    var d := documents[n];
    assert documents[..n + 1] == documents[..n] + [d];
    forall r | r in Wanted(reg, documents[..n])
      ensures r.content != d.id
    {
      var e :| e in documents[..n] && r.content == e.id;
      var i :| 0 <= i < n && documents[i] == e;
    }
  }

  // ---------- By difference, or as a whole ----------

  /**
   * Saving a document by difference leaves the table as a full rebuild would, so a reconciled
   * installation stays reconciled.
   */
  lemma {:induction false} SyncMatchesRebuild(reg: map<string, ContentType>, documents: seq<Document>, n: nat, saved: Document)
    requires n < |documents| && DistinctIds(documents)
    requires saved.id == documents[n].id && saved.kind == documents[n].kind && saved.kind in reg
    ensures Synced(Wanted(reg, documents), saved.id, Uses(reg[saved.kind], saved.blocks, saved.meta))
            == Wanted(reg, documents[n := saved])
  {
    var after := documents[n := saved];
    var uses := Uses(reg[saved.kind], saved.blocks, saved.meta);
    forall m | m in Wanted(reg, documents) && m.content != saved.id
      ensures m in Wanted(reg, after)
    {
      var d, u :| d in documents && d.kind in reg && u in Uses(reg[d.kind], d.blocks, d.meta) && m == MirrorRow(d.id, u);
      var i :| 0 <= i < |documents| && documents[i] == d;
      assert after[i] == d;
    }
    forall u | u in uses
      ensures MirrorRow(saved.id, u) in Wanted(reg, after)
    {
      assert after[n] == saved;
    }
    forall m | m in Wanted(reg, after)
      ensures m in Synced(Wanted(reg, documents), saved.id, uses)
    {
      var d, u :| d in after && d.kind in reg && u in Uses(reg[d.kind], d.blocks, d.meta) && m == MirrorRow(d.id, u);
      var i :| 0 <= i < |after| && after[i] == d;
      if i != n {
        assert documents[i] == d && d in documents;
      }
    }
  }
}

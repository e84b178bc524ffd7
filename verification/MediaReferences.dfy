/** Which assets a document names, and the one definition of the order they are taken in. */
module MediaReferences {
  import opened Prelude
  import opened ContentModel
  import Blocks

  datatype Source = InBlock | InMeta

  /** An asset, and whether the body or the metadata names it. */
  datatype MediaUse = MediaUse(media: Id, source: Source)

  /** One row of the relational mirror. */
  datatype MirrorRow = MirrorRow(content: Id, use: MediaUse)

  datatype Place = AtBlock(id: Id) | AtKey(key: string)

  datatype ContentReference = ContentReference(use: MediaUse, at: Place)

  function BlockUses(blocks: seq<Blocks.Block>): set<MediaUse> {
    set b | b in blocks && b.Image? :: MediaUse(b.mediaId, InBlock)
  }

  function MetaUses(found: seq<MetaReference>): set<MediaUse> {
    set r | r in found :: MediaUse(r.mediaId, InMeta)
  }

  function Uses(t: ContentType, blocks: seq<Blocks.Block>, meta: Meta): set<MediaUse> {
    BlockUses(blocks) + MetaUses(t.mediaIn(meta))
  }

  function UsesOf(refs: seq<ContentReference>): set<MediaUse> {
    set r | r in refs :: r.use
  }

  /** The mirror rows of one document, replaced by what it names now. */
  function Synced(mirror: set<MirrorRow>, id: Id, uses: set<MediaUse>): set<MirrorRow> {
    (set m | m in mirror && m.content != id) + (set u | u in uses :: MirrorRow(id, u))
  }

  /** By asset, then body before metadata. */
  predicate Before(a: MediaUse, b: MediaUse) {
    a.media < b.media || (a.media == b.media && a.source.InBlock? && b.source.InMeta?)
  }

  /** Strictly ascending, so also without duplicates. */
  ghost predicate Ascending(uses: seq<MediaUse>) {
    forall i, j :: 0 <= i < j < |uses| ==> Before(uses[i], uses[j])
  }

  ghost predicate AscendingRefs(refs: seq<ContentReference>) {
    forall i, j :: 0 <= i < j < |refs| ==> Before(refs[i].use, refs[j].use)
  }

  /** The first image block that names the asset, or the first metadata entry that does. */
  ghost predicate FirstPlace(t: ContentType, blocks: seq<Blocks.Block>, meta: Meta, r: ContentReference) {
    match r.use.source
    case InBlock =>
      exists i :: 0 <= i < |blocks| && blocks[i].Image? && blocks[i].mediaId == r.use.media && r.at == AtBlock(blocks[i].id)
                  && forall j :: 0 <= j < i && blocks[j].Image? ==> blocks[j].mediaId != r.use.media
    case InMeta =>
      var found := t.mediaIn(meta);
      exists i :: 0 <= i < |found| && found[i].mediaId == r.use.media && r.at == AtKey(found[i].at)
                  && forall j :: 0 <= j < i ==> found[j].mediaId != r.use.media
  }

  lemma {:induction false} LeastExists(keys: set<MediaUse>) returns (m: MediaUse)
    requires keys != {}
    ensures m in keys && forall k :: k in keys && k != m ==> Before(m, k)
    decreases |keys|
  {
    var x :| x in keys;
    if keys == {x} {
      m := x;
    } else {
      var y := LeastExists(keys - {x});
      m := if Before(x, y) then x else y;
      forall k | k in keys && k != m
        ensures Before(m, k)
      {
        assert k == x || k == y || Before(y, k);
        assert x.source == y.source || x.source.InBlock? || y.source.InBlock?;
      }
    }
  }

  /** The entries of a map, by key. */
  method SortedEntries(found: map<MediaUse, Place>) returns (refs: seq<ContentReference>)
    ensures AscendingRefs(refs)
    ensures UsesOf(refs) == found.Keys
    ensures forall r :: r in refs ==> r.use in found && found[r.use] == r.at
  {
    refs := [];
    var left := found.Keys;
    while left != {}
      invariant left <= found.Keys && left + UsesOf(refs) == found.Keys
      invariant AscendingRefs(refs)
      invariant forall r, k :: r in refs && k in left ==> Before(r.use, k)
      invariant forall r :: r in refs ==> r.use in found && found[r.use] == r.at
      decreases left
    {
      ghost var least := LeastExists(left);
      var m :| m in left && forall k :: k in left && k != m ==> Before(m, k);
      refs := refs + [ContentReference(m, found[m])];
      left := left - {m};
    }
  }

  /**
   * The references of a document: exactly what it names, each once, in the order row locks are
   * taken, and each with the first place that names it.
   */
  method MediaReferencesOf(t: ContentType, blocks: seq<Blocks.Block>, meta: Meta) returns (refs: seq<ContentReference>)
    ensures AscendingRefs(refs)
    ensures UsesOf(refs) == Uses(t, blocks, meta)
    ensures forall r :: r in refs ==> FirstPlace(t, blocks, meta, r)
  {
    var found: map<MediaUse, Place> := map[];
    for n := 0 to |blocks|
      invariant found.Keys == BlockUses(blocks[..n])
      invariant forall u :: u in found ==> u.source.InBlock? && FirstPlace(t, blocks, meta, ContentReference(u, found[u]))
    {
      assert blocks[..n + 1] == blocks[..n] + [blocks[n]];
      if blocks[n].Image? {
        var key := MediaUse(blocks[n].mediaId, InBlock);
        if key !in found {
          forall j | 0 <= j < n && blocks[j].Image?
            ensures blocks[j].mediaId != key.media
          {
            assert blocks[j] in blocks[..n];
          }
          found := found[key := AtBlock(blocks[n].id)];
        }
      }
    }
    assert blocks[..|blocks|] == blocks;
    var entries := t.mediaIn(meta);
    for n := 0 to |entries|
      invariant found.Keys == BlockUses(blocks) + MetaUses(entries[..n])
      invariant forall u :: u in found ==> FirstPlace(t, blocks, meta, ContentReference(u, found[u]))
    {
      assert entries[..n + 1] == entries[..n] + [entries[n]];
      var key := MediaUse(entries[n].mediaId, InMeta);
      if key !in found {
        forall j | 0 <= j < n
          ensures entries[j].mediaId != key.media
        {
          assert entries[j] in entries[..n];
        }
        found := found[key := AtKey(entries[n].at)];
      }
    }
    assert entries[..|entries|] == entries;
    refs := SortedEntries(found);
  }
}

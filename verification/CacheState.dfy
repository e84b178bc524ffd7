/**
 * The page cache as one value: pages, each page's own tag list, each tag's members and each
 * tag's purge stamp, all with expiries on the server's millisecond clock.
 *
 * A key is gone once the clock has passed its time. A set that has lost its last member stays here as an empty
 * one: no script can tell the two apart.
 */
module CacheState {
  type Key = string
  type Tag = string

  datatype Timed<+T> = Timed(value: T, expires: int)

  /** A stored page: its tags, and for each of them that the render read, the version it read. */
  datatype Page = Page(tags: set<Tag>, seen: map<Tag, nat>)

  /** Both in seconds, as the `EX` and `EXPIRE` arguments are. */
  datatype Lifetimes = Lifetimes(page: nat, stamp: nat)

  datatype Cache = Cache(
    clock: int,
    pages: map<Key, Timed<Page>>,
    ownTags: map<Key, Timed<set<Tag>>>,
    members: map<Tag, Timed<set<Key>>>,
    stamps: map<Tag, Timed<int>>)

  /** What `SMEMBERS` answers: an absent set is an empty one. */
  function Smembers<K, V>(m: map<K, Timed<set<V>>>, k: K): set<V> {
    if k in m then m[k].value else {}
  }

  function Dropped<K, V>(m: map<K, Timed<V>>, now: int): map<K, Timed<V>> {
    map k | k in m && now <= m[k].expires :: m[k]
  }

  /** Time passes, and with it every key that has expired. */
  function Ticked(c: Cache, now: int): Cache {
    Cache(now, Dropped(c.pages, now), Dropped(c.ownTags, now), Dropped(c.members, now), Dropped(c.stamps, now))
  }

  function After(clock: int, seconds: nat): int {
    clock + seconds * 1000
  }

  function SetTtl(life: Lifetimes): nat {
    life.page + life.stamp
  }

  // ---------- Store ----------

  /** A purge of one of the tags is remembered from when this render began, or later. */
  predicate PurgedSince(c: Cache, tags: set<Tag>, renderedFrom: int) {
    exists t :: t in tags && t in c.stamps && c.stamps[t].value >= renderedFrom
  }

  function MembersOnceStored(c: Cache, key: Key, tags: set<Tag>, t: Tag): set<Key> {
    (if t in Smembers(c.ownTags, key) then Smembers(c.members, t) - {key} else Smembers(c.members, t))
    + (if t in tags then {key} else {})
  }

  /** What a store that is let through leaves behind. */
  function Stored(c: Cache, life: Lifetimes, key: Key, page: Page): Cache {
    var until := After(c.clock, SetTtl(life));
    var tags := page.tags;
    c.(
      pages := c.pages[key := Timed(page, After(c.clock, life.page))],
      ownTags := if tags == {} then c.ownTags - {key} else c.ownTags[key := Timed(tags, until)],
      members := map t | t in c.members.Keys + tags ::
        Timed(MembersOnceStored(c, key, tags, t), if t in tags then until else c.members[t].expires))
  }

  // ---------- Purge ----------

  /** `pages` are deleted, their tag lists too, and each leaves the sets its list names. */
  function Evicted(c: Cache, pages: set<Key>): Cache {
    c.(
      pages := c.pages - pages,
      ownTags := c.ownTags - pages,
      members := map t | t in c.members :: Timed(Staying(c, pages, t), c.members[t].expires))
  }

  function Staying(c: Cache, pages: set<Key>, t: Tag): set<Key> {
    set p | p in Smembers(c.members, t) && !(p in pages && t in Smembers(c.ownTags, p))
  }

  /** The tags' sets are deleted and the tags stamped. */
  function Stamped(c: Cache, life: Lifetimes, tags: set<Tag>): Cache {
    c.(
      members := c.members - tags,
      stamps := map t | t in c.stamps.Keys + tags ::
        if t in tags then Timed(c.clock, After(c.clock, life.stamp)) else c.stamps[t])
  }

  function Victims(c: Cache, tags: set<Tag>): set<Key> {
    set t, p | t in tags && p in Smembers(c.members, t) :: p
  }

  function Purged(c: Cache, life: Lifetimes, tags: set<Tag>): Cache {
    Stamped(Evicted(c, Victims(c, tags)), life, tags)
  }

  lemma {:induction false} MembersAreVictims(c: Cache, tags: set<Tag>, t: Tag)
    ensures t in tags ==> Smembers(c.members, t) <= Victims(c, tags)
  {
  }

  lemma {:induction false} StoredSets(c: Cache, life: Lifetimes, key: Key, page: Page, t: Tag, k: Key)
    ensures var d := Stored(c, life, key, page);
            && Smembers(d.members, t) == MembersOnceStored(c, key, page.tags, t)
            && Smembers(d.ownTags, k) == if k == key then page.tags else Smembers(c.ownTags, k)
  {
  }

  lemma {:induction false} PurgedSets(c: Cache, life: Lifetimes, tags: set<Tag>, t: Tag, k: Key)
    ensures var d := Purged(c, life, tags);
            && Smembers(d.members, t) == (if t in tags then {} else Staying(c, Victims(c, tags), t))
            && Smembers(d.ownTags, k) == if k in Victims(c, tags) then {} else Smembers(c.ownTags, k)
  {
  }

  // ---------- The two indexes ----------

  predicate Alive(c: Cache) {
    && (forall k :: k in c.pages ==> c.clock <= c.pages[k].expires)
    && (forall k :: k in c.ownTags ==> c.clock <= c.ownTags[k].expires)
    && (forall t :: t in c.members ==> c.clock <= c.members[t].expires)
    && (forall t :: t in c.stamps ==> c.stamps[t].value <= c.clock <= c.stamps[t].expires)
  }

  /** A page's tag list outlives it, and its place in each listed tag's set outlives the list. */
  ghost predicate Listed(c: Cache, k: Key)
    requires k in c.pages
  {
    && k in c.ownTags && c.pages[k].expires <= c.ownTags[k].expires
  }

  ghost predicate InItsSets(c: Cache, k: Key)
    requires k in c.ownTags
  {
    forall t :: t in c.ownTags[k].value ==>
      t in c.members && k in c.members[t].value && c.ownTags[k].expires <= c.members[t].expires
  }

  /** No set, list or stamp can be older than the longest it is ever given. */
  ghost predicate SetsWithin(c: Cache, life: Lifetimes) {
    && (forall k :: k in c.ownTags ==> c.ownTags[k].expires <= After(c.clock, SetTtl(life)))
    && (forall t :: t in c.members ==> c.members[t].expires <= After(c.clock, SetTtl(life)))
  }

  ghost predicate Indexed(c: Cache, life: Lifetimes) {
    && Alive(c) && SetsWithin(c, life)
    && (forall k :: k in c.pages ==> c.pages[k].value.tags != {} ==> Listed(c, k) && c.ownTags[k].value == c.pages[k].value.tags)
    && (forall k :: k in c.ownTags ==> InItsSets(c, k))
  }

  lemma {:induction false} TickKeepsIndex(c: Cache, life: Lifetimes, now: int)
    requires Indexed(c, life) && c.clock <= now
    ensures Indexed(Ticked(c, now), life)
  {
    var d := Ticked(c, now);
    forall k | k in d.pages && d.pages[k].value.tags != {}
      ensures Listed(d, k) && d.ownTags[k].value == d.pages[k].value.tags
    {
      assert Listed(c, k);
    }
    forall k | k in d.ownTags
      ensures InItsSets(d, k)
    {
      assert InItsSets(c, k);
    }
  }

  lemma {:induction false} StoreKeepsSets(c: Cache, life: Lifetimes, key: Key, page: Page, k: Key)
    requires Indexed(c, life) && life.page > 0 && k in Stored(c, life, key, page).ownTags
    ensures InItsSets(Stored(c, life, key, page), k)
  {
    var d := Stored(c, life, key, page);
    if k != key {
      assert InItsSets(c, k);
    }
    forall t | t in d.ownTags[k].value
      ensures t in d.members && k in d.members[t].value && d.ownTags[k].expires <= d.members[t].expires
    {
      assert k in MembersOnceStored(c, key, page.tags, t);
    }
  }

  lemma {:induction false} StoreKeepsIndex(c: Cache, life: Lifetimes, key: Key, page: Page)
    requires Indexed(c, life) && life.page > 0
    ensures Indexed(Stored(c, life, key, page), life)
  {
    var d := Stored(c, life, key, page);
    forall k | k in d.pages && d.pages[k].value.tags != {}
      ensures Listed(d, k) && d.ownTags[k].value == d.pages[k].value.tags
    {
      if k != key {
        assert Listed(c, k);
      }
    }
    forall k | k in d.ownTags
      ensures InItsSets(d, k)
    {
      StoreKeepsSets(c, life, key, page, k);
    }
  }

  lemma {:induction false} PurgeKeepsIndex(c: Cache, life: Lifetimes, tags: set<Tag>)
    requires Indexed(c, life) && life.stamp > 0
    ensures Indexed(Purged(c, life, tags), life)
  {
    var d := Purged(c, life, tags);
    var gone := Victims(c, tags);
    forall k | k in d.pages && d.pages[k].value.tags != {}
      ensures Listed(d, k) && d.ownTags[k].value == d.pages[k].value.tags
    {
      assert Listed(c, k);
    }
    forall k | k in d.ownTags
      ensures InItsSets(d, k)
    {
      assert InItsSets(c, k) && k !in gone;
      forall t | t in d.ownTags[k].value
        ensures t in d.members && k in d.members[t].value && d.ownTags[k].expires <= d.members[t].expires
      {
        MembersAreVictims(c, tags, t);
        assert k in Staying(c, gone, t);
      }
    }
  }

  /** A purge leaves no live page that was last stored with one of its tags. */
  lemma {:induction false} PurgeReachesEveryPage(c: Cache, life: Lifetimes, tags: set<Tag>, k: Key)
    requires Indexed(c, life) && k in c.pages
    ensures k in Purged(c, life, tags).pages ==> c.pages[k].value.tags !! tags
    ensures k in Purged(c, life, tags).pages <==> k !in Victims(c, tags)
  {
    if t :| t in c.pages[k].value.tags && t in tags {
      assert Listed(c, k) && InItsSets(c, k);
      MembersAreVictims(c, tags, t);
      assert k in Victims(c, tags);
    }
  }

  // ---------- Without expiry ----------

  /** The indexes are exact inverses, and only stored pages are in them. */
  ghost predicate Inverse(c: Cache) {
    && (forall t, k :: k in Smembers(c.members, t) <==> t in Smembers(c.ownTags, k))
    && (forall k :: k in c.ownTags ==> k in c.pages)
    && (forall k :: k in c.pages ==> Smembers(c.ownTags, k) == c.pages[k].value.tags)
  }

  lemma {:induction false} StoreKeepsInverse(c: Cache, life: Lifetimes, key: Key, page: Page)
    requires Inverse(c)
    ensures Inverse(Stored(c, life, key, page))
  {
    var tags := page.tags;
    var d := Stored(c, life, key, page);
    forall t, k
      ensures k in Smembers(d.members, t) <==> t in Smembers(d.ownTags, k)
    {
      StoredSets(c, life, key, page, t, k);
    }
  }

  lemma {:induction false} PurgeKeepsInverse(c: Cache, life: Lifetimes, tags: set<Tag>)
    requires Inverse(c)
    ensures Inverse(Purged(c, life, tags))
  {
    var d := Purged(c, life, tags);
    var gone := Victims(c, tags);
    forall t, k
      ensures k in Smembers(d.members, t) <==> t in Smembers(d.ownTags, k)
    {
      PurgedSets(c, life, tags, t, k);
      MembersAreVictims(c, tags, t);
    }
  }

  /** While nothing has expired, a purge removes exactly the pages that carry one of its tags. */
  lemma {:induction false} PurgeIsExact(c: Cache, life: Lifetimes, tags: set<Tag>, k: Key)
    requires Inverse(c)
    ensures k in Purged(c, life, tags).pages <==> k in c.pages && c.pages[k].value.tags !! tags
  {
    if k in c.pages {
      if t :| t in c.pages[k].value.tags && t in tags {
        assert k in Smembers(c.members, t);
        assert k in Victims(c, tags);
      }
      if k in Victims(c, tags) {
        var t :| t in tags && k in Smembers(c.members, t);
        assert t in Smembers(c.ownTags, k);
      }
    }
  }
}

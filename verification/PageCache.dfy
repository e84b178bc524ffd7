/**
 * The cache's three scripts. Each runs on the server without interruption, and each is shown
 * to compute its one-step description in `CacheState`.
 */
module PageCache {
  import opened Prelude
  import opened CacheState

  type Sets<!K, !V> = map<K, Timed<set<V>>>

  /** `SREM` */
  function Srem<K, V>(m: Sets<K, V>, k: K, v: V): Sets<K, V> {
    if k in m then m[k := Timed(m[k].value - {v}, m[k].expires)] else m
  }

  /** `SADD` and `EXPIRE` on the same key. */
  function Sadd<K, V>(m: Sets<K, V>, k: K, v: V, until: int): Sets<K, V> {
    m[k := Timed(Smembers(m, k) + {v}, until)]
  }

  // ---------- What the loops amount to ----------

  function Left<K, V>(m: Sets<K, V>, ks: set<K>, v: V, k: K): set<V> {
    if k in ks then Smembers(m, k) - {v} else Smembers(m, k)
  }

  /** `v` taken out of every set named in `ks`. */
  function Without<K, V>(m: Sets<K, V>, ks: set<K>, v: V): Sets<K, V> {
    map k | k in m :: Timed(Left(m, ks, v, k), m[k].expires)
  }

  /** `v` put into every set named in `ks`, each then living `until`. */
  function With<K, V>(m: Sets<K, V>, ks: set<K>, v: V, until: int): Sets<K, V> {
    map k | k in m.Keys + ks :: if k in ks then Timed(Smembers(m, k) + {v}, until) else m[k]
  }

  lemma {:induction false} WithoutNone<K, V>(m: Sets<K, V>, v: V)
    ensures Without(m, {}, v) == m
  {
    assert Without(m, {}, v).Keys == m.Keys;
  }

  lemma {:induction false} WithoutOneMore<K, V>(m: Sets<K, V>, ks: set<K>, k: K, v: V)
    ensures Srem(Without(m, ks, v), k, v) == Without(m, ks + {k}, v)
  {
    var left, right := Srem(Without(m, ks, v), k, v), Without(m, ks + {k}, v);
    forall j
      ensures j in left <==> j in right
      ensures j in left && j in right ==> left[j] == right[j]
    {
      assert j != k ==> Left(m, ks + {k}, v, j) == Left(m, ks, v, j);
      assert Left(m, ks + {k}, v, k) == Left(m, ks, v, k) - {v};
    }
    assert left.Keys == right.Keys;
  }

  lemma {:induction false} WithOneMore<K, V>(m: Sets<K, V>, ks: set<K>, k: K, v: V, until: int)
    ensures Sadd(With(m, ks, v, until), k, v, until) == With(m, ks + {k}, v, until)
  {
    var left, right := Sadd(With(m, ks, v, until), k, v, until), With(m, ks + {k}, v, until);
    assert left.Keys == right.Keys;
    assert Smembers(With(m, ks, v, until), k) + {v} == Smembers(m, k) + {v};
  }

  lemma {:induction false} StoreIsStored(c: Cache, life: Lifetimes, key: Key, page: Page, d: Cache)
    requires d.clock == c.clock && d.stamps == c.stamps
    requires d.pages == c.pages[key := Timed(page, After(c.clock, life.page))]
    requires d.ownTags == if page.tags == {} then c.ownTags - {key}
                          else c.ownTags[key := Timed(page.tags, After(c.clock, SetTtl(life)))]
    requires d.members == With(Without(c.members, Smembers(c.ownTags, key), key), page.tags, key, After(c.clock, SetTtl(life)))
    ensures d == Stored(c, life, key, page)
  {
    var m := Stored(c, life, key, page).members;
    forall t
      ensures t in d.members <==> t in m
      ensures t in d.members && t in m ==> d.members[t] == m[t]
    {
      var before := Without(c.members, Smembers(c.ownTags, key), key);
      assert Smembers(before, t) == Left(c.members, Smembers(c.ownTags, key), key, t);
      var stays := Left(c.members, Smembers(c.ownTags, key), key, t);
      assert MembersOnceStored(c, key, page.tags, t) == if t in page.tags then stays + {key} else stays;
    }
    assert d.members.Keys == m.Keys;
  }

  /** One page after another: the ones already deleted, then one more. */
  lemma {:induction false} EvictOneMore(c: Cache, done: set<Key>, p: Key)
    ensures var d := Evicted(c, done);
            Evicted(c, done + {p}) == d.(pages := d.pages - {p}, ownTags := d.ownTags - {p},
                                         members := Without(d.members, Smembers(d.ownTags, p), p))
  {
    var d := Evicted(c, done);
    var own := Smembers(d.ownTags, p);
    var left, right := Without(d.members, own, p), Evicted(c, done + {p}).members;
    forall t
      ensures t in left <==> t in right
      ensures t in left && t in right ==> left[t] == right[t]
    {
      assert Smembers(d.members, t) == Staying(c, done, t);
      assert Left(d.members, own, p, t) == Staying(c, done + {p}, t);
    }
    assert left.Keys == right.Keys;
    assert c.pages - (done + {p}) == c.pages - done - {p};
    assert c.ownTags - (done + {p}) == c.ownTags - done - {p};
  }

  lemma {:induction false} NobodyLeaves(c: Cache)
    ensures Evicted(c, {}).members == c.members
  {
    var m := Evicted(c, {}).members;
    forall t | t in c.members
      ensures m[t] == c.members[t]
    {
      assert Staying(c, {}, t) == Smembers(c.members, t);
    }
  }

  lemma {:induction false} EvictNone(c: Cache)
    ensures EvictedSoFar(c, {}, c, 0)
  {
    NobodyLeaves(c);
    var none: set<Key> := {};
    assert c.pages - none == c.pages;
    assert c.ownTags - none == c.ownTags;
    assert c.pages.Keys * none == none;
  }

  lemma {:induction false} NothingStamped(c: Cache, life: Lifetimes)
    ensures Stamped(c, life, {}) == c
  {
    var none: set<Tag> := {};
    assert c.members - none == c.members;
    assert Stamped(c, life, none).stamps == c.stamps;
  }

  lemma {:induction false} PurgeNone(c: Cache, life: Lifetimes)
    ensures PurgedSoFar(c, life, {}, c, 0)
  {
    assert Victims(c, {}) == {};
    EvictNone(c);
    NothingStamped(c, life);
  }

  /** The members still in the set of one more tag are the new victims, and some old ones. */
  lemma {:induction false} NextVictims(c: Cache, life: Lifetimes, tags: set<Tag>, t: Tag)
    requires t !in tags
    ensures var d := Purged(c, life, tags);
            && Victims(c, tags + {t}) == Victims(c, tags) + Smembers(c.members, t)
            && Victims(d, {t}) == Smembers(d.members, t) == Staying(c, Victims(c, tags), t)
  {
    PurgedSets(c, life, tags, t, "");
    var v := Victims(c, tags + {t});
    forall p
      ensures p in v <==> p in Victims(c, tags) + Smembers(c.members, t)
    {
      if p in Smembers(c.members, t) {
        MembersAreVictims(c, tags + {t}, t);
      }
    }
  }

  lemma {:induction false} PurgeOneMore(c: Cache, life: Lifetimes, tags: set<Tag>, t: Tag)
    requires t !in tags
    ensures Purged(Purged(c, life, tags), life, {t}) == Purged(c, life, tags + {t})
  {
    PurgeOneMoreSets(c, life, tags, t);
    PurgeOneMorePages(c, life, tags, t);
    var left, right := Purged(Purged(c, life, tags), life, {t}), Purged(c, life, tags + {t});
    assert left.stamps == right.stamps;
  }

  lemma {:induction false} PurgeOneMoreSets(c: Cache, life: Lifetimes, tags: set<Tag>, t: Tag)
    requires t !in tags
    ensures Purged(Purged(c, life, tags), life, {t}).members == Purged(c, life, tags + {t}).members
  {
    var d := Purged(c, life, tags);
    var left, right := Purged(d, life, {t}).members, Purged(c, life, tags + {t}).members;
    forall u
      ensures u in left <==> u in right
      ensures u in left && u in right ==> left[u] == right[u]
    {
      if u !in tags && u != t {
        PurgedSets(c, life, tags, u, "");
        StayingComposes(c, life, tags, t, u);
      }
    }
    assert left.Keys == right.Keys;
  }

  lemma {:induction false} MinusTwice<V>(m: map<Key, V>, a: set<Key>, b: set<Key>, both: set<Key>)
    requires a + b == both
    ensures m - a - b == m - both
  {
  }

  lemma {:induction false} PurgeOneMorePages(c: Cache, life: Lifetimes, tags: set<Tag>, t: Tag)
    requires t !in tags
    ensures var d, e := Purged(Purged(c, life, tags), life, {t}), Purged(c, life, tags + {t});
            d.pages == e.pages && d.ownTags == e.ownTags
  {
    NextVictims(c, life, tags, t);
    var gone, more, both := Victims(c, tags), Victims(Purged(c, life, tags), {t}), Victims(c, tags + {t});
    assert gone + more == both;
    MinusTwice(c.pages, gone, more, both);
    MinusTwice(c.ownTags, gone, more, both);
  }

  lemma {:induction false} CountParts(pages: set<Key>, gone: set<Key>, more: set<Key>, staying: set<Key>)
    requires staying <= more && more - gone <= staying
    ensures |pages * (gone + more)| == |pages * gone| + |(pages - gone) * staying|
  {
    assert pages * (gone + more) == pages * gone + (pages - gone) * staying;
  }

  lemma {:induction false} PurgeOneMoreCount(c: Cache, life: Lifetimes, tags: set<Tag>, t: Tag)
    requires t !in tags
    ensures |c.pages.Keys * Victims(c, tags + {t})|
            == |c.pages.Keys * Victims(c, tags)| + |Purged(c, life, tags).pages.Keys * Victims(Purged(c, life, tags), {t})|
  {
    NextVictims(c, life, tags, t);
    var gone := Victims(c, tags);
    assert Purged(c, life, tags).pages.Keys == c.pages.Keys - gone;
    CountParts(c.pages.Keys, gone, Smembers(c.members, t), Staying(c, gone, t));
  }

  lemma {:induction false} StayingComposes(c: Cache, life: Lifetimes, tags: set<Tag>, t: Tag, u: Tag)
    requires t !in tags && u !in tags && u != t
    ensures var d := Purged(c, life, tags);
            Staying(d, Victims(d, {t}), u) == Staying(c, Victims(c, tags + {t}), u)
  {
    NextVictims(c, life, tags, t);
    var d := Purged(c, life, tags);
    forall p
      ensures p in Staying(d, Victims(d, {t}), u) <==> p in Staying(c, Victims(c, tags + {t}), u)
    {
      PurgedSets(c, life, tags, u, p);
    }
  }

  // ---------- The scripts ----------

  function Elements<T>(s: seq<T>): set<T> {
    set x | x in s
  }

  ghost predicate Distinct<T>(s: seq<T>) {
    forall i, j :: 0 <= i < j < |s| ==> s[i] != s[j]
  }

  lemma {:induction false} ElementsGrow<T>(s: seq<T>, i: nat)
    requires i < |s|
    ensures Elements(s[..i + 1]) == Elements(s[..i]) + {s[i]}
    ensures Distinct(s) ==> s[i] !in Elements(s[..i])
  {
  }

  method Unique(tags: seq<Tag>) returns (unique: seq<Tag>)
    ensures Distinct(unique) && Elements(unique) == Elements(tags)
  {
    unique := [];
    for i := 0 to |tags|
      invariant Distinct(unique) && Elements(unique) == Elements(tags[..i])
    {
      ElementsGrow(tags, i);
      ElementsGrow(unique + [tags[i]], |unique|);
      assert (unique + [tags[i]])[..|unique|] == unique;
      if tags[i] !in unique {
        unique := unique + [tags[i]];
      } else {
        assert tags[i] in Elements(unique);
      }
    }
    assert tags[..|tags|] == tags;
  }

  /** `SMEMBERS` lists a set in an order of its own. */
  method InSomeOrder(s: set<Key>) returns (q: seq<Key>)
    ensures Distinct(q) && Elements(q) == s
  {
    q := [];
    var rest := s;
    while rest != {}
      invariant Distinct(q) && Elements(q) == s - rest && rest <= s
    {
      var x :| x in rest;
      ElementsGrow(q + [x], |q|);
      assert (q + [x])[..|q|] == q && (q + [x])[..|q| + 1] == q + [x];
      assert x !in Elements(q);
      q := q + [x];
      rest := rest - {x};
    }
  }

  class PageCache {
    const life: Lifetimes
    var clock: int
    var pages: map<Key, Timed<Page>>
    var ownTags: Sets<Key, Tag>
    var members: Sets<Tag, Key>
    var stamps: map<Tag, Timed<int>>

    ghost function State(): Cache
      reads this
    {
      Cache(clock, pages, ownTags, members, stamps)
    }

    /** Every live page is in the set of every tag it was last stored with. */
    ghost predicate Valid()
      reads this
    {
      life.page > 0 && life.stamp > 0 && Indexed(State(), life)
    }

    constructor (life: Lifetimes, clock: int)
      requires life.page > 0 && life.stamp > 0
      ensures Valid() && this.life == life && State() == Cache(clock, map[], map[], map[], map[])
    {
      this.life := life;
      this.clock := clock;
      pages, ownTags, members, stamps := map[], map[], map[], map[];
    }

    method Tick(now: int)
      requires Valid() && clock <= now
      modifies this
      ensures Valid() && State() == Ticked(old(State()), now)
    {
      TickKeepsIndex(State(), life, now);
      clock := now;
      pages, ownTags, members, stamps :=
        Dropped(pages, now), Dropped(ownTags, now), Dropped(members, now), Dropped(stamps, now);
    }

    /**
     * What a hit finds is alive and stands in the set of each of its tags, so a purge of any of
     * them will reach it. Hit or miss, `at` is no earlier than any purge remembered: a page
     * rendered from here and stored is refused only for a purge of this millisecond or later.
     */
    method Lookup(key: Key) returns (hit: Option<Page>, at: int)
      requires Valid()
      ensures hit.Some? <==> key in pages
      ensures hit.Some? ==> hit.value == pages[key].value && at <= pages[key].expires
      ensures hit.Some? ==> forall t :: t in hit.value.tags ==> key in Victims(State(), {t})
      ensures forall t :: t in stamps ==> stamps[t].value <= at
      ensures forall tags :: PurgedSince(State(), tags, at) <==> exists t :: t in tags && t in stamps && stamps[t].value == at
    {
      hit := if key in pages then Some(pages[key].value) else None;
      at := clock;
      ghost var c := State();
      if key in pages {
        forall t | t in pages[key].value.tags
          ensures key in Victims(c, {t})
        {
          assert Listed(c, key) && InItsSets(c, key);
          MembersAreVictims(c, {t}, t);
        }
      }
    }

    /** Refused exactly when one of the page's tags was purged at or after the lookup that missed. */
    method Store(key: Key, page: Page, renderedFrom: int) returns (written: bool)
      requires Valid()
      modifies this
      ensures Valid()
      ensures written <==> !PurgedSince(old(State()), page.tags, renderedFrom)
      ensures State() == if written then Stored(old(State()), life, key, page) else old(State())
    {
      var rest := page.tags;
      while rest != {}
        invariant rest <= page.tags
        invariant forall t :: t in page.tags - rest ==> !(t in stamps && stamps[t].value >= renderedFrom)
      {
        var t :| t in rest;
        if t in stamps && stamps[t].value >= renderedFrom {
          return false;
        }
        rest := rest - {t};
      }
      ghost var c := State();
      var until := After(clock, SetTtl(life));
      RemoveFromOldSets(key);
      ownTags := ownTags - {key};
      pages := pages[key := Timed(page, After(clock, life.page))];
      AddToSets(key, page.tags, until);
      StoreIsStored(c, life, key, page, State());
      StoreKeepsIndex(c, life, key, page);
      written := true;
    }

    method RemoveFromOldSets(key: Key)
      modifies this`members
      ensures members == Without(old(members), Smembers(ownTags, key), key)
    {
      var previous := Smembers(ownTags, key);
      ghost var m := members;
      ghost var done := {};
      WithoutNone(m, key);
      while previous != {}
        invariant done + previous == Smembers(ownTags, key)
        invariant members == Without(m, done, key)
      {
        var t :| t in previous;
        WithoutOneMore(m, done, t, key);
        members := Srem(members, t, key);
        done := done + {t};
        previous := previous - {t};
      }
    }

    method AddToSets(key: Key, tags: set<Tag>, until: int)
      requires key !in ownTags
      modifies this`members, this`ownTags
      ensures members == With(old(members), tags, key, until)
      ensures ownTags == if tags == {} then old(ownTags) else old(ownTags)[key := Timed(tags, until)]
    {
      var rest := tags;
      ghost var m := members;
      ghost var own := ownTags;
      ghost var done := {};
      assert With(m, {}, key, until) == m;
      while rest != {}
        invariant done + rest == tags && done !! rest
        invariant members == With(m, done, key, until)
        invariant ownTags == if done == {} then own else own[key := Timed(done, until)]
      {
        var t :| t in rest;
        WithOneMore(m, done, t, key, until);
        members := Sadd(members, t, key, until);
        ownTags := Sadd(ownTags, key, t, until);
        done := done + {t};
        rest := rest - {t};
      }
    }

    /** Returns how many pages it removed, each counted once however many of the tags it carried. */
    method PurgeTags(tags: seq<Tag>) returns (removed: nat)
      requires Valid()
      modifies this
      ensures Valid() && State() == Purged(old(State()), life, Elements(tags))
      ensures removed == |old(pages).Keys - pages.Keys|
      ensures forall k :: k in pages ==> pages[k].value.tags !! Elements(tags)
    {
      PurgeKeepsIndex(State(), life, Elements(tags));
      PurgeRemoves(State(), life, Elements(tags));
      var unique := Unique(tags);
      removed := PurgeEach(unique);
    }

    /** The purge script: one round a tag. */
    method PurgeEach(tags: seq<Tag>) returns (removed: nat)
      requires Distinct(tags)
      modifies this`pages, this`ownTags, this`members, this`stamps
      ensures PurgedSoFar(old(State()), life, Elements(tags), State(), removed)
    {
      ghost var c := State();
      removed := 0;
      PurgeNone(c, life);
      for i := 0 to |tags|
        invariant PurgedSoFar(c, life, Elements(tags[..i]), State(), removed)
      {
        PurgeRound(c, life, tags, i, State(), removed);
        var n := PurgeTag(tags[i]);
        removed := removed + n;
      }
      assert tags[..|tags|] == tags;
    }

    method PurgeTag(t: Tag) returns (removed: nat)
      modifies this`pages, this`ownTags, this`members, this`stamps
      ensures State() == Purged(old(State()), life, {t})
      ensures removed == |old(pages).Keys * Victims(old(State()), {t})|
    {
      OneTagsVictims(State(), life, t);
      var keys := InSomeOrder(Smembers(members, t));
      removed := DeletePages(keys);
      members := members - {t};
      stamps := stamps[t := Timed(clock, After(clock, life.stamp))];
    }

    method DeletePages(keys: seq<Key>) returns (removed: nat)
      requires Distinct(keys)
      modifies this`pages, this`ownTags, this`members
      ensures EvictedSoFar(old(State()), Elements(keys), State(), removed)
    {
      ghost var c := State();
      removed := 0;
      EvictNone(c);
      for i := 0 to |keys|
        invariant EvictedSoFar(c, Elements(keys[..i]), State(), removed)
      {
        EvictRound(c, keys, i, State(), removed);
        var n := DeletePage(keys[i]);
        removed := removed + n;
      }
      assert keys[..|keys|] == keys;
    }

    method DeletePage(p: Key) returns (n: nat)
      modifies this`pages, this`ownTags, this`members
      ensures members == Without(old(members), Smembers(old(ownTags), p), p)
      ensures ownTags == old(ownTags) - {p} && pages == old(pages) - {p}
      ensures n == if p in old(pages) then 1 else 0
    {
      RemoveFromOldSets(p);
      ownTags := ownTags - {p};
      n := if p in pages then 1 else 0;
      pages := pages - {p};
    }
  }

  lemma {:induction false} PurgeRemoves(c: Cache, life: Lifetimes, tags: set<Tag>)
    requires Indexed(c, life)
    ensures var d := Purged(c, life, tags);
            && c.pages.Keys - d.pages.Keys == c.pages.Keys * Victims(c, tags)
            && forall k :: k in d.pages ==> d.pages[k].value.tags !! tags
  {
    var d := Purged(c, life, tags);
    forall k | k in d.pages
      ensures d.pages[k].value.tags !! tags
    {
      PurgeReachesEveryPage(c, life, tags, k);
    }
  }

  ghost predicate EvictedSoFar(c: Cache, done: set<Key>, d: Cache, removed: nat) {
    d == Evicted(c, done) && removed == |c.pages.Keys * done|
  }

  lemma {:induction false} EvictRound(c: Cache, keys: seq<Key>, i: nat, d: Cache, removed: nat)
    requires i < |keys| && Distinct(keys) && EvictedSoFar(c, Elements(keys[..i]), d, removed)
    ensures var p := keys[i];
            EvictedSoFar(c, Elements(keys[..i + 1]),
                         d.(pages := d.pages - {p}, ownTags := d.ownTags - {p},
                            members := Without(d.members, Smembers(d.ownTags, p), p)),
                         removed + (if p in d.pages then 1 else 0))
  {
    ElementsGrow(keys, i);
    EvictOneMore(c, Elements(keys[..i]), keys[i]);
    CountOneMore(c.pages.Keys, Elements(keys[..i]), keys[i]);
  }

  ghost predicate PurgedSoFar(c: Cache, life: Lifetimes, done: set<Tag>, d: Cache, removed: nat) {
    d == Purged(c, life, done) && removed == |c.pages.Keys * Victims(c, done)|
  }

  lemma {:induction false} PurgeRound(c: Cache, life: Lifetimes, tags: seq<Tag>, i: nat, d: Cache, removed: nat)
    requires i < |tags| && Distinct(tags) && PurgedSoFar(c, life, Elements(tags[..i]), d, removed)
    ensures PurgedSoFar(c, life, Elements(tags[..i + 1]), Purged(d, life, {tags[i]}),
                        removed + |d.pages.Keys * Victims(d, {tags[i]})|)
  {
    ElementsGrow(tags, i);
    PurgeOneTag(c, life, Elements(tags[..i]), tags[i], d, removed);
  }

  lemma {:induction false} PurgeOneTag(c: Cache, life: Lifetimes, done: set<Tag>, t: Tag, d: Cache, removed: nat)
    requires t !in done && PurgedSoFar(c, life, done, d, removed)
    ensures PurgedSoFar(c, life, done + {t}, Purged(d, life, {t}), removed + |d.pages.Keys * Victims(d, {t})|)
  {
    PurgeOneMore(c, life, done, t);
    PurgeOneMoreCount(c, life, done, t);
  }

  lemma {:induction false} OneTagsVictims(c: Cache, life: Lifetimes, t: Tag)
    ensures Victims(c, {t}) == Smembers(c.members, t)
    ensures var d := Evicted(c, Smembers(c.members, t));
            Purged(c, life, {t}) == d.(members := d.members - {t},
                                       stamps := d.stamps[t := Timed(c.clock, After(c.clock, life.stamp))])
  {
    var d := Evicted(c, Smembers(c.members, t));
    assert Victims(c, {t}) == Smembers(c.members, t);
    assert Stamped(d, life, {t}).stamps == d.stamps[t := Timed(c.clock, After(c.clock, life.stamp))];
  }

  lemma {:induction false} CountOneMore(pages: set<Key>, done: set<Key>, p: Key)
    requires p !in done
    ensures |pages * (done + {p})| == |pages * done| + (if p in pages then 1 else 0)
  {
    assert pages * (done + {p}) == if p in pages then pages * done + {p} else pages * done;
  }
}

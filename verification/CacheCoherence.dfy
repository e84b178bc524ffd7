/**
 * Requests, writers and purges around the page cache, interleaved in any order.
 *
 * Content is known by version: every write to something with tag `t` makes a new version of
 * `t`. A request looks its page up, reads versions while it renders, and offers the page to
 * the cache; writes and purges may fall between any two of those steps. A purge of `t` that
 * has run covers every write to `t` before it.
 */
module CacheCoherence {
  import opened CacheState

  /** A render in flight: the clock of the lookup that missed, and the versions read so far. */
  datatype Request = Request(key: Key, at: int, seen: map<Tag, nat>)

  datatype Response = Response(maxAge: nat, status: nat, setsCookie: bool, varies: bool)

  /**
   * `versions` is the content, `covered` the version of each tag that a finished purge covers,
   * `lastPurge` when that purge ran.
   */
  datatype World = World(
    cache: Cache,
    versions: map<Tag, nat>,
    covered: map<Tag, nat>,
    lastPurge: map<Tag, int>,
    requests: map<nat, Request>)

  datatype Event =
    | Tick(now: int)
    | Write(t: Tag)
    | Purge(tags: set<Tag>)
    | Look(r: nat, key: Key)
    | Read(r: nat, t: Tag)
    | Reply(r: nat, response: Response, declared: set<Tag>)

  function At(m: map<Tag, nat>, t: Tag): nat {
    if t in m then m[t] else 0
  }

  /** The four reasons not to keep a page. */
  predicate MayKeep(response: Response) {
    response.maxAge > 0 && response.status == 200 && !response.setsCookie && !response.varies
  }

  function AfterReply(w: World, life: Lifetimes, r: nat, response: Response, declared: set<Tag>): Cache
    requires r in w.requests
  {
    var q := w.requests[r];
    var tags := q.seen.Keys + declared;
    if !MayKeep(response) || tags == {} || PurgedSince(w.cache, tags, q.at) then w.cache
    else Stored(w.cache, life, q.key, Page(tags, q.seen))
  }

  predicate Enabled(w: World, e: Event) {
    match e
    case Tick(now) => w.cache.clock <= now
    case Write(_) => true
    case Purge(_) => true
    case Look(r, _) => r !in w.requests
    case Read(r, _) => r in w.requests
    case Reply(r, _, _) => r in w.requests
  }

  function Apply(w: World, life: Lifetimes, e: Event): World
    requires Enabled(w, e)
  {
    match e
    case Tick(now) => w.(cache := Ticked(w.cache, now))
    case Write(t) => w.(versions := w.versions[t := At(w.versions, t) + 1])
    case Purge(tags) =>
      w.(cache := Purged(w.cache, life, tags),
         covered := map t | t in w.covered.Keys + tags :: if t in tags then At(w.versions, t) else w.covered[t],
         lastPurge := map t | t in w.lastPurge.Keys + tags :: if t in tags then w.cache.clock else w.lastPurge[t])
    case Look(r, key) =>
      if key in w.cache.pages then w
      else w.(requests := w.requests[r := Request(key, w.cache.clock, map[])])
    case Read(r, t) =>
      var q := w.requests[r];
      if t in q.seen then w
      else w.(requests := w.requests[r := q.(seen := q.seen[t := At(w.versions, t)])])
    case Reply(r, response, declared) =>
      w.(cache := AfterReply(w, life, r, response, declared), requests := w.requests - {r})
  }

  function Init(clock: int): World {
    World(Cache(clock, map[], map[], map[], map[]), map[], map[], map[], map[])
  }

  /** A render that replies while a purge seen since its lookup would still be remembered. */
  predicate Prompt(w: World, life: Lifetimes, e: Event) {
    e.Reply? && e.r in w.requests ==> w.cache.clock <= After(w.requests[e.r].at, life.stamp)
  }

  // ---------- What every state keeps ----------

  /** Everything the page was rendered from is at least as new as any finished purge demands. */
  ghost predicate Fresh(w: World, page: Page) {
    page.seen.Keys <= page.tags && forall t :: t in page.seen ==> page.seen[t] >= At(w.covered, t)
  }

  ghost predicate FreshOrPurged(w: World, q: Request) {
    q.at <= w.cache.clock &&
    forall t :: t in q.seen ==> q.seen[t] >= At(w.covered, t) || (t in w.lastPurge && w.lastPurge[t] >= q.at)
  }

  ghost predicate Remembered(w: World, life: Lifetimes, t: Tag)
    requires t in w.lastPurge
  {
    var p := w.lastPurge[t];
    && p <= w.cache.clock
    && (w.cache.clock <= After(p, life.stamp) ==> t in w.cache.stamps && w.cache.stamps[t] == Timed(p, After(p, life.stamp)))
  }

  ghost predicate Inv(w: World, life: Lifetimes) {
    && Indexed(w.cache, life)
    && (forall t :: At(w.covered, t) <= At(w.versions, t))
    && (forall t :: t in w.lastPurge ==> Remembered(w, life, t))
    && (forall k :: k in w.cache.pages ==> Fresh(w, w.cache.pages[k].value))
    && (forall r :: r in w.requests ==> FreshOrPurged(w, w.requests[r]))
  }

  lemma {:induction false} TickKeeps(w: World, life: Lifetimes, now: int)
    requires Inv(w, life) && w.cache.clock <= now
    ensures Inv(Apply(w, life, Tick(now)), life)
  {
    var w2 := Apply(w, life, Tick(now));
    TickKeepsIndex(w.cache, life, now);
    forall t | t in w2.lastPurge
      ensures Remembered(w2, life, t)
    {
      assert Remembered(w, life, t);
    }
    forall k | k in w2.cache.pages
      ensures Fresh(w2, w2.cache.pages[k].value)
    {
      assert Fresh(w, w.cache.pages[k].value);
    }
    forall r | r in w2.requests
      ensures FreshOrPurged(w2, w2.requests[r])
    {
      assert FreshOrPurged(w, w.requests[r]);
    }
  }

  lemma {:induction false} PurgeKeeps(w: World, life: Lifetimes, tags: set<Tag>)
    requires Inv(w, life) && life.stamp > 0
    ensures Inv(Apply(w, life, Purge(tags)), life)
  {
    var w2 := Apply(w, life, Purge(tags));
    PurgeKeepsIndex(w.cache, life, tags);
    forall t | t in w2.lastPurge
      ensures Remembered(w2, life, t)
    {
      if t !in tags {
        assert Remembered(w, life, t);
      }
    }
    forall k | k in w2.cache.pages
      ensures Fresh(w2, w2.cache.pages[k].value)
    {
      assert Fresh(w, w.cache.pages[k].value);
      PurgeReachesEveryPage(w.cache, life, tags, k);
    }
    forall r | r in w2.requests
      ensures FreshOrPurged(w2, w2.requests[r])
    {
      assert FreshOrPurged(w, w.requests[r]);
    }
  }

  /** A page that is let through read nothing that has been purged since. */
  lemma {:induction false} LetThroughIsFresh(w: World, life: Lifetimes, r: nat, tags: set<Tag>)
    requires Inv(w, life) && r in w.requests && w.requests[r].seen.Keys <= tags
    requires w.cache.clock <= After(w.requests[r].at, life.stamp)
    requires !PurgedSince(w.cache, tags, w.requests[r].at)
    ensures Fresh(w, Page(tags, w.requests[r].seen))
  {
    var q := w.requests[r];
    assert FreshOrPurged(w, q);
    forall t | t in q.seen
      ensures q.seen[t] >= At(w.covered, t)
    {
      if t in w.lastPurge && w.lastPurge[t] >= q.at {
        assert Remembered(w, life, t);
        assert t in tags && w.cache.stamps[t].value >= q.at;
      }
    }
  }

  lemma {:induction false} StoredIsFresh(w: World, life: Lifetimes, key: Key, page: Page)
    requires Fresh(w, page) && forall k :: k in w.cache.pages ==> Fresh(w, w.cache.pages[k].value)
    ensures var c2 := Stored(w.cache, life, key, page);
            forall k :: k in c2.pages ==> Fresh(w, c2.pages[k].value)
  {
  }

  lemma {:induction false} ReplyCacheIsFresh(w: World, life: Lifetimes, r: nat, response: Response, declared: set<Tag>)
    requires Inv(w, life) && r in w.requests && life.page > 0
    requires Prompt(w, life, Reply(r, response, declared))
    ensures var c2 := AfterReply(w, life, r, response, declared);
            && Indexed(c2, life) && c2.clock == w.cache.clock && c2.stamps == w.cache.stamps
            && forall k :: k in c2.pages ==> Fresh(w, c2.pages[k].value)
  {
    var q := w.requests[r];
    var tags := q.seen.Keys + declared;
    if MayKeep(response) && tags != {} && !PurgedSince(w.cache, tags, q.at) {
      StoreKeepsIndex(w.cache, life, q.key, Page(tags, q.seen));
      LetThroughIsFresh(w, life, r, tags);
      StoredIsFresh(w, life, q.key, Page(tags, q.seen));
    }
  }

  lemma {:induction false} ReplyKeeps(w: World, life: Lifetimes, r: nat, response: Response, declared: set<Tag>)
    requires Inv(w, life) && r in w.requests && life.page > 0
    requires Prompt(w, life, Reply(r, response, declared))
    ensures Inv(Apply(w, life, Reply(r, response, declared)), life)
  {
    ReplyCacheIsFresh(w, life, r, response, declared);
    WithCacheKeeps(w, life, AfterReply(w, life, r, response, declared), w.requests - {r});
  }

  lemma {:induction false} WithCacheKeeps(w: World, life: Lifetimes, c2: Cache, requests: map<nat, Request>)
    requires Inv(w, life) && Indexed(c2, life) && c2.clock == w.cache.clock && c2.stamps == w.cache.stamps
    requires forall k :: k in c2.pages ==> Fresh(w, c2.pages[k].value)
    requires forall r :: r in requests ==> FreshOrPurged(w, requests[r])
    ensures Inv(w.(cache := c2, requests := requests), life)
  {
    var w2 := w.(cache := c2, requests := requests);
    forall t | t in w2.lastPurge
      ensures Remembered(w2, life, t)
    {
      assert Remembered(w, life, t);
    }
    forall k | k in w2.cache.pages
      ensures Fresh(w2, w2.cache.pages[k].value)
    {
      assert Fresh(w, c2.pages[k].value);
    }
    forall r | r in w2.requests
      ensures FreshOrPurged(w2, w2.requests[r])
    {
      assert FreshOrPurged(w, requests[r]);
    }
  }

  lemma {:induction false} ReadKeeps(w: World, life: Lifetimes, r: nat, t: Tag)
    requires Inv(w, life) && r in w.requests
    ensures Inv(Apply(w, life, Read(r, t)), life)
  {
    assert FreshOrPurged(w, w.requests[r]);
    var w2 := Apply(w, life, Read(r, t));
    forall x | x in w2.requests
      ensures FreshOrPurged(w, w2.requests[x])
    {
      if x != r {
        assert FreshOrPurged(w, w.requests[x]);
      }
    }
    WithCacheKeeps(w, life, w.cache, w2.requests);
  }

  lemma {:induction false} WriteKeeps(w: World, life: Lifetimes, t: Tag)
    requires Inv(w, life)
    ensures Inv(Apply(w, life, Write(t)), life)
  {
    var w2 := Apply(w, life, Write(t));
    forall u
      ensures At(w2.covered, u) <= At(w2.versions, u)
    {
      assert At(w.covered, u) <= At(w.versions, u);
    }
    forall u | u in w2.lastPurge
      ensures Remembered(w2, life, u)
    {
      assert Remembered(w, life, u);
    }
    forall k | k in w2.cache.pages
      ensures Fresh(w2, w2.cache.pages[k].value)
    {
      assert Fresh(w, w.cache.pages[k].value);
    }
    forall r | r in w2.requests
      ensures FreshOrPurged(w2, w2.requests[r])
    {
      assert FreshOrPurged(w, w.requests[r]);
    }
  }

  lemma {:induction false} StepKeeps(w: World, life: Lifetimes, e: Event)
    requires Inv(w, life) && Enabled(w, e) && Prompt(w, life, e) && life.page > 0 && life.stamp > 0
    ensures Inv(Apply(w, life, e), life)
  {
    match e
    case Tick(now) => TickKeeps(w, life, now);
    case Write(t) => WriteKeeps(w, life, t);
    case Purge(tags) => PurgeKeeps(w, life, tags);
    case Look(r, key) => LookKeeps(w, life, r, key);
    case Read(r, t) => ReadKeeps(w, life, r, t);
    case Reply(r, response, declared) => ReplyKeeps(w, life, r, response, declared);
  }

  lemma {:induction false} LookKeeps(w: World, life: Lifetimes, r: nat, key: Key)
    requires Inv(w, life) && r !in w.requests
    ensures Inv(Apply(w, life, Look(r, key)), life)
  {
    var w2 := Apply(w, life, Look(r, key));
    WithCacheKeeps(w, life, w.cache, w2.requests);
  }

  // ---------- Coherence ----------

  /** Any interleaving from an empty cache, with no render slower than a purge is remembered. */
  ghost predicate IsRun(life: Lifetimes, run: seq<World>, events: seq<Event>) {
    && life.page > 0 && life.stamp > 0
    && |run| == |events| + 1 && run[0] == Init(run[0].cache.clock)
    && (forall i :: 0 <= i < |events| ==>
          Enabled(run[i], events[i]) && Prompt(run[i], life, events[i]) && run[i + 1] == Apply(run[i], life, events[i]))
  }

  lemma {:induction false} RunInv(life: Lifetimes, run: seq<World>, events: seq<Event>, i: nat)
    requires IsRun(life, run, events) && i < |run|
    ensures Inv(run[i], life)
    decreases i
  {
    if i > 0 {
      RunInv(life, run, events, i - 1);
      var e := events[i - 1];
      StepKeeps(run[i - 1], life, e);
    }
  }

  /**
   * Cache coherence. Whatever a lookup finds carries every tag it was rendered from, and was
   * rendered from content that includes every write a finished purge of that tag covers.
   */
  lemma {:induction false} HitsAreCoherent(life: Lifetimes, run: seq<World>, events: seq<Event>, i: nat, key: Key)
    requires IsRun(life, run, events) && i < |run| && key in run[i].cache.pages
    ensures var page := run[i].cache.pages[key].value;
            && page.seen.Keys <= page.tags
            && forall u :: u in page.seen ==> page.seen[u] >= At(run[i].covered, u)
  {
    RunInv(life, run, events, i);
    assert Fresh(run[i], run[i].cache.pages[key].value);
  }

  /** Once a write's purge has run, no hit in the rest of the run predates the write. */
  lemma {:induction false} PurgedWriteIsNeverMissed(life: Lifetimes, run: seq<World>, events: seq<Event>, i: nat, j: nat, key: Key, tag: Tag)
    requires IsRun(life, run, events) && i < j < |run|
    requires events[i].Purge? && tag in events[i].tags
    requires key in run[j].cache.pages
    ensures var page := run[j].cache.pages[key].value;
            tag in page.seen ==> page.seen[tag] >= At(run[i].versions, tag)
  {
    HitsAreCoherent(life, run, events, j, key);
    CoveredGrows(life, run, events, i + 1, j, tag);
  }

  lemma {:induction false} CoveredGrows(life: Lifetimes, run: seq<World>, events: seq<Event>, i: nat, j: nat, t: Tag)
    requires IsRun(life, run, events) && i <= j < |run|
    ensures At(run[i].covered, t) <= At(run[j].covered, t)
    decreases j - i
  {
    if i < j {
      CoveredGrows(life, run, events, i, j - 1, t);
      RunInv(life, run, events, j - 1);
      var e := events[j - 1];
      CoveredGrowsBy(run[j - 1], life, e, t);
    }
  }

  lemma {:induction false} CoveredGrowsBy(w: World, life: Lifetimes, e: Event, t: Tag)
    requires Enabled(w, e) && At(w.covered, t) <= At(w.versions, t)
    ensures At(w.covered, t) <= At(Apply(w, life, e).covered, t)
  {
  }

  lemma {:induction false} StaleIsStored(w2: World, life: Lifetimes, key: Key, t: Tag, clock: int)
    requires w2.requests == map[0 := Request(key, clock, map[t := 0])] && At(w2.covered, t) == 1
    requires w2.cache.stamps == map[t := Timed(clock, After(clock, life.stamp))]
    requires w2.cache.clock == clock && life.page > 0 && life.stamp > 0
    ensures var w3 := Apply(w2, life, Tick(After(clock, life.stamp) + 1));
            var w4 := Apply(w3, life, Reply(0, Response(60, 200, false, false), {}));
            key in w4.cache.pages && !Fresh(w4, w4.cache.pages[key].value)
  {
    var w3 := Apply(w2, life, Tick(After(clock, life.stamp) + 1));
    assert t !in w3.cache.stamps && w3.requests == w2.requests;
  }

  // ---------- How slow a render may be ----------

  /** Any interleaving in which no reply comes more than `bound` milliseconds after its lookup. */
  ghost predicate IsRunWithin(life: Lifetimes, bound: int, run: seq<World>, events: seq<Event>) {
    && |run| == |events| + 1 && run[0] == Init(run[0].cache.clock)
    && (forall i :: 0 <= i < |events| ==>
          && Enabled(run[i], events[i]) && run[i + 1] == Apply(run[i], life, events[i])
          && (events[i].Reply? ==> run[i].cache.clock <= run[i].requests[events[i].r].at + bound))
  }

  ghost predicate NeverStale(life: Lifetimes, bound: int) {
    forall run: seq<World>, events: seq<Event>, i: int, key: Key | IsRunWithin(life, bound, run, events) && 0 <= i < |run| && key in run[i].cache.pages ::
      Fresh(run[i], run[i].cache.pages[key].value)
  }

  /** A run within `bound`, and the state it has come to. */
  ghost predicate Reaches(life: Lifetimes, bound: int, run: seq<World>, events: seq<Event>, w: World) {
    IsRunWithin(life, bound, run, events) && run[|run| - 1] == w
  }

  lemma {:induction false} GoesOn(life: Lifetimes, bound: int, run: seq<World>, events: seq<Event>, w: World, e: Event)
    requires Reaches(life, bound, run, events, w) && Enabled(w, e)
    requires e.Reply? ==> w.cache.clock <= w.requests[e.r].at + bound
    ensures Reaches(life, bound, run + [Apply(w, life, e)], events + [e], Apply(w, life, e))
  {
  }

  /** A page is looked up and rendered from a tag never written. */
  function Rendering(key: Key, t: Tag, clock: int): World {
    Init(clock).(requests := map[0 := Request(key, clock, map[t := 0])])
  }

  lemma {:induction false} RenderingIsReached(life: Lifetimes, bound: int, key: Key, t: Tag, clock: int)
      returns (run: seq<World>, events: seq<Event>)
    ensures Reaches(life, bound, run, events, Rendering(key, t, clock))
  {
    var w := Init(clock);
    run, events := [w], [];
    GoesOn(life, bound, run, events, w, Look(0, key));
    run, events, w := run + [Apply(w, life, Look(0, key))], events + [Look(0, key)], Apply(w, life, Look(0, key));
    assert w.requests == map[0 := Request(key, clock, map[])];
    GoesOn(life, bound, run, events, w, Read(0, t));
    run, events, w := run + [Apply(w, life, Read(0, t))], events + [Read(0, t)], Apply(w, life, Read(0, t));
    assert w.requests == map[0 := Request(key, clock, map[t := 0])];
  }

  /** The tag is written and purged in the instant of the lookup. */
  function Outdated(life: Lifetimes, key: Key, t: Tag, clock: int): World {
    Apply(Apply(Rendering(key, t, clock), life, Write(t)), life, Purge({t}))
  }

  lemma {:induction false} OutdatedIsReached(life: Lifetimes, bound: int, key: Key, t: Tag, clock: int)
      returns (run: seq<World>, events: seq<Event>)
    ensures Reaches(life, bound, run, events, Outdated(life, key, t, clock))
  {
    run, events := RenderingIsReached(life, bound, key, t, clock);
    var w := Rendering(key, t, clock);
    GoesOn(life, bound, run, events, w, Write(t));
    run, events, w := run + [Apply(w, life, Write(t))], events + [Write(t)], Apply(w, life, Write(t));
    GoesOn(life, bound, run, events, w, Purge({t}));
    run, events := run + [Apply(w, life, Purge({t}))], events + [Purge({t})];
  }

  lemma {:induction false} OutdatedIs(life: Lifetimes, key: Key, t: Tag, clock: int)
    ensures var w := Outdated(life, key, t, clock);
            && w.requests == map[0 := Request(key, clock, map[t := 0])] && At(w.covered, t) == 1
            && w.cache.stamps == map[t := Timed(clock, After(clock, life.stamp))] && w.cache.clock == clock
  {
  }

  /** The reply comes when the purge has just been forgotten. */
  lemma {:induction false} StaleRunExists(life: Lifetimes, bound: int, key: Key, t: Tag, clock: int)
      returns (run: seq<World>, events: seq<Event>, w: World)
    requires life.page > 0 && life.stamp > 0 && bound > life.stamp * 1000
    ensures Reaches(life, bound, run, events, w)
    ensures key in w.cache.pages && !Fresh(w, w.cache.pages[key].value)
  {
    run, events := OutdatedIsReached(life, bound, key, t, clock);
    OutdatedIs(life, key, t, clock);
    StaleIsStored(Outdated(life, key, t, clock), life, key, t, clock);
    w := Outdated(life, key, t, clock);
    var tick, reply := Tick(After(clock, life.stamp) + 1), Reply(0, Response(60, 200, false, false), {});
    GoesOn(life, bound, run, events, w, tick);
    run, events, w := run + [Apply(w, life, tick)], events + [tick], Apply(w, life, tick);
    GoesOn(life, bound, run, events, w, reply);
    run, events, w := run + [Apply(w, life, reply)], events + [reply], Apply(w, life, reply);
  }

  /** No page is ever stale exactly when no render takes longer than a purge is remembered. */
  lemma {:induction false} NeverStaleIff(life: Lifetimes, bound: int)
    requires life.page > 0 && life.stamp > 0
    ensures NeverStale(life, bound) <==> bound <= life.stamp * 1000
  {
    if bound <= life.stamp * 1000 {
      forall run: seq<World>, events: seq<Event>, i: int, key: Key | IsRunWithin(life, bound, run, events) && 0 <= i < |run| && key in run[i].cache.pages
        ensures Fresh(run[i], run[i].cache.pages[key].value)
      {
        WithinIsPrompt(life, bound, run, events);
        RunInv(life, run, events, i);
      }
    } else {
      var run, events, w := StaleRunExists(life, bound, "/", "list:post:en", 0);
      assert run[|run| - 1] == w;
    }
  }

  lemma {:induction false} WithinIsPrompt(life: Lifetimes, bound: int, run: seq<World>, events: seq<Event>)
    requires life.page > 0 && life.stamp > 0 && bound <= life.stamp * 1000 && IsRunWithin(life, bound, run, events)
    ensures IsRun(life, run, events)
  {
    forall i | 0 <= i < |events|
      ensures Prompt(run[i], life, events[i])
    {
    }
  }
}

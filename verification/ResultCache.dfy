/** The result cache and pager shared in shape by extensions/list_files/list_files_logic.go
    and extensions/search/search_logic.go, generic in the entry type.  Times are integers
    (nanoseconds); the clock readings of one operation are its parameters. */
module ResultCache {
  import opened Options

  const MAX_CACHE_BYTES := 52428800
  const CACHE_TTL := 300_000_000_000

  datatype CacheEntry<E> = CacheEntry(
    entries: seq<E>, complete: bool, head: string, byteSize: nat, created: int, expiresAt: int)

  /** Page sizes of a tool; the two tools differ only in these. */
  datatype PageLimits = PageLimits(default: nat, max: nat)

  const LIST_FILES_LIMITS := PageLimits(200, 1000)
  const SEARCH_LIMITS := PageLimits(50, 200)

  predicate ValidLimits(l: PageLimits) {
    1 <= l.default <= l.max
  }

  // ---------- Paging ----------

  function Clamp(limit: int, l: PageLimits): int {
    var size := if limit <= 0 then l.default else limit;
    if size > l.max then l.max else size
  }

  function PageEnd(total: nat, offset: nat, limit: int, l: PageLimits): nat
    requires offset <= total && ValidLimits(l)
  {
    var end := offset + Clamp(limit, l);
    if end > total then total else end
  }

  datatype Page<E> = Page(items: seq<E>, total: nat, nextOffset: Option<nat>, complete: bool)

  function PageAt<E>(e: CacheEntry<E>, offset: nat, limit: int, l: PageLimits): Page<E>
    requires offset <= |e.entries| && ValidLimits(l)
  {
    var end := PageEnd(|e.entries|, offset, limit, l);
    Page(e.entries[offset..end], |e.entries|, if end < |e.entries| then Some(end) else None, e.complete)
  }

  function Least(a: int, b: int): int {
    if a < b then a else b
  }

  /** What a page is, from the request alone: from the offset on as many entries as are left,
      but no more than asked for (the default when nothing sensible is asked for), and never
      more than the maximum; nextOffset is where the rest begins, if there is a rest. */
  ghost predicate IsPage<E>(p: Page<E>, e: CacheEntry<E>, offset: nat, limit: int, default: nat, max: nat)
    requires offset <= |e.entries|
  {
    var left := |e.entries| - offset;
    && |p.items| == (if limit <= 0 then Least(left, default) else if limit <= max then Least(left, limit)
                     else Least(left, max))
    && (forall i :: 0 <= i < |p.items| ==> p.items[i] == e.entries[offset + i])
    && p.nextOffset == (if |p.items| < left then Some(offset + |p.items|) else None)
    && p.total == |e.entries| && p.complete == e.complete
  }

  lemma {:induction false} PagesAreAsAskedFor<E>(e: CacheEntry<E>, offset: nat, limit: int, l: PageLimits)
    requires offset <= |e.entries| && ValidLimits(l)
    ensures IsPage(PageAt(e, offset, limit, l), e, offset, limit, l.default, l.max)
  {
  }

  /** The two tools' pages: 200 entries by default and 1000 at most, 50 and 200. */
  lemma {:induction false} PagesOfTheTools<E>(e: CacheEntry<E>, offset: nat, limit: int)
    requires offset <= |e.entries|
    ensures IsPage(PageAt(e, offset, limit, LIST_FILES_LIMITS), e, offset, limit, 200, 1000)
    ensures IsPage(PageAt(e, offset, limit, SEARCH_LIMITS), e, offset, limit, 50, 200)
  {
    PagesAreAsAskedFor(e, offset, limit, LIST_FILES_LIMITS);
    PagesAreAsAskedFor(e, offset, limit, SEARCH_LIMITS);
  }

  /** The items a client collects from `offset` on by following nextOffset until it is
      absent, asking for limits(k) items in its k-th request. */
  function Follow<E>(e: CacheEntry<E>, offset: nat, limits: nat -> int, k: nat, l: PageLimits): seq<E>
    requires offset <= |e.entries| && ValidLimits(l)
    decreases |e.entries| - offset
  {
    var page := PageAt(e, offset, limits(k), l);
    match page.nextOffset
    case None => page.items
    case Some(next) => page.items + Follow(e, next, limits, k + 1, l)
  }

  lemma {:induction false} FollowFromOffset<E>(e: CacheEntry<E>, offset: nat, limits: nat -> int, k: nat, l: PageLimits)
    requires offset <= |e.entries| && ValidLimits(l)
    ensures Follow(e, offset, limits, k, l) == e.entries[offset..]
    decreases |e.entries| - offset
  {
    var end := PageEnd(|e.entries|, offset, limits(k), l);
    if end == |e.entries| {
    } else {
      FollowFromOffset(e, end, limits, k + 1, l);
      assert e.entries[offset..] == e.entries[offset..end] + e.entries[end..];
    }
  }

  /** Whatever sizes the client asks for (zero, negative and oversized included), following
      the pages ends and yields the cached list, every entry once, in order. */
  lemma FollowingPagesYieldsTheList<E>(e: CacheEntry<E>, limits: nat -> int, l: PageLimits)
    requires ValidLimits(l)
    ensures Follow(e, 0, limits, 0, l) == e.entries
  {
    FollowFromOffset(e, 0, limits, 0, l);
  }

  // ---------- Byte accounting ----------

  type Cache<E> = map<string, CacheEntry<E>>

  /** The sizes of the held entries, summed. */
  ghost function Total<E>(cache: Cache<E>): nat {
    if cache == map[] then 0
    else
      var k :| k in cache;
      cache[k].byteSize + Total(cache - {k})
  }

  lemma {:induction false} TotalWithout<E>(cache: Cache<E>, k: string)
    requires k in cache
    ensures Total(cache) == cache[k].byteSize + Total(cache - {k})
    decreases |cache|
  {
    var p :| p in cache && Total(cache) == cache[p].byteSize + Total(cache - {p});
    if p == k {
    } else {
      TotalWithout(cache - {p}, k);
      TotalWithout(cache - {k}, p);
      assert cache - {p} - {k} == cache - {k} - {p};
    }
  }

  lemma TotalWith<E>(cache: Cache<E>, k: string, e: CacheEntry<E>)
    ensures Total(cache[k := e]) == e.byteSize + Total(cache) - if k in cache then cache[k].byteSize else 0
  {
    TotalWithout(cache[k := e], k);
    assert cache[k := e] - {k} == cache - {k};
    if k in cache {
      TotalWithout(cache, k);
    } else {
      assert cache - {k} == cache;
    }
  }

  /** The byte counter against the truth: it also counts entries overwritten in place. */
  ghost predicate Accounted<E>(cache: Cache<E>, cacheBytes: int, overwritten: nat) {
    "" !in cache && cacheBytes == Total(cache) + overwritten
  }

  ghost predicate WithinBudget<E>(cache: Cache<E>, cacheBytes: int) {
    cacheBytes <= MAX_CACHE_BYTES || cache == map[]
  }

  // ---------- Eviction ----------

  function Unexpired<E>(cache: Cache<E>, now: int): Cache<E> {
    map k | k in cache && now <= cache[k].expiresAt :: cache[k]
  }

  /** `kept` results from `live` by dropping the oldest entries until the counter fits. */
  ghost predicate EvictedOldestFirst<E>(live: Cache<E>, kept: Cache<E>, overwritten: nat) {
    && kept.Keys <= live.Keys && (forall k :: k in kept ==> kept[k] == live[k])
    && (forall gone, k :: gone in live && gone !in kept && k in kept ==> live[gone].created <= live[k].created)
    && (kept != live ==> exists last :: NeededToGo(live, kept, last, overwritten))
  }

  /** `last` went last, is the newest of the evicted, and keeping it would not have fitted. */
  ghost predicate NeededToGo<E>(live: Cache<E>, kept: Cache<E>, last: string, overwritten: nat) {
    && last in live && last !in kept
    && Total(kept) + live[last].byteSize + overwritten > MAX_CACHE_BYTES
    && forall gone :: gone in live && gone !in kept ==> live[gone].created <= live[last].created
  }

  /** An entry newer than all others stays exactly when it fits beside the leaked bytes. */
  lemma NewestStaysIffItFits<E>(live: Cache<E>, kept: Cache<E>, cacheBytes: int, overwritten: nat, key: string)
    requires EvictedOldestFirst(live, kept, overwritten)
    requires Accounted(kept, cacheBytes, overwritten) && WithinBudget(kept, cacheBytes)
    requires key in live && forall k :: k in live && k != key ==> live[k].created < live[key].created
    ensures key in kept <==> live[key].byteSize + overwritten <= MAX_CACHE_BYTES
  {
    if key in kept {
      TotalWithout(kept, key);
    } else {
      assert forall k :: k !in kept;
      var last :| NeededToGo(live, kept, last, overwritten);
      assert last == key;
    }
  }

  // ---------- The state of the cache and its transitions ----------

  function SizeOfAll<E>(sizeOf: E -> nat, entries: seq<E>): nat {
    if entries == [] then 0 else SizeOfAll(sizeOf, entries[..|entries| - 1]) + sizeOf(entries[|entries| - 1])
  }

  /** `overwritten` sums the sizes of the entries that were overwritten while still held. */
  datatype CacheState<E> = CacheState(cache: Cache<E>, overwritten: nat)

  ghost predicate Legal<E>(s: CacheState<E>) {
    && "" !in s.cache && WithinBudget(s.cache, Total(s.cache) + s.overwritten) && s.overwritten <= MAX_CACHE_BYTES
  }

  /** A call of the tool.  `fetched` is what the external search delivers, None on failure;
      `clock` are the readings at the lookup, for created, for expiresAt, for the two
      evictions and for the reply. */
  datatype Call<E> =
    | Query(key: string, refresh: bool, fetched: Option<(seq<E>, bool)>, head: string, clock: seq<int>)
    | PageRequest(resultID: string, now: int)

  predicate WellFormed<E>(c: Call<E>) {
    c.Query? ==> c.key != "" && |c.clock| == 6 && forall i, j :: 0 <= i < j < 6 ==> c.clock[i] <= c.clock[j]
  }

  predicate Hit<E>(cache: Cache<E>, c: Call<E>)
    requires c.Query? && WellFormed(c)
  {
    !c.refresh && c.key in cache && c.clock[0] < cache[c.key].expiresAt
  }

  predicate Stores<E>(cache: Cache<E>, c: Call<E>)
    requires WellFormed(c)
  {
    c.Query? && c.fetched.Some? && !Hit(cache, c)
  }

  /** The entry that a storing call builds. */
  function EntryOf<E>(sizeOf: E -> nat, c: Call<E>): CacheEntry<E>
    requires WellFormed(c) && c.Query? && c.fetched.Some?
  {
    CacheEntry(c.fetched.value.0, c.fetched.value.1, c.head, SizeOfAll(sizeOf, c.fetched.value.0),
               c.clock[1], c.clock[2] + CACHE_TTL)
  }

  /** The bytes that a storing call overwrites in place. */
  function HeldSize<E>(cache: Cache<E>, c: Call<E>): nat
    requires WellFormed(c) && c.Query?
  {
    if c.key in cache && c.clock[3] <= cache[c.key].expiresAt then cache[c.key].byteSize else 0
  }

  /** What one call does to the cache.  It is a relation, because entries created at the same
      instant are evicted in any order. */
  ghost predicate Transition<E>(sizeOf: E -> nat, s: CacheState<E>, c: Call<E>, t: CacheState<E>) {
    && WellFormed(c)
    && if c.PageRequest? then
         t == if c.resultID in s.cache && c.now > s.cache[c.resultID].expiresAt
              then s.(cache := s.cache - {c.resultID})
              else s
       else if !Stores(s.cache, c) then t == s
       else
         && t.overwritten == s.overwritten + HeldSize(s.cache, c)
         && EvictedOldestFirst(Unexpired(Unexpired(s.cache, c.clock[3])[c.key := EntryOf(sizeOf, c)], c.clock[4]),
                               t.cache, t.overwritten)
         && WithinBudget(t.cache, Total(t.cache) + t.overwritten)
  }

  lemma TotalOfPart<E>(cache: Cache<E>, k: string)
    requires k in cache
    ensures Total(cache - {k}) <= Total(cache) && cache[k].byteSize <= Total(cache)
  {
    TotalWithout(cache, k);
  }

  /** Overwriting an entry never leaks more than the budget had left. */
  lemma {:induction false} TransitionKeepsLegal<E>(sizeOf: E -> nat, s: CacheState<E>, c: Call<E>, t: CacheState<E>)
    requires Legal(s) && Transition(sizeOf, s, c, t)
    ensures Legal(t) && s.overwritten <= t.overwritten
  {
    hide Total;
    if c.PageRequest? {
      if c.resultID in s.cache {
        TotalOfPart(s.cache, c.resultID);
      }
    } else if Stores(s.cache, c) && HeldSize(s.cache, c) > 0 {
      TotalOfPart(s.cache, c.key);
    }
  }

  lemma HeldEntriesFit<E>(s: CacheState<E>, k: string)
    requires Legal(s) && k in s.cache
    ensures s.cache[k].byteSize + s.overwritten <= MAX_CACHE_BYTES
  {
    TotalOfPart(s.cache, k);
  }

  /** A freshly fetched list is held after its call exactly when it fits beside everything
      that was ever overwritten, the entry it replaces included. */
  lemma {:induction false} FetchedListIsHeldIffItFits<E>(
    sizeOf: E -> nat, s: CacheState<E>, c: Call<E>, t: CacheState<E>)
    requires Legal(s) && Transition(sizeOf, s, c, t) && Stores(s.cache, c)
    requires c.clock[4] - c.clock[2] <= CACHE_TTL
    requires forall k :: k in s.cache && k != c.key ==> s.cache[k].created < c.clock[1]
    ensures c.key in t.cache
       <==> SizeOfAll(sizeOf, c.fetched.value.0) + s.overwritten + HeldSize(s.cache, c) <= 50 * 1024 * 1024
    ensures c.key in t.cache ==> t.cache[c.key] == EntryOf(sizeOf, c)
  {
    hide Total, SizeOfAll;
    TransitionKeepsLegal(sizeOf, s, c, t);
    var live := Unexpired(Unexpired(s.cache, c.clock[3])[c.key := EntryOf(sizeOf, c)], c.clock[4]);
    NewestStaysIffItFits(live, t.cache, Total(t.cache) + t.overwritten, t.overwritten, c.key);
  }

  /** A stored list answers queries for less than five minutes after its expiry was set, and
      pages up to and including that instant. */
  lemma {:induction false} ListsLiveFiveMinutes<E>(
    sizeOf: E -> nat, cache: Cache<E>, c: Call<E>, d: Call<E>, now: int, offset: nat, limit: int, l: PageLimits)
    requires WellFormed(c) && c.Query? && c.fetched.Some? && WellFormed(d) && d.Query? && ValidLimits(l)
    requires c.key in cache && cache[c.key] == EntryOf(sizeOf, c) && d.key == c.key
    ensures Hit(cache, d) <==> !d.refresh && d.clock[0] - c.clock[2] < 5 * 60 * 1_000_000_000
    ensures ServedPage(cache, c.key, now, offset, limit, l).Some?
       <==> now - c.clock[2] <= 5 * 60 * 1_000_000_000 && offset <= |c.fetched.value.0|
  {
  }

  // ---------- Runs ----------

  ghost predicate IsRun<E>(sizeOf: E -> nat, states: seq<CacheState<E>>, calls: seq<Call<E>>) {
    && |states| == |calls| + 1 && Legal(states[0])
    && forall i :: 0 <= i < |calls| ==> Transition(sizeOf, states[i], calls[i], states[i + 1])
  }

  /** The leaked bytes are never given back: whatever was overwritten up to state i takes its
      share of the budget in every later state, so no list larger than the rest is ever held,
      or answered from the cache, again. */
  lemma {:induction false} LeakIsForever<E>(sizeOf: E -> nat, states: seq<CacheState<E>>, calls: seq<Call<E>>,
                                            i: nat, j: nat)
    requires IsRun(sizeOf, states, calls) && i <= j < |states|
    ensures Legal(states[j]) && states[i].overwritten <= states[j].overwritten <= MAX_CACHE_BYTES
    ensures states[j].cache != map[] ==> Total(states[j].cache) <= MAX_CACHE_BYTES - states[i].overwritten
    ensures forall k :: k in states[j].cache ==>
              states[j].cache[k].byteSize <= MAX_CACHE_BYTES - states[i].overwritten
  {
    hide Total, Legal, Transition;
    if j == 0 {
      LegalBudget(states[0]);
    } else if i == j {
      LeakIsForever(sizeOf, states, calls, i - 1, j - 1);
      TransitionKeepsLegal(sizeOf, states[j - 1], calls[j - 1], states[j]);
      LegalBudget(states[j]);
    } else {
      LeakIsForever(sizeOf, states, calls, i, j - 1);
      TransitionKeepsLegal(sizeOf, states[j - 1], calls[j - 1], states[j]);
      LegalBudget(states[j]);
    }
  }

  lemma LegalBudget<E>(s: CacheState<E>)
    requires Legal(s)
    ensures s.overwritten <= MAX_CACHE_BYTES
    ensures s.cache != map[] ==> Total(s.cache) <= MAX_CACHE_BYTES - s.overwritten
    ensures forall k :: k in s.cache ==> s.cache[k].byteSize <= MAX_CACHE_BYTES - s.overwritten
  {
    hide Total;
    forall k | k in s.cache
      ensures s.cache[k].byteSize <= MAX_CACHE_BYTES - s.overwritten
    {
      HeldEntriesFit(s, k);
    }
  }

  predicate LeaksAt<E>(states: seq<CacheState<E>>, calls: seq<Call<E>>, n: nat) {
    && n < |states| && n < |calls| && WellFormed(calls[n])
    && Stores(states[n].cache, calls[n]) && HeldSize(states[n].cache, calls[n]) > 0
  }

  /** The counter drifts over a run exactly when some call in it stores over a held entry. */
  lemma {:induction false} CounterIsExactUnlessOverwritten<E>(
    sizeOf: E -> nat, states: seq<CacheState<E>>, calls: seq<Call<E>>, i: nat, j: nat)
    requires IsRun(sizeOf, states, calls) && i <= j < |states|
    ensures states[j].overwritten == states[i].overwritten
       <==> forall n: nat :: i <= n < j ==> !LeaksAt(states, calls, n)
  {
    hide Total, EvictedOldestFirst, Legal, WithinBudget;
    if i == j {
    } else {
      CounterIsExactUnlessOverwritten(sizeOf, states, calls, i, j - 1);
      LeakIsForever(sizeOf, states, calls, i, j - 1);
      assert LeaksAt(states, calls, j - 1) <==> states[j].overwritten != states[j - 1].overwritten;
      assert Transition(sizeOf, states[j - 1], calls[j - 1], states[j]);
    }
  }

  // ---------- Refreshing wears the cache out ----------

  /** A refresh of the result ID that fetches a list of b bytes. */
  ghost predicate IsRefresh<E>(sizeOf: E -> nat, c: Call<E>, key: string, b: nat) {
    && WellFormed(c) && c.Query? && c.key == key && c.refresh
    && c.fetched.Some? && SizeOfAll(sizeOf, c.fetched.value.0) == b
    && c.clock[4] - c.clock[2] <= CACHE_TTL
  }

  /** Such refreshes, all within the lifetime of the first. */
  ghost predicate RefreshesWithinLifetime<E>(sizeOf: E -> nat, calls: seq<Call<E>>, key: string, b: nat) {
    && (forall n :: 0 <= n < |calls| ==> IsRefresh(sizeOf, calls[n], key, b))
    && forall i, j :: 0 <= i < j < |calls| ==> calls[j].clock[4] - calls[i].clock[2] <= CACHE_TTL
  }

  lemma KeysAfterStore<E>(sizeOf: E -> nat, s: CacheState<E>, c: Call<E>, t: CacheState<E>)
    requires Transition(sizeOf, s, c, t) && Stores(s.cache, c)
    ensures t.cache.Keys <= s.cache.Keys + {c.key}
    ensures t.overwritten == s.overwritten + HeldSize(s.cache, c)
  {
    hide Total, SizeOfAll;
  }

  /** n refreshes, the last being `c`, leave (n - 1) * b bytes leaked and the list held as long
      as n * b bytes fit the budget; from then on nothing is held, and the leak stays. */
  ghost predicate AfterRefreshes<E>(sizeOf: E -> nat, s: CacheState<E>, c: Call<E>, key: string, b: nat, n: nat)
    requires 1 <= n && 0 < b && IsRefresh(sizeOf, c, key, b)
  {
    && s.overwritten == (if (n - 1) * b <= MAX_CACHE_BYTES then (n - 1) * b else MAX_CACHE_BYTES / b * b)
    && (n * b <= MAX_CACHE_BYTES ==> s.cache.Keys == {key} && s.cache[key] == EntryOf(sizeOf, c))
    && (n * b > MAX_CACHE_BYTES ==> s.cache == map[])
  }

  lemma RefreshStores<E>(sizeOf: E -> nat, s: CacheState<E>, c: Call<E>, t: CacheState<E>, key: string, b: nat)
    requires IsRefresh(sizeOf, c, key, b) && Legal(s) && Transition(sizeOf, s, c, t) && s.cache.Keys <= {key}
    ensures t.overwritten == s.overwritten + HeldSize(s.cache, c)
    ensures t.cache.Keys <= {key}
    ensures key in t.cache <==> b + t.overwritten <= MAX_CACHE_BYTES
    ensures key in t.cache ==> t.cache[key] == EntryOf(sizeOf, c)
  {
    hide Total, SizeOfAll, Legal, Transition;
    KeysAfterStore(sizeOf, s, c, t);
    FetchedListIsHeldIffItFits(sizeOf, s, c, t);
  }

  lemma FirstRefresh<E>(sizeOf: E -> nat, c: Call<E>, t: CacheState<E>, key: string, b: nat)
    requires IsRefresh(sizeOf, c, key, b) && 0 < b <= MAX_CACHE_BYTES
    requires Legal<E>(CacheState(map[], 0)) && Transition(sizeOf, CacheState(map[], 0), c, t)
    ensures AfterRefreshes(sizeOf, t, c, key, b, 1)
  {
    hide Total, SizeOfAll, Legal, Transition;
    RefreshStores(sizeOf, CacheState(map[], 0), c, t, key, b);
  }

  lemma NextRefresh<E>(sizeOf: E -> nat, s: CacheState<E>, before: Call<E>, c: Call<E>, t: CacheState<E>, key: string,
                       b: nat, n: nat)
    requires IsRefresh(sizeOf, before, key, b) && IsRefresh(sizeOf, c, key, b)
    requires 2 <= n && 0 < b <= MAX_CACHE_BYTES && AfterRefreshes(sizeOf, s, before, key, b, n - 1)
    requires Legal(s) && Transition(sizeOf, s, c, t) && c.clock[4] - before.clock[2] <= CACHE_TTL
    ensures AfterRefreshes(sizeOf, t, c, key, b, n)
  {
    hide Total, SizeOfAll, Legal, Transition;
    RefreshStores(sizeOf, s, c, t, key, b);
    OneMoreMultiple(n, b);
    var most, used := MAX_CACHE_BYTES / b * b, (n - 2) * b;
    assert (n - 1) * b == used + b && n * b == used + b + b;
    assert HeldSize(s.cache, c) == if used + b <= MAX_CACHE_BYTES then b else 0;
  }

  /** Every run of refreshes of one list within its lifetime uses up the budget. */
  lemma {:induction false} RefreshesUseUpTheBudget<E>(
    sizeOf: E -> nat, states: seq<CacheState<E>>, calls: seq<Call<E>>, key: string, b: nat, n: nat)
    requires IsRun(sizeOf, states, calls) && states[0] == CacheState(map[], 0)
    requires RefreshesWithinLifetime(sizeOf, calls, key, b) && 0 < b <= MAX_CACHE_BYTES && 1 <= n <= |calls|
    ensures AfterRefreshes(sizeOf, states[n], calls[n - 1], key, b, n)
  {
    hide Total, IsRefresh, Legal, Transition, AfterRefreshes;
    LeakIsForever(sizeOf, states, calls, 0, n - 1);
    if n == 1 {
      FirstRefresh(sizeOf, calls[0], states[1], key, b);
    } else {
      RefreshesUseUpTheBudget(sizeOf, states, calls, key, b, n - 1);
      NextRefresh(sizeOf, states[n - 1], calls[n - 2], calls[n - 1], states[n], key, b, n);
    }
  }

  lemma OneMoreMultiple(n: nat, b: nat)
    requires 0 < b <= MAX_CACHE_BYTES && 2 <= n
    ensures n * b == (n - 1) * b + b && (n - 1) * b == (n - 2) * b + b
    ensures (n - 1) * b > MAX_CACHE_BYTES >= (n - 2) * b ==> (n - 2) * b == MAX_CACHE_BYTES / b * b
    ensures MAX_CACHE_BYTES / b * b + b > MAX_CACHE_BYTES
  {
    if (n - 1) * b > MAX_CACHE_BYTES >= (n - 2) * b {
      QuotientIs(n - 2, b);
    }
  }

  lemma QuotientIs(q: nat, b: nat)
    requires 0 < b && q * b <= MAX_CACHE_BYTES < q * b + b
    ensures MAX_CACHE_BYTES / b == q
  {
    var m := MAX_CACHE_BYTES / b;
    assert m * b <= MAX_CACHE_BYTES < m * b + b;
    assert m < q ==> (m + 1) * b <= q * b;
    assert q < m ==> (q + 1) * b <= m * b;
  }

  /** The n-th state when one list of b bytes is fetched again and again at one instant. */
  function Worn<E>(key: string, e: CacheEntry<E>, n: nat): CacheState<E> {
    if n == 0 then CacheState(map[], 0)
    else
      var refreshes: nat := n - 1;
      CacheState(if n * e.byteSize <= MAX_CACHE_BYTES then map[key := e] else map[], refreshes * e.byteSize)
  }

  lemma TotalOfOne<E>(key: string, e: CacheEntry<E>)
    ensures Total(map[key := e]) == e.byteSize && Total<E>(map[]) == 0
  {
    TotalWithout(map[key := e], key);
    assert map[key := e] - {key} == map[];
  }

  function Refetch<E>(key: string, entries: seq<E>): Call<E> {
    Query(key, true, Some((entries, true)), "", [0, 0, 0, 0, 0, 0])
  }

  lemma WearingStep<E>(sizeOf: E -> nat, key: string, entries: seq<E>, n: nat)
    requires key != "" && 0 < SizeOfAll(sizeOf, entries) <= MAX_CACHE_BYTES
    requires n * SizeOfAll(sizeOf, entries) <= MAX_CACHE_BYTES
    ensures var c := Refetch(key, entries);
            Transition(sizeOf, Worn(key, EntryOf(sizeOf, c), n), c, Worn(key, EntryOf(sizeOf, c), n + 1))
  {
    hide Total, SizeOfAll;
    var c := Refetch(key, entries);
    var e := EntryOf(sizeOf, c);
    var b := e.byteSize;
    assert (n + 1) * b == n * b + b && (n >= 1 ==> n * b == (n - 1) * b + b);
    var s, t := Worn(key, e, n), Worn(key, e, n + 1);
    TotalOfOne(key, e);
    assert s.cache == if n == 0 then map[] else map[key := e];
    assert Unexpired(s.cache, 0)[key := e] == map[key := e];
    assert Unexpired(map[key := e], 0) == map[key := e];
    assert t.overwritten == s.overwritten + HeldSize(s.cache, c);
    if t.cache == map[] {
      assert NeededToGo(map[key := e], t.cache, key, t.overwritten);
    }
    assert EvictedOldestFirst(map[key := e], t.cache, t.overwritten);
  }

  /** Such a run exists for every list that fits: after 1 + MAX / b refreshes nothing of b
      bytes fits any more, and by LeakIsForever nothing of that size is ever cached again. */
  lemma {:induction false} RefreshingWearsTheCacheOut<E>(sizeOf: E -> nat, key: string, entries: seq<E>)
    returns (states: seq<CacheState<E>>, calls: seq<Call<E>>)
    requires key != "" && 0 < SizeOfAll(sizeOf, entries) <= MAX_CACHE_BYTES
    ensures IsRun(sizeOf, states, calls) && states[0] == CacheState(map[], 0)
    ensures |calls| == MAX_CACHE_BYTES / SizeOfAll(sizeOf, entries) + 1
    ensures forall c :: c in calls ==> c == Refetch(key, entries)
    ensures forall n :: 1 <= n < |calls| ==> key in states[n].cache
    ensures states[|calls|].cache == map[]
    ensures states[|calls|].overwritten > MAX_CACHE_BYTES - SizeOfAll(sizeOf, entries)
  {
    var c := Refetch(key, entries);
    var e := EntryOf(sizeOf, c);
    var b := e.byteSize;
    hide SizeOfAll, Transition, EntryOf, Refetch, Worn;
    var m := MAX_CACHE_BYTES / b;
    WornOut(key, e, m);
    states := seq(m + 2, n requires 0 <= n < m + 2 => Worn(key, e, n));
    calls := seq(m + 1, n => c);
    forall n | 0 <= n < |calls|
      ensures Transition(sizeOf, states[n], calls[n], states[n + 1])
    {
      WearingStep(sizeOf, key, entries, n);
    }
  }

  lemma WornOut<E>(key: string, e: CacheEntry<E>, m: nat)
    requires key != "" && 0 < e.byteSize <= MAX_CACHE_BYTES && m == MAX_CACHE_BYTES / e.byteSize
    ensures Worn(key, e, 0) == CacheState(map[], 0) && Legal(Worn(key, e, 0))
    ensures forall n: nat :: n <= m ==> n * e.byteSize <= MAX_CACHE_BYTES
    ensures forall n: nat :: 1 <= n <= m ==> key in Worn(key, e, n).cache
    ensures Worn(key, e, m + 1).cache == map[]
    ensures Worn(key, e, m + 1).overwritten > MAX_CACHE_BYTES - e.byteSize
  {
    TotalOfOne(key, e);
    var b := e.byteSize;
    assert m * b <= MAX_CACHE_BYTES < (m + 1) * b == m * b + b;
    forall n: nat | n <= m
      ensures n * b <= MAX_CACHE_BYTES
    {
      MultiplesGrow(n, m, b);
    }
  }

  lemma MultiplesGrow(n: nat, m: nat, b: nat)
    requires n <= m
    ensures n * b <= m * b
  {
  }

  // ---------- Paging across calls ----------

  predicate StoresKey<E>(cache: Cache<E>, c: Call<E>, key: string) {
    WellFormed(c) && Stores(cache, c) && c.key == key
  }

  lemma TransitionOnKey<E>(sizeOf: E -> nat, s: CacheState<E>, c: Call<E>, t: CacheState<E>, key: string)
    requires Transition(sizeOf, s, c, t) && key in t.cache
    ensures if StoresKey(s.cache, c, key) then t.cache[key] == EntryOf(sizeOf, c)
            else key in s.cache && t.cache[key] == s.cache[key]
  {
    hide Total, SizeOfAll;
  }

  /** No call from i on, before j, stores under the key. */
  ghost predicate NoStore<E>(states: seq<CacheState<E>>, calls: seq<Call<E>>, key: string, i: nat, j: nat) {
    |calls| < |states| && j <= |calls| && forall n :: i <= n < j ==> !StoresKey(states[n].cache, calls[n], key)
  }

  /** Call n is the last one before j that stores under the key. */
  ghost predicate LastStore<E>(states: seq<CacheState<E>>, calls: seq<Call<E>>, key: string, i: nat, j: nat, n: nat) {
    |calls| < |states| && i <= n < j <= |calls|
    && StoresKey(states[n].cache, calls[n], key) && NoStore(states, calls, key, n + 1, j)
  }

  lemma {:induction false} EntryStaysWithoutStore<E>(
    sizeOf: E -> nat, states: seq<CacheState<E>>, calls: seq<Call<E>>, key: string, i: nat, j: nat)
    requires IsRun(sizeOf, states, calls) && i <= j < |states|
    requires NoStore(states, calls, key, i, j) && key in states[j].cache
    ensures key in states[i].cache && states[i].cache[key] == states[j].cache[key]
  {
    hide Transition, StoresKey, Legal;
    if i == j {
    } else {
      TransitionOnKey(sizeOf, states[j - 1], calls[j - 1], states[j], key);
      EntryStaysWithoutStore(sizeOf, states, calls, key, i, j - 1);
    }
  }

  lemma {:induction false} EntryIsTheLastStored<E>(
    sizeOf: E -> nat, states: seq<CacheState<E>>, calls: seq<Call<E>>, key: string, i: nat, j: nat, n: nat)
    requires IsRun(sizeOf, states, calls) && i <= j < |states|
    requires LastStore(states, calls, key, i, j, n) && key in states[j].cache
    ensures states[j].cache[key] == EntryOf(sizeOf, calls[n])
  {
    hide Transition, StoresKey, Legal, EntryOf;
    EntryStaysWithoutStore(sizeOf, states, calls, key, n + 1, j);
    TransitionOnKey(sizeOf, states[n], calls[n], states[n + 1], key);
  }

  lemma {:induction false} SomeStoreIsLast<E>(
    states: seq<CacheState<E>>, calls: seq<Call<E>>, key: string, i: nat, j: nat)
    requires |calls| < |states| && i <= j <= |calls|
    ensures NoStore(states, calls, key, i, j) || exists n: nat :: LastStore(states, calls, key, i, j, n)
  {
    hide StoresKey;
    if i == j {
    } else if StoresKey(states[j - 1].cache, calls[j - 1], key) {
      assert LastStore(states, calls, key, i, j, j - 1);
    } else {
      var before: nat := j - 1;
      SomeStoreIsLast(states, calls, key, i, before);
      if n: nat :| LastStore(states, calls, key, i, before, n) {
        assert LastStore(states, calls, key, i, j, n);
      }
    }
  }

  /** A result ID stands for the same list in two states of a run exactly when no query stored
      under it in between, or the last one to do so fetched the same list again. */
  lemma {:induction false} SameListIff<E>(
    sizeOf: E -> nat, states: seq<CacheState<E>>, calls: seq<Call<E>>, key: string, i: nat, j: nat)
    requires IsRun(sizeOf, states, calls) && i <= j < |states|
    requires key in states[i].cache && key in states[j].cache
    ensures states[j].cache[key].entries == states[i].cache[key].entries
       <==> forall n: nat :: LastStore(states, calls, key, i, j, n) ==>
              calls[n].fetched.value.0 == states[i].cache[key].entries
  {
    hide Transition, Legal, NoStore;
    SomeStoreIsLast(states, calls, key, i, j);
    if NoStore(states, calls, key, i, j) {
      EntryStaysWithoutStore(sizeOf, states, calls, key, i, j);
      NoLastStore(states, calls, key, i, j);
    } else {
      forall n: nat | LastStore(states, calls, key, i, j, n)
        ensures states[j].cache[key].entries == calls[n].fetched.value.0
      {
        EntryIsTheLastStored(sizeOf, states, calls, key, i, j, n);
      }
    }
  }

  lemma NoLastStore<E>(states: seq<CacheState<E>>, calls: seq<Call<E>>, key: string, i: nat, j: nat)
    requires NoStore(states, calls, key, i, j)
    ensures forall n: nat :: !LastStore(states, calls, key, i, j, n)
  {
  }

  /** The page that a request gets, if any: the entry must be there and not have expired. */
  function ServedPage<E>(cache: Cache<E>, resultID: string, now: int, offset: int, limit: int, l: PageLimits)
    : Option<Page<E>>
    requires ValidLimits(l)
  {
    if resultID in cache && now <= cache[resultID].expiresAt && 0 <= offset <= |cache[resultID].entries|
    then Some(PageAt(cache[resultID], offset, limit, l))
    else None
  }

  /** What a client has read, and where it goes on. */
  datatype Reading<E> = Reading(items: seq<E>, nextOffset: Option<nat>)

  /** The calls at these places of the run are page requests for the result ID. */
  predicate AreRequests<E>(states: seq<CacheState<E>>, calls: seq<Call<E>>, key: string, at: seq<nat>) {
    |calls| < |states|
    && forall k :: 0 <= k < |at| ==> at[k] < |calls| && calls[at[k]].PageRequest? && calls[at[k]].resultID == key
  }

  /** What the client has after page requests at calls[at[0]], calls[at[1]], ..., the k-th for
      sizes[k] items from the next_offset of the one before; None once a request fails.  It
      starts with `start`: the page that came with the query's reply, or nothing. */
  function Read<E>(states: seq<CacheState<E>>, calls: seq<Call<E>>, key: string, start: Reading<E>, at: seq<nat>,
                   sizes: seq<int>, l: PageLimits): Option<Reading<E>>
    requires ValidLimits(l) && |sizes| == |at| && AreRequests(states, calls, key, at)
  {
    if at == [] then Some(start)
    else
      var n := |at| - 1;
      match Read(states, calls, key, start, at[..n], sizes[..n], l)
      case None => None
      case Some(sofar) =>
        if sofar.nextOffset == None then Some(sofar)
        else match ServedPage(states[at[n]].cache, key, calls[at[n]].now, sofar.nextOffset.value, sizes[n], l)
          case None => None
          case Some(page) => Some(Reading(sofar.items + page.items, page.nextOffset))
  }

  /** The items are the list, or the part of it before nextOffset. */
  ghost predicate Complete<E>(r: Option<Reading<E>>, list: seq<E>) {
    && r.Some?
    && if r.value.nextOffset == None then r.value.items == list
       else r.value.nextOffset.value <= |list| && r.value.items == list[..r.value.nextOffset.value]
  }

  /** Every request finds the entry, unexpired, with this list. */
  ghost predicate FindsList<E>(states: seq<CacheState<E>>, calls: seq<Call<E>>, key: string, at: seq<nat>, list: seq<E>)
    requires AreRequests(states, calls, key, at)
  {
    forall k :: 0 <= k < |at| ==>
      && key in states[at[k]].cache && calls[at[k]].now <= states[at[k]].cache[key].expiresAt
      && states[at[k]].cache[key].entries == list
  }

  lemma {:induction false} ReadingOneList<E>(
    states: seq<CacheState<E>>, calls: seq<Call<E>>, key: string, start: Reading<E>, at: seq<nat>, sizes: seq<int>,
    l: PageLimits, list: seq<E>)
    requires ValidLimits(l) && |sizes| == |at| && AreRequests(states, calls, key, at)
    requires Complete(Some(start), list) && FindsList(states, calls, key, at, list)
    ensures Complete(Read(states, calls, key, start, at, sizes, l), list)
  {
    if at == [] {
    } else {
      var n := |at| - 1;
      ReadingOneList(states, calls, key, start, at[..n], sizes[..n], l, list);
      var sofar := Read(states, calls, key, start, at[..n], sizes[..n], l).value;
      if sofar.nextOffset.Some? {
        var page := PageAt(states[at[n]].cache[key], sofar.nextOffset.value, sizes[n], l);
        assert sofar.items + page.items == list[..sofar.nextOffset.value + |page.items|];
        assert list[..|list|] == list;
      }
    }
  }

  /** Over every run: page requests put together one list, the one the result ID stood for at
      the first of them, as long as the entry has not expired at any request and the queries
      that stored under the ID in between fetched that list again (or there were none). */
  lemma {:induction false} PagesMakeOneList<E>(
    sizeOf: E -> nat, states: seq<CacheState<E>>, calls: seq<Call<E>>, key: string, start: Reading<E>, at: seq<nat>,
    sizes: seq<int>, l: PageLimits)
    requires IsRun(sizeOf, states, calls) && ValidLimits(l) && |sizes| == |at| > 0
    requires AreRequests(states, calls, key, at)
    requires forall k :: 0 <= k < |at| ==>
               && at[0] <= at[k] && key in states[at[k]].cache
               && calls[at[k]].now <= states[at[k]].cache[key].expiresAt
    requires forall k: nat, n: nat :: k < |at| && LastStore(states, calls, key, at[0], at[k], n) ==>
               calls[n].fetched.value.0 == states[at[0]].cache[key].entries
    requires Complete(Some(start), states[at[0]].cache[key].entries)
    ensures Complete(Read(states, calls, key, start, at, sizes, l), states[at[0]].cache[key].entries)
  {
    hide IsRun, LastStore, Complete, Read;
    forall k: nat | k < |at|
      ensures states[at[k]].cache[key].entries == states[at[0]].cache[key].entries
    {
      RunHasOneMoreState(sizeOf, states, calls);
      SameListIff(sizeOf, states, calls, key, at[0], at[k]);
    }
    ReadingOneList(states, calls, key, start, at, sizes, l, states[at[0]].cache[key].entries);
  }

  lemma RunHasOneMoreState<E>(sizeOf: E -> nat, states: seq<CacheState<E>>, calls: seq<Call<E>>)
    requires IsRun(sizeOf, states, calls)
    ensures |states| == |calls| + 1
  {
  }

  /** A refresh between two pages: the client is told the listing is over and holds a list
      that was never there. */
  lemma RefreshMixesTwoLists(sizeOf: string -> nat, key: string, a: string, b: string, c: string, d: string)
    returns (states: seq<CacheState<string>>, calls: seq<Call<string>>)
    requires key != "" && SizeOfAll(sizeOf, [a, b]) + SizeOfAll(sizeOf, [c, d]) <= MAX_CACHE_BYTES
    ensures |states| == 5 && IsRun(sizeOf, states, calls) && AreRequests(states, calls, key, [1, 3])
    ensures states[1].cache.Keys == states[3].cache.Keys == {key}
    ensures states[1].cache[key].entries == [a, b] && states[3].cache[key].entries == [c, d]
    ensures Read(states, calls, key, Reading([], Some(0)), [1, 3], [1, 1], LIST_FILES_LIMITS)
         == Some(Reading([a, d], None))
  {
    hide SizeOfAll, Total;
    var request := PageRequest(key, 0);
    calls := [Refetch(key, [a, b]), request, Refetch(key, [c, d]), request];
    var e, f := EntryOf(sizeOf, calls[0]), EntryOf(sizeOf, calls[2]);
    var s0: CacheState<string> := CacheState(map[], 0);
    var s1, s2 := CacheState(map[key := e], 0), CacheState(map[key := f], e.byteSize);
    states := [s0, s1, s1, s2, s2];
    TotalOfOne(key, e);
    TotalOfOne(key, f);
    StoringAlone(sizeOf, s0, calls[0], s1, key);
    StoringAlone(sizeOf, s1, calls[2], s2, key);
    assert Transition(sizeOf, s1, request, s1) && Transition(sizeOf, s2, request, s2);
    hide Transition;
    ReadMixed(states, calls, key, e, f);
  }

  lemma StoringAlone<E>(sizeOf: E -> nat, s: CacheState<E>, c: Call<E>, t: CacheState<E>, key: string)
    requires key != "" && c.Query? && c.fetched.Some? && c == Refetch(key, c.fetched.value.0)
    requires s.cache.Keys <= {key} && t.cache == map[key := EntryOf(sizeOf, c)]
    requires key in s.cache ==> s.cache[key].expiresAt >= 0
    requires t.overwritten == s.overwritten + if key in s.cache then s.cache[key].byteSize else 0
    requires EntryOf(sizeOf, c).byteSize + t.overwritten <= MAX_CACHE_BYTES
    ensures Transition(sizeOf, s, c, t)
  {
    hide SizeOfAll, Total;
    var e := EntryOf(sizeOf, c);
    TotalOfOne(key, e);
    assert Unexpired(s.cache, 0)[key := e] == map[key := e];
    assert Unexpired(map[key := e], 0) == map[key := e];
  }

  lemma ReadMixed(states: seq<CacheState<string>>, calls: seq<Call<string>>, key: string, e: CacheEntry<string>,
                  f: CacheEntry<string>)
    requires |states| == 5 && |calls| == 4 && calls[1] == calls[3] == PageRequest(key, 0)
    requires states[1].cache == map[key := e] && states[3].cache == map[key := f]
    requires |e.entries| == 2 && |f.entries| == 2 && e.expiresAt >= 0 && f.expiresAt >= 0
    ensures AreRequests(states, calls, key, [1, 3])
    ensures Read(states, calls, key, Reading([], Some(0)), [1, 3], [1, 1], LIST_FILES_LIMITS)
         == Some(Reading([e.entries[0], f.entries[1]], None))
  {
    var l, start := LIST_FILES_LIMITS, Reading([], Some(0));
    var at: seq<nat>, sizes := [1, 3], [1, 1];
    assert at[..1] == [1] && sizes[..1] == [1] && at[..1][..0] == [] && sizes[..1][..0] == [];
    var first, second := PageAt(e, 0, 1, l), PageAt(f, 1, 1, l);
    assert first.items == [e.entries[0]] && first.nextOffset == Some(1);
    assert second.items == [f.entries[1]] && second.nextOffset == None;
    assert Read(states, calls, key, start, at[..1], sizes[..1], l) == Some(Reading([] + first.items, Some(1)));
    assert [] + first.items + second.items == [e.entries[0], f.entries[1]];
    assert Read(states, calls, key, start, at, sizes, l) == Some(Reading([] + first.items + second.items, None));
  }

  // ---------- The cache ----------

  /** What a reply says about the age of its list. */
  datatype Freshness = Freshness(stale: bool, expiresInSeconds: nat)

  function Remaining(expiresAt: int, now: int): nat {
    if expiresAt < now then 0 else (expiresAt - now) / 1_000_000_000
  }

  /** Whole seconds, rounded down, none once expired. */
  lemma RemainingSeconds(expiresAt: int, now: int)
    ensures expiresAt >= now ==>
              Remaining(expiresAt, now) * 1_000_000_000 <= expiresAt - now
              < Remaining(expiresAt, now) * 1_000_000_000 + 1_000_000_000
    ensures expiresAt <= now ==> Remaining(expiresAt, now) == 0
  {
  }

  datatype ListResult<E> = Listed(page: Page<E>, cached: bool, freshness: Freshness) | ListFailed

  datatype PageResult<E> =
    Served(page: Page<E>, freshness: Freshness) | MissingResultID | ResultNotFound | NegativeOffset | OffsetOutOfRange

  class ResultCache<E> {
    const limits: PageLimits
    const sizeOf: E -> nat
    var cache: Cache<E>
    var cacheBytes: int
    /** The summed sizes of the entries that were overwritten while still held. */
    ghost var overwritten: nat

    ghost predicate Valid()
      reads this
    {
      && ValidLimits(limits) && Accounted(cache, cacheBytes, overwritten) && WithinBudget(cache, cacheBytes)
      && overwritten <= MAX_CACHE_BYTES
    }

    ghost function Now(): CacheState<E>
      reads this
    {
      CacheState(cache, overwritten)
    }

    constructor (l: PageLimits, size: E -> nat)
      requires ValidLimits(l)
      ensures Valid() && limits == l && sizeOf == size && Now() == CacheState(map[], 0)
    {
      limits, sizeOf := l, size;
      cache, cacheBytes := map[], 0;
      overwritten := 0;
    }

    method RemoveCache(key: string)
      requires Accounted(cache, cacheBytes, overwritten)
      modifies `cache, `cacheBytes
      ensures Accounted(cache, cacheBytes, overwritten)
      ensures cache == old(cache) - {key} && cacheBytes <= old(cacheBytes)
    {
      if key in cache {
        TotalWithout(cache, key);
        cacheBytes := cacheBytes - cache[key].byteSize;
        cache := cache - {key};
      } else {
        assert cache - {key} == cache;
      }
    }

    method RemoveExpired(now: int)
      requires Accounted(cache, cacheBytes, overwritten)
      modifies `cache, `cacheBytes
      ensures Accounted(cache, cacheBytes, overwritten)
      ensures cache == Unexpired(old(cache), now) && cacheBytes <= old(cacheBytes)
    {
      var keys := cache.Keys;
      while keys != {}
        invariant Accounted(cache, cacheBytes, overwritten) && cacheBytes <= old(cacheBytes)
        invariant keys <= cache.Keys <= old(cache).Keys
        invariant forall k :: k in cache ==> cache[k] == old(cache)[k]
        invariant forall k :: k in old(cache) ==>
                    (k in cache <==> k in keys || now <= old(cache)[k].expiresAt)
        decreases |keys|
      {
        var k :| k in keys;
        if now > cache[k].expiresAt {
          RemoveCache(k);
        }
        keys := keys - {k};
      }
    }

    /** The scan for the oldest entry; "" stands for "none seen yet", as in the source. */
    method OldestKey() returns (oldestKey: string)
      requires "" !in cache && cache != map[]
      ensures oldestKey in cache && forall k :: k in cache ==> cache[oldestKey].created <= cache[k].created
    {
      oldestKey := "";
      var oldest := 0;
      var keys := cache.Keys;
      while keys != {}
        invariant keys <= cache.Keys
        invariant oldestKey == "" ==> keys == cache.Keys
        invariant oldestKey != "" ==> oldestKey in cache && oldest == cache[oldestKey].created
        invariant oldestKey != "" ==> forall k :: k in cache && k !in keys ==> oldest <= cache[k].created
        decreases |keys|
      {
        var k :| k in keys;
        if oldestKey == "" || cache[k].created < oldest {
          oldestKey, oldest := k, cache[k].created;
        }
        keys := keys - {k};
      }
    }

    method Evict(now: int)
      requires Accounted(cache, cacheBytes, overwritten)
      modifies `cache, `cacheBytes
      ensures Accounted(cache, cacheBytes, overwritten) && WithinBudget(cache, cacheBytes)
      ensures EvictedOldestFirst(Unexpired(old(cache), now), cache, overwritten)
      ensures old(WithinBudget(cache, cacheBytes)) ==> cache == Unexpired(old(cache), now)
    {
      RemoveExpired(now);
      ghost var live := cache;
      while cacheBytes > MAX_CACHE_BYTES && cache != map[]
        invariant Accounted(cache, cacheBytes, overwritten)
        invariant EvictedOldestFirst(live, cache, overwritten)
        invariant old(WithinBudget(cache, cacheBytes)) ==> cache == live
        decreases |cache|
      {
        var oldestKey := OldestKey();
        TotalWithout(cache, oldestKey);
        RemoveCache(oldestKey);
        assert NeededToGo(live, cache, oldestKey, overwritten);
      }
    }

    /** Stores an entry.  `first` and `second` are the clock readings of the two evictions. */
    method PutCache(key: string, e: CacheEntry<E>, first: int, second: int)
      requires Valid() && key != ""
      modifies this
      ensures Valid()
      ensures overwritten == old(overwritten)
                + if key in Unexpired(old(cache), first) then old(cache)[key].byteSize else 0
      ensures EvictedOldestFirst(Unexpired(Unexpired(old(cache), first)[key := e], second), cache, overwritten)
      ensures second <= e.expiresAt && (forall k :: k in old(cache) && k != key ==> old(cache)[k].created < e.created)
              ==> (key in cache <==> e.byteSize + overwritten <= MAX_CACHE_BYTES)
    {
      hide Total, EvictedOldestFirst;
      Evict(first);
      if key in cache {
        TotalOfPart(cache, key);
        overwritten := overwritten + cache[key].byteSize;
      }
      TotalWith(cache, key, e);
      cache := cache[key := e];
      cacheBytes := cacheBytes + e.byteSize;
      Evict(second);
      ghost var live := Unexpired(Unexpired(old(cache), first)[key := e], second);
      if second <= e.expiresAt && forall k :: k in old(cache) && k != key ==> old(cache)[k].created < e.created {
        NewestStaysIffItFits(live, cache, cacheBytes, overwritten, key);
      }
    }

    /** runListFiles / runSearch after the parameters are validated; Call says what `fetched`
        and `clock` are. */
    method RunQuery(key: string, refresh: bool, pageSize: int, fetched: Option<(seq<E>, bool)>, head: string,
                    clock: seq<int>)
      returns (r: ListResult<E>)
      requires Valid() && WellFormed(Query(key, refresh, fetched, head, clock))
      modifies this
      ensures Valid() && old(overwritten) <= overwritten
      ensures Transition(sizeOf, old(Now()), Query(key, refresh, fetched, head, clock), Now())
      ensures var c := Query(key, refresh, fetched, head, clock);
              r == if Hit(old(cache), c) then
                     var e := old(cache)[key];
                     Listed(PageAt(e, 0, pageSize, limits), true,
                            Freshness(e.head != "" && head != "" && head != e.head, Remaining(e.expiresAt, clock[5])))
                   else if fetched.None? then ListFailed
                   else var e := EntryOf(sizeOf, c);
                     Listed(PageAt(e, 0, pageSize, limits), false, Freshness(false, Remaining(e.expiresAt, clock[5])))
      ensures r.Listed? ==>
                && (r.cached <==> !refresh && key in old(cache) && clock[0] < old(cache)[key].expiresAt)
                && var e := if r.cached then old(cache)[key]
                            else EntryOf(sizeOf, Query(key, refresh, fetched, head, clock));
                   IsPage(r.page, e, 0, pageSize, limits.default, limits.max)
      ensures overwritten > old(overwritten) ==>
                key in old(cache) && (refresh || clock[0] == clock[3] == old(cache)[key].expiresAt)
    {
      hide Total, EvictedOldestFirst;
      if !refresh {
        if key in cache && clock[0] < cache[key].expiresAt {
          var e := cache[key];
          PagesAreAsAskedFor(e, 0, pageSize, limits);
          return Listed(PageAt(e, 0, pageSize, limits), true,
                        Freshness(e.head != "" && head != "" && head != e.head, Remaining(e.expiresAt, clock[5])));
        }
      }
      if fetched == None {
        return ListFailed;
      }
      var (entries, complete) := fetched.value;
      var byteSize := 0;
      for i := 0 to |entries|
        invariant byteSize == SizeOfAll(sizeOf, entries[..i])
      {
        assert entries[..i + 1][..i] == entries[..i];
        byteSize := byteSize + sizeOf(entries[i]);
      }
      assert entries[..|entries|] == entries;
      var e := CacheEntry(entries, complete, head, byteSize, clock[1], clock[2] + CACHE_TTL);
      PutCache(key, e, clock[3], clock[4]);
      PagesAreAsAskedFor(e, 0, pageSize, limits);
      return Listed(PageAt(e, 0, pageSize, limits), false,
                    Freshness(e.head != "" && head != "" && head != e.head, Remaining(e.expiresAt, clock[5])));
    }

    /** runListFilesPage / runSearchPage; `later` is the clock reading for the reply. */
    method RunPage(resultID: string, offset: int, limit: int, head: string, now: int, later: int)
      returns (r: PageResult<E>)
      requires Valid() && now <= later
      modifies `cache, `cacheBytes
      ensures Valid() && Transition(sizeOf, old(Now()), PageRequest(resultID, now), Now())
      ensures ServedPage(old(cache), resultID, now, offset, limit, limits) == if r.Served? then Some(r.page) else None
      ensures resultID == "" ==> r == MissingResultID && cache == old(cache)
      ensures resultID != "" && resultID !in Unexpired(old(cache), now) ==>
                r == ResultNotFound && cache == old(cache) - {resultID}
      ensures resultID in Unexpired(old(cache), now) ==>
                && cache == old(cache)
                && r == if offset < 0 then NegativeOffset
                        else if offset > |cache[resultID].entries| then OffsetOutOfRange
                        else Served(PageAt(cache[resultID], offset, limit, limits),
                                    Freshness(cache[resultID].head != "" && head != cache[resultID].head,
                                              Remaining(cache[resultID].expiresAt, later)))
      ensures r.Served? ==>
                && resultID in old(cache) && now <= old(cache)[resultID].expiresAt
                && 0 <= offset <= |old(cache)[resultID].entries|
                && IsPage(r.page, old(cache)[resultID], offset, limit, limits.default, limits.max)
    {
      if resultID == "" {
        return MissingResultID;
      }
      if resultID !in cache || now > cache[resultID].expiresAt {
        if resultID in cache {
          RemoveCache(resultID);
        } else {
          assert cache - {resultID} == cache;
        }
        return ResultNotFound;
      }
      var e := cache[resultID];
      if offset < 0 {
        return NegativeOffset;
      }
      if offset > |e.entries| {
        return OffsetOutOfRange;
      }
      PagesAreAsAskedFor(e, offset, limit, limits);
      var size := limit;
      if size <= 0 {
        size := limits.default;
      }
      if size > limits.max {
        size := limits.max;
      }
      var end := offset + size;
      if end > |e.entries| {
        end := |e.entries|;
      }
      return Served(Page(e.entries[offset..end], |e.entries|,
                         if end < |e.entries| then Some(end) else None, e.complete),
                    Freshness(e.head != "" && head != e.head, Remaining(e.expiresAt, later)));
    }
  }

  // ---------- The two tools ----------

  /** A search hit with its context lines. */
  datatype MatchEntry = MatchEntry(path: string, line: int, text: string, before: seq<string>, after: seq<string>)

  function LinesSize(lines: seq<string>): nat {
    if lines == [] then 0 else |lines[0]| + LinesSize(lines[1..])
  }

  function PathSize(path: string): nat {
    |path| + 16
  }

  function MatchSize(m: MatchEntry): nat {
    |m.path| + |m.text| + 64 + LinesSize(m.before) + LinesSize(m.after)
  }

  function TotalLength(lines: seq<string>): nat {
    if lines == [] then 0 else TotalLength(lines[..|lines| - 1]) + |lines[|lines| - 1]|
  }

  /** A listing costs its paths and 16 bytes for each. */
  lemma {:induction false} SizeOfListing(paths: seq<string>)
    ensures SizeOfAll(PathSize, paths) == TotalLength(paths) + 16 * |paths|
  {
    if paths == [] {
    } else {
      SizeOfListing(paths[..|paths| - 1]);
    }
  }

  lemma {:induction false} LinesSizeIsTotal(lines: seq<string>, last: string)
    ensures LinesSize(lines + [last]) == LinesSize(lines) + |last|
  {
    if lines == [] {
      assert lines + [last] == [last];
    } else {
      assert (lines + [last])[1..] == lines[1..] + [last];
      LinesSizeIsTotal(lines[1..], last);
    }
  }

  lemma {:induction false} LinesTotal(lines: seq<string>)
    ensures LinesSize(lines) == TotalLength(lines)
  {
    if lines == [] {
    } else {
      var init := lines[..|lines| - 1];
      assert lines == init + [lines[|lines| - 1]];
      LinesSizeIsTotal(init, lines[|lines| - 1]);
      LinesTotal(init);
    }
  }

  /** A hit costs its path, its text, its context lines and 64 bytes. */
  lemma {:induction false} SizeOfHit(m: MatchEntry)
    ensures MatchSize(m) == |m.path| + |m.text| + TotalLength(m.before) + TotalLength(m.after) + 64
  {
    LinesTotal(m.before);
    LinesTotal(m.after);
  }

  method NewListFilesCache() returns (c: ResultCache<string>)
    ensures fresh(c) && c.Valid() && c.limits == PageLimits(200, 1000) && c.sizeOf == PathSize && c.cache == map[]
  {
    c := new ResultCache<string>(LIST_FILES_LIMITS, PathSize);
  }

  method NewSearchCache() returns (c: ResultCache<MatchEntry>)
    ensures fresh(c) && c.Valid() && c.limits == PageLimits(50, 200) && c.sizeOf == MatchSize && c.cache == map[]
  {
    c := new ResultCache<MatchEntry>(SEARCH_LIMITS, MatchSize);
  }
}

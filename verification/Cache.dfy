// The TTL cache around a resolver, as one caller at a time sees it
// (dnsx/cache/cache.go). Module SingleFlight has the concurrent callers.
module Caching {
  import opened Text
  import opened Dnsx
  import opened CacheState

  // The cache's own complaint about a resolver without response codes.
  function CannotTrace(): ErrText {
    "cannot report codes"
  }

  // What a fixed resolver looks like from above the cache: names are put in
  // canonical form once more, and a resolver that cannot trace is never asked.
  function Above(inner: Resolver): Resolver {
    match inner
    case Tracing(query) => Tracing((q: Question) => query(Question(Normalize(q.name), q.qtype)))
    case Plain(_) => Tracing((q: Question) => Failed(CannotTrace()))
  }

  // A cache at one moment, the wrapped resolver's record of questions included.
  datatype Moment = Moment(entries: Entries, stats: Stats, clock: int, wire: seq<Key>)

  // Served from memory at time t.
  ghost predicate Hit(b: Moment, k: Key, reply: Reply, a: Moment) {
    && k in b.entries && a.clock <= b.entries[k].expires && reply == Answered(b.entries[k].answer)
    && b.clock <= a.clock
    && a.entries == b.entries[k := b.entries[k].(hits := b.entries[k].hits + 1)]
    && a.stats == b.stats.(hits := b.stats.hits + 1)
    && a.wire == b.wire
  }

  // Nothing live in memory: asked below, and the answer, if it is one, stored.
  ghost predicate Miss(cfg: Config, inner: Resolver, b: Moment, k: Key, reply: Reply, a: Moment)
    requires inner.Tracing?
  {
    && (k in b.entries ==> b.entries[k].expires < a.clock)
    && b.clock <= a.clock
    && reply == inner.query(k) && a.wire == b.wire + [k]
    && a.stats.hits == b.stats.hits && a.stats.misses == b.stats.misses + 1 && a.stats.collapsed == b.stats.collapsed
    && (if reply.Answered? then StoredAnew(cfg, b, k, reply.answer, a)
        else a.entries == b.entries - {k} && a.stats == b.stats.(misses := b.stats.misses + 1))
  }

  ghost predicate StoredAnew(cfg: Config, b: Moment, k: Key, answer: Answer, a: Moment) {
    && k in a.entries && a.entries[k].answer == answer && a.entries[k].hits == 0
    && b.clock <= a.entries[k].expires - Lifetime(cfg, answer) <= a.entries[k].observed <= a.clock
    && |a.entries| <= cfg.maxEntries
    && (forall j :: j in a.entries && j != k ==> j in b.entries && a.entries[j] == b.entries[j])
    && (|b.entries - {k}| < cfg.maxEntries ==> a.entries.Keys == b.entries.Keys + {k})
    && a.stats.evictions == b.stats.evictions + |b.entries - {k}| - |a.entries - {k}|
    && a.stats.negative == b.stats.negative + if answer.Empty() then 1 else 0
  }

  // One call of put: what was there, thinned out first when there was no room, and
  // the answer on top.
  ghost predicate PutLeaves(cfg: Config, b: Moment, k: Key, answer: Answer, a: Moment) {
    && k in a.entries && |a.entries| <= cfg.maxEntries
    && a.entries[k].answer == answer && a.entries[k].hits == 0
    && b.clock <= a.entries[k].expires - Lifetime(cfg, answer) <= a.entries[k].observed <= a.clock
    && a.stats.misses == b.stats.misses && a.stats.hits == b.stats.hits && a.stats.collapsed == b.stats.collapsed
    && a.stats.negative == b.stats.negative + (if answer.Empty() then 1 else 0)
    && a.wire == b.wire
    && exists kept, now :: Thinned(cfg, b, kept, now) && b.clock <= now <= a.clock && a.entries == kept[k := a.entries[k]] &&
                           a.stats.evictions == b.stats.evictions + |b.entries| - |kept|
  }

  ghost predicate Thinned(cfg: Config, b: Moment, kept: Entries, now: int) {
    if |b.entries| < cfg.maxEntries then kept == b.entries else Evicted(b.entries, kept, now, cfg.maxEntries)
  }

  lemma ThinnedIsPart(cfg: Config, b: Moment, kept: Entries, now: int)
    requires Thinned(cfg, b, kept, now)
    ensures kept.Keys <= b.entries.Keys && forall j :: j in kept ==> kept[j] == b.entries[j]
  {
  }

  // What put leaves after a miss is the answer stored anew.
  lemma {:induction false} PutStoresAnew(cfg: Config, b: Moment, mid: Moment, k: Key, answer: Answer, a: Moment)
    requires b.clock <= mid.clock && mid.entries == b.entries - {k} && mid.stats.evictions == b.stats.evictions
    requires mid.stats.negative == b.stats.negative
    requires PutLeaves(cfg, mid, k, answer, a)
    ensures StoredAnew(cfg, b, k, answer, a)
  {
    hide Lifetime, Thinned;
    var kept, now :| Thinned(cfg, mid, kept, now) && mid.clock <= now <= a.clock && a.entries == kept[k := a.entries[k]] &&
                     a.stats.evictions == mid.stats.evictions + |mid.entries| - |kept|;
    OthersAreKept(cfg, mid, b.entries, k, kept, now, a.entries[k]);
  }

  lemma {:induction false} OthersAreKept(cfg: Config, mid: Moment, m: Entries, k: Key, kept: Entries, now: int, e: Entry)
    requires mid.entries == m - {k} && Thinned(cfg, mid, kept, now)
    ensures kept[k := e] - {k} == kept
    ensures forall j :: j in kept[k := e] && j != k ==> j in m && kept[k := e][j] == m[j]
    ensures |m - {k}| < cfg.maxEntries ==> kept[k := e].Keys == m.Keys + {k}
  {
    hide Thinned;
    ThinnedIsPart(cfg, mid, kept, now);
    PartOnTop(m, k, kept, e);
    if |m - {k}| < cfg.maxEntries {
      NotThinned(cfg, mid, kept, now);
      WholeOnTop(m, k, e);
    }
  }

  lemma PartOnTop(m: Entries, k: Key, kept: Entries, e: Entry)
    requires kept.Keys <= (m - {k}).Keys && forall j :: j in kept ==> kept[j] == (m - {k})[j]
    ensures kept[k := e] - {k} == kept
    ensures forall j :: j in kept[k := e] && j != k ==> j in m && kept[k := e][j] == m[j]
  {
  }

  lemma WholeOnTop(m: Entries, k: Key, e: Entry)
    ensures (m - {k})[k := e].Keys == m.Keys + {k}
  {
  }

  lemma NotThinned(cfg: Config, b: Moment, kept: Entries, now: int)
    requires Thinned(cfg, b, kept, now) && |b.entries| < cfg.maxEntries
    ensures kept == b.entries
  {
  }

  lemma NeverAsked(cfg: Config, inner: Resolver, b: Moment, q: Question)
    requires inner.Plain?
    ensures Answers(cfg, inner, b, q, Failed(CannotTrace()), b)
  {
    hide Normalize;
  }

  // The three ways through a call, from what its parts leave.
  lemma HitAnswers(cfg: Config, inner: Resolver, b: Moment, q: Question, k: Key, a: Moment)
    requires inner.Tracing? && k == Question(Normalize(q.name), q.qtype) && k in b.entries && !Expired(b.entries[k], a.clock)
    requires b.clock <= a.clock && a.entries == Served(b.entries, k) && a.wire == b.wire
    requires a.stats == b.stats.(hits := b.stats.hits + 1)
    ensures Answers(cfg, inner, b, q, Answered(b.entries[k].answer), a)
  {
    hide Normalize;
  }

  lemma FailureAnswers(cfg: Config, inner: Resolver, b: Moment, q: Question, k: Key, reply: Reply, a: Moment)
    requires inner.Tracing? && k == Question(Normalize(q.name), q.qtype) && (k in b.entries ==> Expired(b.entries[k], a.clock))
    requires b.clock <= a.clock && a.entries == b.entries - {k} && a.wire == b.wire + [k]
    requires a.stats == b.stats.(misses := b.stats.misses + 1) && reply == inner.query(k) && !reply.Answered?
    ensures Answers(cfg, inner, b, q, reply, a)
  {
    hide Normalize;
  }

  lemma {:induction false} StoreAnswers(cfg: Config, inner: Resolver, b: Moment, q: Question, k: Key, reply: Reply, mid: Moment, a: Moment)
    requires inner.Tracing? && k == Question(Normalize(q.name), q.qtype) && (k in b.entries ==> Expired(b.entries[k], mid.clock))
    requires b.clock <= mid.clock <= a.clock && mid.entries == b.entries - {k} && mid.wire == b.wire + [k]
    requires mid.stats == b.stats.(misses := b.stats.misses + 1) && reply == inner.query(k) && reply.Answered?
    requires PutLeaves(cfg, mid, k, reply.answer, a)
    ensures Answers(cfg, inner, b, q, reply, a)
  {
    hide Normalize, StoredAnew, Lifetime;
    PutStoresAnew(cfg, b, mid, k, reply.answer, a);
  }

  // One call of Query, from start to end.
  ghost predicate Answers(cfg: Config, inner: Resolver, b: Moment, q: Question, reply: Reply, a: Moment) {
    var k := Question(Normalize(q.name), q.qtype);
    match inner
    case Plain(_) => reply == Failed(CannotTrace()) && a == b
    case Tracing(_) => Hit(b, k, reply, a) || Miss(cfg, inner, b, k, reply, a)
  }

  // A question answered once is answered from memory until that answer expires:
  // nothing more goes out, and another name with the same normal form will do.
  lemma {:induction false} SecondQuestionIsAHit(cfg: Config, inner: Resolver, m0: Moment, q1: Question, r1: Reply, m1: Moment,
                                                q2: Question, r2: Reply, m2: Moment)
    requires Sane(cfg) && Answers(cfg, inner, m0, q1, r1, m1) && Answers(cfg, inner, m1, q2, r2, m2)
    requires r1.Answered? && Normalize(q2.name) == Normalize(q1.name) && q2.qtype == q1.qtype
    ensures var k := Question(Normalize(q1.name), q1.qtype);
            && k in m1.entries && m1.entries[k].answer == r1.answer
            && (m2.clock <= m1.entries[k].expires ==>
                  r2 == r1 && m2.wire == m1.wire && m2.stats == m1.stats.(hits := m1.stats.hits + 1))
            && (m0.wire != m1.wire ==> m0.clock + Lifetime(cfg, r1.answer) <= m1.entries[k].expires <= m1.clock + Lifetime(cfg, r1.answer))
  {
    hide Normalize, Lifetime;
  }

  class Cache {
    const inner: Resolver
    const cfg: Config
    var entries: Entries
    var waiters: set<Key>
    var stats: Stats
    var clock: int
    // What the wrapped resolver has been asked, in order.
    ghost var wire: seq<Key>

    ghost predicate Valid()
      reads this
    {
      Sane(cfg) && waiters == {}
    }

    ghost function Snap(): Moment
      reads this
    {
      Moment(entries, stats, clock, wire)
    }

    // Every stored answer is the one the wrapped resolver gives.
    ghost predicate Coherent()
      reads this
    {
      forall k :: k in entries ==> inner.Tracing? && inner.query(k) == Answered(entries[k].answer)
    }

    // A file of answers the wrapped resolver gives.
    ghost predicate IsTrue(file: seq<Observation>) {
      forall p :: p in file && p.answer.Some? ==> inner.Tracing? && inner.query(p.key) == Answered(p.answer.value)
    }

    constructor (inner: Resolver, cfg: Config)
      ensures Valid() && Coherent()
      ensures this.inner == inner && entries == map[] && wire == []
    {
      this.inner := inner;
      this.cfg := WithDefaults(cfg);
      entries, waiters, stats, clock := map[], {}, Stats(0, 0, 0, 0, 0), 0;
      wire := [];
    }

    // A reading of a clock that never runs backwards.
    method Now() returns (t: int)
      modifies this`clock
      ensures t == clock >= old(clock)
    {
      t :| t >= clock;
      clock := t;
    }

    method Get(k: Key) returns (hit: Option<Answer>)
      modifies this`clock, this`entries, this`stats
      ensures clock >= old(clock)
      ensures hit.Some? <==> k in old(entries) && !Expired(old(entries)[k], clock)
      ensures hit.Some? ==> hit.value == old(entries)[k].answer && entries == Served(old(entries), k)
      ensures hit.None? ==> entries == old(entries) - {k}
      ensures old(Coherent()) ==> Coherent()
      ensures stats == if hit.Some? then old(stats).(hits := old(stats).hits + 1)
                       else old(stats).(misses := old(stats).misses + 1)
    {
      var now := Now();
      if k !in entries {
        stats := stats.(misses := stats.misses + 1);
        return None;
      }
      var e := entries[k];
      if Expired(e, now) {
        entries := entries - {k};
        stats := stats.(misses := stats.misses + 1);
        return None;
      }
      stats := stats.(hits := stats.hits + 1);
      entries := entries[k := e.(hits := e.hits + 1)];
      return Some(e.answer);
    }

    // Leaves what Evicted allows: first Purged to the live entries, then thinned
    // to half the bound.
    method EvictLocked()
      modifies this`clock, this`entries, this`stats
      requires Sane(cfg)
      ensures clock >= old(clock)
      ensures Evicted(old(entries), entries, clock, cfg.maxEntries)
      ensures forall k :: k in entries ==> k in old(entries) && entries[k] == old(entries)[k] && clock <= entries[k].expires
      ensures |entries| <= cfg.maxEntries / 2
      ensures |entries| < cfg.maxEntries / 2 ==>
                forall k :: k in old(entries) && clock <= old(entries)[k].expires ==> k in entries
      ensures stats == old(stats).(evictions := old(stats).evictions + |old(entries)| - |entries|)
    {
      hide Purged, Live;
      var now := Now();
      ghost var before := entries;
      var todo := entries.Keys;
      PurgedEnds(before, now);
      while todo != {}
        invariant clock == now && todo <= before.Keys
        invariant entries == Purged(before, todo, now)
        invariant |entries| <= |before|
        invariant stats == old(stats).(evictions := old(stats).evictions + |before| - |entries|)
      {
        var k :| k in todo;
        PurgedOne(before, todo, k, now);
        todo := todo - {k};
        if Expired(entries[k], now) {
          entries := entries - {k};
          stats := stats.(evictions := stats.evictions + 1);
        }
      }
      ghost var live := entries;
      LiveIsPart(before, now);
      var target := cfg.maxEntries / 2;
      todo := entries.Keys;
      while todo != {}
        invariant clock == now && todo == entries.Keys <= live.Keys
        invariant forall k :: k in entries ==> entries[k] == before[k]
        invariant |entries| <= |live| <= |before|
        invariant |entries| == |live| || |entries| >= target
        invariant stats == old(stats).(evictions := old(stats).evictions + |before| - |entries|)
      {
        if |entries| <= target {
          break;
        }
        var k :| k in todo;
        todo := todo - {k};
        ghost var prior := entries;
        entries := entries - {k};
        assert entries.Keys == prior.Keys - {k};
        stats := stats.(evictions := stats.evictions + 1);
      }
      assert |entries.Keys| == |entries|;
      EvictedIs(before, entries, clock, cfg.maxEntries);
    }

    method Put(k: Key, a: Answer)
      modifies this`clock, this`entries, this`stats
      requires Valid()
      ensures Valid() && clock >= old(clock)
      ensures PutLeaves(cfg, old(Snap()), k, a, Snap())
      ensures old(Coherent()) && inner.Tracing? && inner.query(k) == Answered(a) ==> Coherent()
    {
      if a.Empty() {
        stats := stats.(negative := stats.negative + 1);
      }
      ghost var evictedAt := clock;
      if |entries| >= cfg.maxEntries {
        EvictLocked();
        evictedAt := clock;
      }
      ghost var kept := entries;
      var storedAt := Now();
      var observed := Now();
      entries := Stored(entries, cfg, k, a, storedAt, observed);
      StoreIsBounded(old(entries), kept, cfg, k, a, evictedAt, storedAt, observed);
      assert Thinned(cfg, old(Snap()), kept, evictedAt);
    }

    method Claim(k: Key) returns (leader: bool)
      modifies this`waiters, this`stats
      ensures leader <==> k !in old(waiters)
      ensures waiters == old(waiters) + {k}
      ensures stats == if leader then old(stats) else old(stats).(collapsed := old(stats).collapsed + 1)
    {
      if k in waiters {
        stats := stats.(collapsed := stats.collapsed + 1);
        return false;
      }
      waiters := waiters + {k};
      return true;
    }

    method Release(k: Key)
      modifies this`waiters
      ensures waiters == old(waiters) - {k}
    {
      waiters := waiters - {k};
    }

    // One lookup through the cache. Nothing else runs, so nobody holds the
    // question and the caller leads.
    method Query(q: Question) returns (reply: Reply)
      modifies this
      requires Valid() && Coherent()
      ensures Valid() && Coherent()
      ensures reply == Above(inner).query(q)
      ensures Answers(cfg, inner, old(Snap()), q, reply, Snap())
      ensures !reply.Answered? ==> entries == old(entries) || entries == old(entries) - {Question(Normalize(q.name), q.qtype)}
      ensures wire == old(wire) || wire == old(wire) + [Question(Normalize(q.name), q.qtype)]
      ensures inner.Tracing? ==> stats.misses - old(stats).misses == |wire| - |old(wire)|
      ensures inner.Tracing? && reply.Answered? ==> Question(Normalize(q.name), q.qtype) in entries
    {
      hide Normalize, PutLeaves, Answers, Expired;
      ghost var before := Snap();
      if inner.Plain? {
        NeverAsked(cfg, inner, before, q);
        return Failed(CannotTrace());
      }
      var k := Question(Normalize(q.name), q.qtype);
      var hit := Get(k);
      if hit.Some? {
        HitAnswers(cfg, inner, before, q, k, Snap());
        return Answered(hit.value);
      }
      var leader := Claim(k);
      assert leader;
      reply := inner.query(k);
      wire := wire + [k];
      Release(k);
      if !reply.Answered? {
        FailureAnswers(cfg, inner, before, q, k, reply, Snap());
        return;
      }
      ghost var mid := Snap();
      Put(k, reply.answer);
      StoreAnswers(cfg, inner, before, q, k, reply, mid, Snap());
    }

    // The entries worth keeping, in the order the map happens to yield them.
    method Collect(minHits: int, keepExpired: bool, now: int) returns (out: seq<Observation>)
      ensures Lists(out, Kept(entries, minHits, keepExpired, now))
    {
      out := [];
      ghost var kept := Kept(entries, minHits, keepExpired, now);
      var todo := entries.Keys;
      while todo != {}
        invariant todo <= entries.Keys
        invariant Lists(out, map k | k in kept && k !in todo :: kept[k])
      {
        var k :| k in todo;
        ghost var prior, seen := out, map x | x in kept && x !in todo :: kept[x];
        todo := todo - {k};
        var e := entries[k];
        if e.hits >= minHits && (keepExpired || !Expired(e, now)) {
          out := out + [ObservationOf(k, e)];
          ListsAppend(prior, seen, k, e);
          assert seen[k := e] == map x | x in kept && x !in todo :: kept[x];
        } else {
          assert seen == map x | x in kept && x !in todo :: kept[x];
        }
      }
      assert kept == map k | k in kept && k !in todo :: kept[k];
    }

    method WriteTo() returns (out: seq<Observation>, now: int)
      modifies this`clock
      ensures now == clock >= old(clock)
      ensures Lists(out, Kept(entries, 1, false, now))
      ensures forall k :: k in entries && now <= entries[k].expires && entries[k].hits >= 1 ==> ObservationOf(k, entries[k]) in out
      ensures forall p :: p in out ==> p.key in entries && now <= entries[p.key].expires && entries[p.key].hits >= 1 &&
                                       p == ObservationOf(p.key, entries[p.key])
    {
      now := Now();
      out := Collect(1, false, now);
      KeptIsListed(out, entries, 1, false, now);
    }

    method ReadFrom(file: seq<Observation>) returns (now: int)
      modifies this`clock, this`entries
      ensures now == clock >= old(clock)
      ensures entries == Loaded(old(entries), file, now)
      ensures old(Coherent()) && IsTrue(file) ==> Coherent()
    {
      now := Now();
      for i := 0 to |file|
        invariant clock == now && entries == Loaded(old(entries), file[..i], now)
        invariant old(Coherent()) && IsTrue(file) ==> Coherent()
      {
        var p := file[i];
        assert file[..i + 1][..i] == file[..i];
        if !(now > p.expires || p.answer.None?) {
          entries := entries[p.key := Entry(p.answer.value, p.expires, p.hits, p.observed)];
        }
      }
      assert file[..|file|] == file;
    }

    method Export(minHits: int, keepExpired: bool) returns (out: seq<Observation>)
      modifies this`clock
      ensures Lists(out, Kept(entries, minHits, keepExpired, clock)) && Sorted(out)
      ensures forall k :: k in entries && entries[k].hits >= minHits && (keepExpired || clock <= entries[k].expires) ==>
                ObservationOf(k, entries[k]) in out
      ensures forall p :: p in out ==> p.key in entries && entries[p.key].hits >= minHits &&
                                       (keepExpired || clock <= entries[p.key].expires) && p == ObservationOf(p.key, entries[p.key])
    {
      var now := Now();
      out := Collect(minHits, keepExpired, now);
      ghost var m := Kept(entries, minHits, keepExpired, now);
      SortLists(out, m);
      out := SortByKey(out);
      KeptIsListed(out, entries, minHits, keepExpired, now);
    }
  }

  // Part of the way through dropping the expired entries.
  function Purged(before: Entries, todo: set<Key>, now: int): Entries {
    map k | k in before && (k in todo || !Expired(before[k], now)) :: before[k]
  }

  lemma PurgedEnds(before: Entries, now: int)
    ensures Purged(before, before.Keys, now) == before && Purged(before, {}, now) == Live(before, now)
  {
  }

  lemma PurgedOne(before: Entries, todo: set<Key>, k: Key, now: int)
    requires k in todo && todo <= before.Keys
    ensures var p := Purged(before, todo, now);
            && k in p && p[k] == before[k]
            && Purged(before, todo - {k}, now) == (if Expired(before[k], now) then p - {k} else p)
            && |p - {k}| == |p| - 1
  {
    var p := Purged(before, todo, now);
    assert (p - {k}).Keys == p.Keys - {k} && |p - {k}| == |(p - {k}).Keys| && |p| == |p.Keys|;
  }

  // What is left is live and unchanged and fits half the bound; and something live
  // was dropped only for want of room there.
  lemma {:induction false} EvictedIs(before: Entries, after: Entries, now: int, maxEntries: int)
    requires Evicted(before, after, now, maxEntries)
    ensures forall k :: k in after ==> k in before && after[k] == before[k] && now <= after[k].expires
    ensures |after| <= maxEntries / 2
    ensures |after| < maxEntries / 2 ==> forall k :: k in before && now <= before[k].expires ==> k in after
  {
    var live := Live(before, now);
    if |after| < maxEntries / 2 {
      assert |after.Keys| == |live.Keys|;
      SameSize(after.Keys, live.Keys);
    }
  }

  lemma {:induction false} SameSize<T>(a: set<T>, b: set<T>)
    requires a <= b && |a| == |b|
    ensures a == b
  {
    assert b == a + (b - a);
  }

  lemma LiveIsPart(before: Entries, now: int)
    ensures Live(before, now).Keys <= before.Keys && forall k :: k in Live(before, now) ==> Live(before, now)[k] == before[k]
  {
  }

  lemma {:induction false} ListsAppend(out: seq<Observation>, m: Entries, k: Key, e: Entry)
    requires Lists(out, m) && k !in m
    ensures Lists(out + [ObservationOf(k, e)], m[k := e])
  {
    var more := out + [ObservationOf(k, e)];
    KeysOfLast(more);
    assert more[..|out|] == out;
    forall i | 0 <= i < |out|
      ensures more[i].key in m
    {
      assert out[i].key in KeysOf(out);
    }
  }

  // Stands for the standard library's sort.
  function Insert(p: Observation, obs: seq<Observation>): seq<Observation> {
    if obs == [] || KeyBefore(p.key, obs[0].key) then [p] + obs else [obs[0]] + Insert(p, obs[1..])
  }

  function SortByKey(obs: seq<Observation>): seq<Observation> {
    if obs == [] then [] else Insert(obs[0], SortByKey(obs[1..]))
  }

  lemma {:induction false} KeysOfFirst(p: Observation, obs: seq<Observation>)
    ensures KeysOf([p] + obs) == {p.key} + KeysOf(obs)
  {
    var all := [p] + obs;
    forall k | k in KeysOf(obs)
      ensures k in KeysOf(all)
    {
      var i :| 0 <= i < |obs| && obs[i].key == k;
      assert all[i + 1].key == k;
    }
    assert all[0].key in KeysOf(all);
  }

  lemma {:induction false} InsertSorts(p: Observation, obs: seq<Observation>)
    requires Sorted(obs) && p.key !in KeysOf(obs)
    ensures Sorted(Insert(p, obs)) && KeysOf(Insert(p, obs)) == {p.key} + KeysOf(obs)
    ensures multiset(Insert(p, obs)) == multiset{p} + multiset(obs)
  {
    if obs == [] {
      KeysOfFirst(p, obs);
    } else if KeyBefore(p.key, obs[0].key) {
      KeysOfFirst(p, obs);
      forall j | 0 < j < |obs| ensures KeyBefore(p.key, obs[j].key) {
        KeyTransitive(p.key, obs[0].key, obs[j].key);
      }
    } else {
      var rest := obs[1..];
      assert obs == [obs[0]] + rest;
      KeysOfFirst(obs[0], rest);
      InsertSorts(p, rest);
      var tail := Insert(p, rest);
      KeysOfFirst(obs[0], tail);
      KeyOrder(p.key, obs[0].key);
      assert obs[0].key in KeysOf(obs);
      forall j | 0 <= j < |tail| ensures KeyBefore(obs[0].key, tail[j].key) {
        assert tail[j].key in KeysOf(tail);
        if tail[j].key != p.key {
          var i :| 0 <= i < |rest| && rest[i].key == tail[j].key;
          assert obs[i + 1].key == tail[j].key;
        }
      }
    }
  }

  lemma {:induction false} SortLists(obs: seq<Observation>, m: Entries)
    requires Lists(obs, m)
    ensures Lists(SortByKey(obs), m) && Sorted(SortByKey(obs))
  {
    SortSorts(obs);
    var sorted := SortByKey(obs);
    forall i | 0 <= i < |sorted|
      ensures sorted[i].key in m && sorted[i] == ObservationOf(sorted[i].key, m[sorted[i].key])
    {
      assert sorted[i] in multiset(sorted);
      assert sorted[i] in obs;
    }
    forall i, j | 0 <= i < j < |sorted| ensures sorted[i].key != sorted[j].key {
      KeyOrder(sorted[i].key, sorted[j].key);
    }
  }

  lemma {:induction false} SortSorts(obs: seq<Observation>)
    requires forall i, j :: 0 <= i < j < |obs| ==> obs[i].key != obs[j].key
    ensures Sorted(SortByKey(obs)) && KeysOf(SortByKey(obs)) == KeysOf(obs)
    ensures multiset(SortByKey(obs)) == multiset(obs)
  {
    if obs != [] {
      var rest := obs[1..];
      assert obs == [obs[0]] + rest;
      SortSorts(rest);
      KeysOfFirst(obs[0], rest);
      InsertSorts(obs[0], SortByKey(rest));
    }
  }
}

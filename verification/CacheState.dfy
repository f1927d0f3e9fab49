// The entry map of the TTL cache, as functions and relations on values, and
// what saving, reloading and exporting it preserve (dnsx/cache/cache.go).
module CacheState {
  import opened Text
  import opened Dnsx

  type Key = Question

  const SECOND: int := 1_000_000_000
  const MINUTE: int := 60 * SECOND

  // Durations and times are in nanoseconds.
  datatype Config = Config(minTTL: int, maxTTL: int, negativeTTL: int, maxEntries: int)

  function WithDefaults(c: Config): (r: Config)
    ensures Sane(r)
    ensures Sane(c) ==> r == c
  {
    Config(if c.minTTL <= 0 then 60 * SECOND else c.minTTL,
           if c.maxTTL <= 0 then 60 * MINUTE else c.maxTTL,
           if c.negativeTTL <= 0 then 5 * MINUTE else c.negativeTTL,
           if c.maxEntries <= 0 then 200_000 else c.maxEntries)
  }

  // A setting that is not positive gives way to a minute, an hour, five minutes and
  // 200000 entries, in nanoseconds.
  lemma DefaultsFillIn(c: Config)
    ensures var r := WithDefaults(c);
            && r.minTTL == (if c.minTTL > 0 then c.minTTL else 60_000_000_000)
            && r.maxTTL == (if c.maxTTL > 0 then c.maxTTL else 3600_000_000_000)
            && r.negativeTTL == (if c.negativeTTL > 0 then c.negativeTTL else 300_000_000_000)
            && r.maxEntries == (if c.maxEntries > 0 then c.maxEntries else 200_000)
  {
  }

  predicate Sane(c: Config) {
    c.minTTL > 0 && c.maxTTL > 0 && c.negativeTTL > 0 && c.maxEntries > 0
  }

  datatype Entry = Entry(answer: Answer, expires: int, hits: nat, observed: int)

  type Entries = map<Key, Entry>

  datatype Stats = Stats(hits: int, misses: int, negative: int, evictions: int, collapsed: int)

  predicate Expired(e: Entry, now: int) {
    now > e.expires
  }

  // How long an answer is kept: the clamped TTL, or NegativeTTL for a void one.
  function Lifetime(cfg: Config, a: Answer): int {
    if a.Empty() then cfg.negativeTTL
    else
      var ttl := a.ttl * SECOND;
      var floored := if ttl < cfg.minTTL then cfg.minTTL else ttl;
      if floored > cfg.maxTTL then cfg.maxTTL else floored
  }

  function Live(m: Entries, now: int): Entries {
    map k | k in m && !Expired(m[k], now) :: m[k]
  }

  // What an eviction at time now may leave: live entries only, and as many of
  // them as fit in half the bound. Which ones is up to map order.
  predicate Evicted(before: Entries, after: Entries, now: int, maxEntries: int) {
    var live := Live(before, now);
    var target := maxEntries / 2;
    && after.Keys <= live.Keys
    && (forall k :: k in after ==> after[k] == before[k])
    && |after| == if |live| <= target then |live| else target
  }

  function Served(m: Entries, k: Key): Entries
    requires k in m
  {
    m[k := m[k].(hits := m[k].hits + 1)]
  }

  // The entry map once an answer has been stored.
  function Stored(m: Entries, cfg: Config, k: Key, a: Answer, storedAt: int, observed: int): Entries {
    m[k := Entry(a, storedAt + Lifetime(cfg, a), 0, observed)]
  }

  // However full the cache was, storing leaves it within its bound.
  lemma {:induction false} StoreIsBounded(before: Entries, kept: Entries, cfg: Config, k: Key, a: Answer,
                                          evictedAt: int, storedAt: int, observed: int)
    requires Sane(cfg)
    requires if |before| >= cfg.maxEntries then Evicted(before, kept, evictedAt, cfg.maxEntries) else kept == before
    ensures |Stored(kept, cfg, k, a, storedAt, observed)| <= cfg.maxEntries
  {
  }

  // A void answer lives for NegativeTTL, any other for its TTL clamped to the two
  // bounds, MaxTTL winning.
  lemma LifetimeBounds(cfg: Config, a: Answer)
    requires Sane(cfg)
    ensures 0 < Lifetime(cfg, a)
    ensures a.Empty() ==> Lifetime(cfg, a) == cfg.negativeTTL
    ensures !a.Empty() ==> Lifetime(cfg, a) <= cfg.maxTTL
    ensures !a.Empty() && cfg.minTTL <= cfg.maxTTL ==> cfg.minTTL <= Lifetime(cfg, a)
    ensures !a.Empty() && cfg.minTTL <= a.ttl * 1_000_000_000 <= cfg.maxTTL ==> Lifetime(cfg, a) == a.ttl * 1_000_000_000
    ensures !a.Empty() && a.ttl * 1_000_000_000 < cfg.minTTL <= cfg.maxTTL ==> Lifetime(cfg, a) == cfg.minTTL
    ensures !a.Empty() && cfg.maxTTL < a.ttl * 1_000_000_000 ==> Lifetime(cfg, a) == cfg.maxTTL
  {
  }

  // ------------------------------------------------------------- save, load

  datatype Observation = Observation(key: Key, expires: int, observed: int, hits: nat, answer: Option<Answer>)

  function ObservationOf(k: Key, e: Entry): Observation {
    Observation(k, e.expires, e.observed, e.hits, Some(e.answer))
  }

  // The entries served at least minHits times, and live unless asked otherwise.
  function Kept(m: Entries, minHits: int, keepExpired: bool, now: int): Entries {
    map k | k in m && m[k].hits >= minHits && (keepExpired || !Expired(m[k], now)) :: m[k]
  }

  function KeysOf(obs: seq<Observation>): set<Key> {
    set i | 0 <= i < |obs| :: obs[i].key
  }

  // The observations are those of m, each once, in some order.
  ghost predicate Lists(obs: seq<Observation>, m: Entries) {
    && (forall i :: 0 <= i < |obs| ==> obs[i].key in m && obs[i] == ObservationOf(obs[i].key, m[obs[i].key]))
    && (forall i, j :: 0 <= i < j < |obs| ==> obs[i].key != obs[j].key)
    && KeysOf(obs) == m.Keys
  }

  // What a listing of the kept entries holds, entry by entry: those served often
  // enough, and still live unless that is not asked for, as they are.
  lemma {:induction false} KeptIsListed(obs: seq<Observation>, m: Entries, minHits: int, keepExpired: bool, now: int)
    requires Lists(obs, Kept(m, minHits, keepExpired, now))
    ensures forall k :: k in m && m[k].hits >= minHits && (keepExpired || now <= m[k].expires) ==> ObservationOf(k, m[k]) in obs
    ensures forall p :: p in obs ==> p.key in m && m[p.key].hits >= minHits && (keepExpired || now <= m[p.key].expires) &&
                                     p == ObservationOf(p.key, m[p.key])
    ensures forall p :: p in obs ==> p.expires == m[p.key].expires && p.observed == m[p.key].observed &&
                                     p.hits == m[p.key].hits && p.answer == Some(m[p.key].answer)
  {
    forall k | k in m && m[k].hits >= minHits && (keepExpired || now <= m[k].expires) ensures ObservationOf(k, m[k]) in obs {
      assert k in KeysOf(obs);
      var i :| 0 <= i < |obs| && obs[i].key == k;
    }
  }

  function Loaded(m: Entries, obs: seq<Observation>, now: int): Entries {
    if obs == [] then m
    else
      var n := |obs| - 1;
      var rest := Loaded(m, obs[..n], now);
      var p := obs[n];
      if now > p.expires || p.answer.None? then rest
      else rest[p.key := Entry(p.answer.value, p.expires, p.hits, p.observed)]
  }

  predicate IsLive(p: Observation, now: int) {
    now <= p.expires && p.answer.Some?
  }

  // The last line that is for this question, not past its expiry and not without an
  // answer.
  ghost predicate IsLastLine(obs: seq<Observation>, now: int, k: Key, i: int) {
    0 <= i < |obs| && obs[i].key == k && IsLive(obs[i], now) &&
    forall j :: i < j < |obs| && obs[j].key == k ==> !IsLive(obs[j], now)
  }

  // Reading a file gives a question its last live line ...
  lemma {:induction false} LoadedExactly(m: Entries, obs: seq<Observation>, now: int, k: Key, i: nat)
    requires IsLastLine(obs, now, k, i)
    ensures k in Loaded(m, obs, now)
    ensures obs[i].answer.Some? &&
            Loaded(m, obs, now)[k] == Entry(obs[i].answer.value, obs[i].expires, obs[i].hits, obs[i].observed)
    decreases |obs|
  {
    hide Loaded;
    var n := |obs| - 1;
    LineLoaded(m, obs, now);
    if i < n {
      assert obs[..n][i] == obs[i] && forall j :: 0 <= j < n ==> obs[..n][j] == obs[j];
      LoadedExactly(m, obs[..n], now, k, i);
    }
  }

  // ... and leaves what was there for a question without one.
  lemma {:induction false} LoadedLeaves(m: Entries, obs: seq<Observation>, now: int, k: Key)
    requires forall i :: 0 <= i < |obs| && obs[i].key == k ==> !IsLive(obs[i], now)
    ensures k in Loaded(m, obs, now) <==> k in m
    ensures k in m ==> Loaded(m, obs, now)[k] == m[k]
    decreases |obs|
  {
    hide Loaded, IsLive;
    if obs == [] {
      NothingLoaded(m, now);
    } else {
      var n := |obs| - 1;
      assert forall j :: 0 <= j < n ==> obs[..n][j] == obs[j];
      LoadedLeaves(m, obs[..n], now, k);
      LineLoaded(m, obs, now);
    }
  }

  lemma NothingLoaded(m: Entries, now: int)
    ensures Loaded(m, [], now) == m
  {
  }

  lemma LineLoaded(m: Entries, obs: seq<Observation>, now: int)
    requires obs != []
    ensures var p, rest := obs[|obs| - 1], Loaded(m, obs[..|obs| - 1], now);
            && (IsLive(p, now) ==> p.answer.Some? && Loaded(m, obs, now) == rest[p.key := Entry(p.answer.value, p.expires, p.hits, p.observed)])
            && (!IsLive(p, now) ==> Loaded(m, obs, now) == rest)
  {
  }

  lemma {:induction false} LoadedIs(m: Entries, obs: seq<Observation>, now: int)
    requires forall i :: 0 <= i < |obs| ==> obs[i].key in m && obs[i] == ObservationOf(obs[i].key, m[obs[i].key])
    ensures Loaded(map[], obs, now) ==
            map k | k in m && !Expired(m[k], now) && k in KeysOf(obs) :: m[k]
  {
    if obs != [] {
      var n := |obs| - 1;
      LoadedIs(m, obs[..n], now);
      var p := obs[n];
      assert Entry(p.answer.value, p.expires, p.hits, p.observed) == m[p.key];
      KeysOfLast(obs);
    }
  }

  lemma {:induction false} KeysOfLast(obs: seq<Observation>)
    requires obs != []
    ensures KeysOf(obs) == KeysOf(obs[..|obs| - 1]) + {obs[|obs| - 1].key}
  {
  }

  // A file written at t1 and read at t2 restores exactly the entries that were
  // reused at least once and are still live at t2, unchanged in every field;
  // and writing the restored cache at t2 gives what the original would give.
  lemma {:induction false} SaveAndReload(m: Entries, file: seq<Observation>, t1: int, t2: int)
    requires t1 <= t2 && Lists(file, Kept(m, 1, false, t1))
    ensures Loaded(map[], file, t2) == Kept(m, 1, false, t2)
    ensures Kept(Loaded(map[], file, t2), 1, false, t2) == Kept(m, 1, false, t2)
  {
    var saved := Kept(m, 1, false, t1);
    LoadedIs(saved, file, t2);
  }

  function Rank(q: Qtype): nat {
    match q case A => 1 case MX => 15 case TXT => 16
  }

  // Go's order on strings.
  predicate TextBefore(a: string, b: string) {
    if b == "" then false
    else if a == "" then true
    else if a[0] != b[0] then a[0] < b[0]
    else TextBefore(a[1..], b[1..])
  }

  predicate KeyBefore(a: Key, b: Key) {
    if a.name != b.name then TextBefore(a.name, b.name) else Rank(a.qtype) < Rank(b.qtype)
  }

  lemma {:induction false} TextOrder(a: string, b: string)
    ensures a == b || TextBefore(a, b) || TextBefore(b, a)
    ensures !(TextBefore(a, b) && TextBefore(b, a)) && !TextBefore(a, a)
    decreases |a|
  {
    if a != "" {
      TextOrder(a[1..], a[1..]);
      if b != "" {
        TextOrder(a[1..], b[1..]);
        if a[0] == b[0] && a[1..] == b[1..] {
          assert a == [a[0]] + a[1..] && b == [b[0]] + b[1..];
        }
      }
    }
  }

  lemma {:induction false} TextTransitive(a: string, b: string, c: string)
    requires TextBefore(a, b) && TextBefore(b, c)
    ensures TextBefore(a, c)
  {
    if a != "" && a[0] == b[0] == c[0] {
      TextTransitive(a[1..], b[1..], c[1..]);
    }
  }

  lemma {:induction false} KeyOrder(a: Key, b: Key)
    ensures a == b || KeyBefore(a, b) || KeyBefore(b, a)
    ensures !(KeyBefore(a, b) && KeyBefore(b, a)) && !KeyBefore(a, a)
  {
    TextOrder(a.name, b.name);
  }

  lemma {:induction false} KeyTransitive(a: Key, b: Key, c: Key)
    requires KeyBefore(a, b) && KeyBefore(b, c)
    ensures KeyBefore(a, c)
  {
    TextOrder(a.name, b.name);
    TextOrder(b.name, c.name);
    TextOrder(a.name, c.name);
    if a.name != b.name && b.name != c.name {
      TextTransitive(a.name, b.name, c.name);
    }
  }

  // The order is that of the names, byte by byte, a name before its extensions; and
  // for one name A comes before MX and MX before TXT.
  lemma {:induction false} TextBeforeExactly(a: string, b: string)
    ensures TextBefore(a, b) <==> exists i :: FirstDiffers(a, b, i)
  {
    if a != "" && b != "" && a[0] == b[0] {
      TextBeforeExactly(a[1..], b[1..]);
      if TextBefore(a[1..], b[1..]) {
        var i :| FirstDiffers(a[1..], b[1..], i);
        assert a[..i + 1] == [a[0]] + a[1..][..i] && b[..i + 1] == [b[0]] + b[1..][..i];
        assert FirstDiffers(a, b, i + 1);
      }
      if exists i :: FirstDiffers(a, b, i) {
        var i :| FirstDiffers(a, b, i);
        assert i > 0 && a[1..][..i - 1] == a[..i][1..] && b[1..][..i - 1] == b[..i][1..];
        assert FirstDiffers(a[1..], b[1..], i - 1);
      }
    } else if a == "" && b != "" {
      assert FirstDiffers(a, b, 0);
    } else if a != "" && b != "" && a[0] < b[0] {
      assert FirstDiffers(a, b, 0);
    }
  }

  predicate FirstDiffers(a: string, b: string, i: int) {
    0 <= i <= |a| && i < |b| && a[..i] == b[..i] && (i == |a| || a[i] < b[i])
  }

  lemma KeyBeforeExactly(a: Key, b: Key)
    ensures a.name != b.name ==> (KeyBefore(a, b) <==> TextBefore(a.name, b.name))
    ensures a.name == b.name ==> (KeyBefore(a, b) <==> (a.qtype, b.qtype) in {(A, MX), (A, TXT), (MX, TXT)})
  {
    hide TextBefore;
  }

  ghost predicate Sorted(obs: seq<Observation>) {
    forall i, j :: 0 <= i < j < |obs| ==> KeyBefore(obs[i].key, obs[j].key)
  }

  // Two strictly sorted listings of one entry map are the same file, whatever
  // order the map was iterated in.
  lemma {:induction false} SortedListingIsUnique(a: seq<Observation>, b: seq<Observation>, m: Entries)
    requires Lists(a, m) && Lists(b, m) && Sorted(a) && Sorted(b)
    ensures a == b
    decreases |a|
  {
    if a == [] || b == [] {
      assert a != [] ==> a[0].key in KeysOf(a);
      assert b != [] ==> b[0].key in KeysOf(b);
    } else {
      FirstsAgree(a, b, m);
      TailLists(a, m);
      TailLists(b, m);
      SortedListingIsUnique(a[1..], b[1..], m - {a[0].key});
      assert a == [a[0]] + a[1..] && b == [b[0]] + b[1..];
    }
  }

  lemma {:induction false} FirstsAgree(a: seq<Observation>, b: seq<Observation>, m: Entries)
    requires Lists(a, m) && Lists(b, m) && Sorted(a) && Sorted(b) && a != [] && b != []
    ensures a[0] == b[0]
  {
    assert a[0].key in KeysOf(b) && b[0].key in KeysOf(a);
    var i :| 0 <= i < |b| && b[i].key == a[0].key;
    var j :| 0 <= j < |a| && a[j].key == b[0].key;
    KeyOrder(a[0].key, b[0].key);
  }

  lemma {:induction false} TailLists(a: seq<Observation>, m: Entries)
    requires Lists(a, m) && Sorted(a) && a != []
    ensures Lists(a[1..], m - {a[0].key}) && Sorted(a[1..])
  {
  }
}

// The cache under concurrent callers: one step per critical section, any number
// of calls of Query in flight, in any interleaving (dnsx/cache/cache.go).
module SingleFlight {
  import opened Text
  import opened Dnsx
  import opened CacheState

  // One call of Query, and one channel made by claim.
  type Call = nat
  type Channel = nat

  datatype Phase =
    | Looking(key: Key)                                            // about to get
    | Missed(key: Key)                                             // between get and claim
    | Waiting(key: Key, on: Channel)                               // for another caller's lookup
    | Asking(key: Key, own: Channel)                               // leading, with the inner query out
    | Replied(key: Key, own: Channel, reply: Reply)                // leading, the inner query has returned
    | Closing(key: Key, found: Option<Channel>, reply: Reply)      // released under the lock, not yet closed
    | Counting(key: Key, answer: Answer)                           // about to put a void answer: counts it first
    | Putting(key: Key, answer: Answer)                            // about to store

  // A reply the wrapped resolver gave, and an answer served from the cache.
  datatype Exchange = Exchange(key: Key, answer: Answer, at: int)
  datatype Delivery = Delivery(key: Key, answer: Answer, at: int, expires: int)

  // History: what each call asked, what its own lookups came back with, and what it
  // returned. A call that left without a reply was cancelled.
  datatype Lookup = Lookup(call: Call, key: Key, reply: Reply)
  datatype Source = FromMemory(given: Delivery) | FromLookup
  datatype Returned = Returned(call: Call, reply: Reply, source: Source)
  datatype Calls = Calls(entered: map<Call, Key>, lookups: seq<Lookup>, returned: seq<Returned>, cancelled: set<Call>)

  // Stores into a free slot, and entries found expired by a get. Together with the
  // evictions they account for every entry there is.
  datatype Ledger = Ledger(inserted: int, expired: int)

  // Who is doing what, and who waits for whom. leaderOf is history: the call
  // that made each channel.
  datatype Flight = Flight(phases: map<Call, Phase>, waiters: map<Key, Channel>, closed: set<Channel>, next: Channel,
                           leaderOf: map<Channel, Call>)

  datatype State = State(cfg: Config, now: int, entries: Entries, stats: Stats, flight: Flight,
                         started: int, ledger: Ledger, wire: seq<Exchange>, served: seq<Delivery>,
                         calls: Calls)

  datatype Step =
    | Enter(call: Call, key: Key)
    | Get(call: Call, at: int)
    | Claim(call: Call)
    | Wake(call: Call)
    | Cancel(call: Call)
    | Return(call: Call, reply: Reply, at: int)
    | Release(call: Call)
    | Close(call: Call)
    | CountNegative(call: Call)
    | Put(call: Call, evictedAt: int, kept: Entries, storedAt: int, observed: int)

  function Init(cfg: Config): State {
    State(WithDefaults(cfg), 0, map[], Stats(0, 0, 0, 0, 0), Flight(map[], map[], {}, 0, map[]), 0, Ledger(0, 0), [], [],
          Calls(map[], [], [], {}))
  }

  predicate Enabled(s: State, st: Step) {
    var c := st.call;
    if st.Enter? then c !in s.calls.entered && c !in s.flight.phases
    else
      c in s.flight.phases &&
      var p := s.flight.phases[c];
      match st
      case Enter(_, _) => false
      case Get(_, at) => p.Looking? && s.now <= at
      case Claim(_) => p.Missed?
      case Wake(_) => p.Waiting? && p.on in s.flight.closed
      case Cancel(_) => p.Waiting?
      case Return(_, _, at) => p.Asking? && s.now <= at
      case Release(_) => p.Replied?
      case Close(_) => p.Closing?
      case CountNegative(_) => p.Counting?
      case Put(_, evictedAt, kept, storedAt, observed) =>
        && p.Putting? && s.now <= evictedAt <= storedAt <= observed
        && (if |s.entries| >= s.cfg.maxEntries then Evicted(s.entries, kept, evictedAt, s.cfg.maxEntries)
            else kept == s.entries)
  }

  // ------------------------------------------------------------------- steps

  function Moved(f: Flight, c: Call, p: Phase): Flight {
    f.(phases := f.phases[c := p])
  }

  function Ended(f: Flight, c: Call): Flight {
    f.(phases := f.phases - {c})
  }

  predicate Hits(s: State, k: Key, at: int) {
    k in s.entries && !Expired(s.entries[k], at)
  }

  function Claimed(f: Flight, c: Call, k: Key): Flight {
    if k in f.waiters then Moved(f, c, Waiting(k, f.waiters[k]))
    else
      Moved(f, c, Asking(k, f.next)).(waiters := f.waiters[k := f.next], next := f.next + 1,
                                      leaderOf := f.leaderOf[f.next := c])
  }

  function Released(f: Flight, c: Call, k: Key, reply: Reply): Flight {
    Moved(f, c, Closing(k, if k in f.waiters then Some(f.waiters[k]) else None, reply)).(waiters := f.waiters - {k})
  }

  function Closed(f: Flight, c: Call, p: Phase): Flight
    requires p.Closing?
  {
    var f' := if p.found.Some? then f.(closed := f.closed + {p.found.value}) else f;
    if !p.reply.Answered? then Ended(f', c)
    else if p.reply.answer.Empty() then Moved(f', c, Counting(p.key, p.reply.answer))
    else Moved(f', c, Putting(p.key, p.reply.answer))
  }

  // What a step does to the flight.
  function NextFlight(s: State, st: Step): Flight
    requires Enabled(s, st)
  {
    var c, f := st.call, s.flight;
    match st
    case Enter(_, k) => Moved(f, c, Looking(k))
    case Get(_, at) => if Hits(s, f.phases[c].key, at) then Ended(f, c) else Moved(f, c, Missed(f.phases[c].key))
    case Claim(_) => Claimed(f, c, f.phases[c].key)
    case Wake(_) => Moved(f, c, Looking(f.phases[c].key))
    case Cancel(_) => Ended(f, c)
    case Return(_, reply, _) => Moved(f, c, Replied(f.phases[c].key, f.phases[c].own, reply))
    case Release(_) => Released(f, c, f.phases[c].key, f.phases[c].reply)
    case Close(_) => Closed(f, c, f.phases[c])
    case CountNegative(_) => Moved(f, c, Putting(f.phases[c].key, f.phases[c].answer))
    case Put(_, _, _, _, _) => Ended(f, c)
  }

  // What a step adds to the history of the calls.
  function NextCalls(s: State, st: Step): Calls
    requires Enabled(s, st)
  {
    var c, h := st.call, s.calls;
    match st
    case Enter(_, k) => h.(entered := h.entered[c := k])
    case Get(_, at) =>
      var k := s.flight.phases[c].key;
      if Hits(s, k, at) then
        h.(returned := h.returned + [Returned(c, Answered(s.entries[k].answer),
                                              FromMemory(Delivery(k, s.entries[k].answer, at, s.entries[k].expires)))])
      else h
    case Cancel(_) => h.(cancelled := h.cancelled + {c})
    case Return(_, reply, _) => h.(lookups := h.lookups + [Lookup(c, s.flight.phases[c].key, reply)])
    case Close(_) =>
      if s.flight.phases[c].reply.Answered? then h
      else h.(returned := h.returned + [Returned(c, s.flight.phases[c].reply, FromLookup)])
    case Put(_, _, _, _, _) =>
      h.(returned := h.returned + [Returned(c, Answered(s.flight.phases[c].answer), FromLookup)])
    case _ => h
  }

  function Next(s: State, st: Step): State
    requires Enabled(s, st)
  {
    var c, f, h := st.call, NextFlight(s, st), NextCalls(s, st);
    match st
    case Get(_, at) =>
      var k := s.flight.phases[c].key;
      if Hits(s, k, at) then
        s.(flight := f, calls := h, now := at, entries := Served(s.entries, k), stats := s.stats.(hits := s.stats.hits + 1),
           served := s.served + [Delivery(k, s.entries[k].answer, at, s.entries[k].expires)])
      else
        s.(flight := f, calls := h, now := at, entries := s.entries - {k}, stats := s.stats.(misses := s.stats.misses + 1),
           ledger := if k in s.entries then s.ledger.(expired := s.ledger.expired + 1) else s.ledger)
    case Claim(_) =>
      if s.flight.phases[c].key in s.flight.waiters then
        s.(flight := f, calls := h, stats := s.stats.(collapsed := s.stats.collapsed + 1))
      else s.(flight := f, calls := h, started := s.started + 1)
    case Return(_, reply, at) =>
      s.(flight := f, calls := h, now := at,
         wire := if reply.Answered? then s.wire + [Exchange(s.flight.phases[c].key, reply.answer, at)] else s.wire)
    case CountNegative(_) =>
      s.(flight := f, calls := h, stats := s.stats.(negative := s.stats.negative + 1))
    case Put(_, _, kept, storedAt, observed) =>
      var p := s.flight.phases[c];
      s.(flight := f, calls := h, now := observed, entries := Stored(kept, s.cfg, p.key, p.answer, storedAt, observed),
         stats := s.stats.(evictions := s.stats.evictions + |s.entries| - |kept|),
         ledger := if p.key in kept then s.ledger else s.ledger.(inserted := s.ledger.inserted + 1))
    case _ => s.(flight := f, calls := h)
  }

  // ------------------------------------------------------------- leadership

  // The call still owes the channel a close.
  predicate Holds(p: Phase, k: Key, ch: Channel) {
    (p.Asking? && p.key == k && p.own == ch) || (p.Replied? && p.key == k && p.own == ch) ||
    (p.Closing? && p.key == k && p.found == Some(ch))
  }

  // The call leads: its lookup is between claim and release.
  predicate Leads(p: Phase, k: Key) {
    (p.Asking? || p.Replied?) && p.key == k
  }

  predicate Bystander(p: Phase) {
    !p.Asking? && !p.Replied? && !p.Closing?
  }

  ghost predicate LeaderOk(f: Flight, c: Call, p: Phase) {
    (p.Asking? || p.Replied?) ==>
      p.key in f.waiters && f.waiters[p.key] == p.own && p.own in f.leaderOf && f.leaderOf[p.own] == c && p.own !in f.closed
  }

  ghost predicate CloserOk(f: Flight, c: Call, p: Phase) {
    p.Closing? ==>
      p.found.Some? && p.found.value in f.leaderOf && f.leaderOf[p.found.value] == c && p.found.value !in f.closed
  }

  ghost predicate WaitingOk(f: Flight, p: Phase) {
    p.Waiting? ==>
      (p.on in f.closed || (p.on in f.leaderOf && f.leaderOf[p.on] in f.phases && Holds(f.phases[f.leaderOf[p.on]], p.key, p.on)))
  }

  ghost predicate CallOk(f: Flight, c: Call) {
    c in f.phases ==> LeaderOk(f, c, f.phases[c]) && CloserOk(f, c, f.phases[c]) && WaitingOk(f, f.phases[c])
  }

  ghost predicate WaiterOk(f: Flight, k: Key) {
    k in f.waiters ==>
      var ch := f.waiters[k];
      ch in f.leaderOf && f.leaderOf[ch] in f.phases && Leads(f.phases[f.leaderOf[ch]], k) &&
      f.phases[f.leaderOf[ch]].own == ch
  }

  ghost predicate Leadership(f: Flight) {
    && (forall c :: CallOk(f, c))
    && (forall k :: WaiterOk(f, k))
    && (forall ch :: ch in f.leaderOf || ch in f.closed ==> ch < f.next)
  }

  // A call that owes nothing may go on to anything that owes nothing.
  lemma {:induction false} BystanderMoves(f: Flight, c: Call, p: Phase)
    requires Leadership(f) && (c in f.phases ==> Bystander(f.phases[c])) && Bystander(p) && !p.Waiting?
    ensures Leadership(Moved(f, c, p)) && Leadership(Ended(f, c))
  {
    forall f' | f' == Moved(f, c, p) || f' == Ended(f, c) ensures Leadership(f') {
      forall d ensures CallOk(f', d) {
        assert CallOk(f, d);
      }
      forall k ensures WaiterOk(f', k) {
        assert WaiterOk(f, k);
      }
    }
  }

  lemma {:induction false} ClaimKeepsLeadership(f: Flight, c: Call, k: Key)
    requires Leadership(f) && c in f.phases && f.phases[c] == Missed(k)
    ensures Leadership(Claimed(f, c, k))
  {
    var f' := Claimed(f, c, k);
    assert WaiterOk(f, k);
    forall d ensures CallOk(f', d) {
      assert CallOk(f, d);
    }
    forall x ensures WaiterOk(f', x) {
      assert WaiterOk(f, x);
    }
  }

  lemma {:induction false} ReturnKeepsLeadership(f: Flight, c: Call, reply: Reply)
    requires Leadership(f) && c in f.phases && f.phases[c].Asking?
    ensures Leadership(Moved(f, c, Replied(f.phases[c].key, f.phases[c].own, reply)))
  {
    var f' := Moved(f, c, Replied(f.phases[c].key, f.phases[c].own, reply));
    forall d ensures CallOk(f', d) {
      assert CallOk(f, d);
    }
    forall x ensures WaiterOk(f', x) {
      assert WaiterOk(f, x);
    }
  }

  lemma {:induction false} ReleaseKeepsLeadership(f: Flight, c: Call)
    requires Leadership(f) && c in f.phases && f.phases[c].Replied?
    ensures Leadership(Released(f, c, f.phases[c].key, f.phases[c].reply))
  {
    var k := f.phases[c].key;
    var f' := Released(f, c, k, f.phases[c].reply);
    assert CallOk(f, c);
    forall d ensures CallOk(f', d) {
      assert CallOk(f, d);
    }
    forall x ensures WaiterOk(f', x) {
      assert WaiterOk(f, x);
    }
  }

  lemma {:induction false} CloseKeepsLeadership(f: Flight, c: Call)
    requires Leadership(f) && c in f.phases && f.phases[c].Closing?
    ensures Leadership(Closed(f, c, f.phases[c]))
  {
    var f' := Closed(f, c, f.phases[c]);
    assert CallOk(f, c);
    forall d ensures CallOk(f', d) {
      assert CallOk(f, d);
    }
    forall x ensures WaiterOk(f', x) {
      assert WaiterOk(f, x);
    }
  }

  lemma {:induction false} NextKeepsLeadership(s: State, st: Step)
    requires Leadership(s.flight) && Enabled(s, st)
    ensures Leadership(Next(s, st).flight)
  {
    hide Leadership, Moved, Ended, Claimed, Released, Closed, Evicted, Hits;
    var c, f := st.call, s.flight;
    match st
    case Claim(_) => ClaimKeepsLeadership(f, c, f.phases[c].key);
    case Return(_, reply, _) => ReturnKeepsLeadership(f, c, reply);
    case Release(_) => ReleaseKeepsLeadership(f, c);
    case Close(_) => CloseKeepsLeadership(f, c);
    case Enter(_, k) => BystanderMoves(f, c, Looking(k));
    case Get(_, _) => BystanderMoves(f, c, Missed(f.phases[c].key));
    case Wake(_) => BystanderMoves(f, c, Looking(f.phases[c].key));
    case Cancel(_) => BystanderMoves(f, c, Looking(f.phases[c].key));
    case CountNegative(_) => BystanderMoves(f, c, Putting(f.phases[c].key, f.phases[c].answer));
    case Put(_, _, _, _, _) => BystanderMoves(f, c, Looking(f.phases[c].key));
  }

  // -------------------------------------------------------------- accounting

  // The calls between get and claim.
  function Undecided(f: Flight): set<Call> {
    set c | c in f.phases && f.phases[c].Missed?
  }

  ghost predicate Accounting(s: State) {
    && s.stats.misses == s.started + s.stats.collapsed + |Undecided(s.flight)|
    && s.stats.hits == |s.served|
    && |s.entries| + s.stats.evictions + s.ledger.expired == s.ledger.inserted
    && Sane(s.cfg) && |s.entries| <= s.cfg.maxEntries
  }

  // Only the phase of c differs.
  ghost predicate MovesOnly(f: Flight, f': Flight, c: Call) {
    f'.phases - {c} == f.phases - {c}
  }

  lemma MovedOnly(f: Flight, c: Call, p: Phase)
    ensures MovesOnly(f, Moved(f, c, p), c) && MovesOnly(f, Ended(f, c), c)
  {
  }

  lemma ClosedOnly(f: Flight, c: Call, p: Phase)
    requires p.Closing?
    ensures MovesOnly(f, Closed(f, c, p), c)
  {
    hide Moved, Ended, MovesOnly;
    var f' := if p.found.Some? then f.(closed := f.closed + {p.found.value}) else f;
    if p.reply.Answered? {
      MovedOnly(f', c, Counting(p.key, p.reply.answer));
      MovedOnly(f', c, Putting(p.key, p.reply.answer));
    } else {
      MovedOnly(f', c, p);
    }
    assert MovesOnly(f, f', c) && f'.phases == f.phases by {
      SamePhases(f, f', c);
    }
    SamePhasesMove(f, f', Closed(f, c, p), c);
  }

  lemma SamePhases(f: Flight, f': Flight, c: Call)
    requires f'.phases == f.phases
    ensures MovesOnly(f, f', c)
  {
  }

  lemma SamePhasesMove(f: Flight, f': Flight, g: Flight, c: Call)
    requires f'.phases == f.phases && MovesOnly(f', g, c)
    ensures MovesOnly(f, g, c)
  {
  }

  lemma MovesOnlyOne(f: Flight, c: Call, p: Phase, k: Key, reply: Reply)
    ensures MovesOnly(f, Moved(f, c, p), c) && MovesOnly(f, Ended(f, c), c)
    ensures MovesOnly(f, Claimed(f, c, k), c) && MovesOnly(f, Released(f, c, k, reply), c)
    ensures p.Closing? ==> MovesOnly(f, Closed(f, c, p), c)
  {
    hide Closed;
    MovedOnly(f, c, p);
    MovedOnly(f, c, Asking(k, f.next));
    MovedOnly(f, c, Closing(k, if k in f.waiters then Some(f.waiters[k]) else None, reply));
    if k in f.waiters {
      MovedOnly(f, c, Waiting(k, f.waiters[k]));
    }
    if p.Closing? {
      ClosedOnly(f, c, p);
    }
  }

  lemma OthersStay(s: State, st: Step, c: Call)
    requires Enabled(s, st) && c != st.call
    ensures c in NextFlight(s, st).phases <==> c in s.flight.phases
    ensures c in s.flight.phases ==> NextFlight(s, st).phases[c] == s.flight.phases[c]
  {
    hide Evicted, Hits, Moved, Ended, Claimed, Released, Closed;
    var d, f, f' := st.call, s.flight, NextFlight(s, st);
    var p := if d in f.phases then f.phases[d] else Looking(if st.Enter? then st.key else Question("", A));
    match st {
      case Enter(_, k) => MovesOnlyOne(f, d, Looking(k), k, Missing);
      case Get(_, _) => MovesOnlyOne(f, d, Missed(p.key), p.key, Missing);
      case Claim(_) => MovesOnlyOne(f, d, p, p.key, Missing);
      case Wake(_) => MovesOnlyOne(f, d, Looking(p.key), p.key, Missing);
      case Cancel(_) => MovesOnlyOne(f, d, p, p.key, Missing);
      case Return(_, reply, _) => MovesOnlyOne(f, d, Replied(p.key, p.own, reply), p.key, reply);
      case Release(_) => MovesOnlyOne(f, d, p, p.key, p.reply);
      case Close(_) => MovesOnlyOne(f, d, p, p.key, p.reply);
      case CountNegative(_) => MovesOnlyOne(f, d, Putting(p.key, p.answer), p.key, Missing);
      case Put(_, _, _, _, _) => MovesOnlyOne(f, d, p, p.key, Missing);
    }
    assert MovesOnly(f, f', d);
    assert c in f'.phases <==> c in f'.phases - {d};
    assert c in f.phases <==> c in f.phases - {d};
    if c in f.phases {
      assert (f'.phases - {d})[c] == (f.phases - {d})[c];
    }
  }

  lemma MissedNext(s: State, st: Step)
    requires Enabled(s, st)
    ensures var f := NextFlight(s, st); var c := st.call;
            c in f.phases && f.phases[c].Missed? <==> st.Get? && !Hits(s, s.flight.phases[c].key, st.at)
    ensures st.call in s.flight.phases && s.flight.phases[st.call].Missed? <==> st.Claim?
  {
    hide Evicted, Hits;
  }

  lemma UndecidedMoves(s: State, st: Step)
    requires Enabled(s, st)
    ensures var u, u' := Undecided(s.flight), Undecided(NextFlight(s, st));
            u' == if st.Claim? then u - {st.call}
                  else if st.Get? && !Hits(s, s.flight.phases[st.call].key, st.at) then u + {st.call}
                  else u
    ensures st.Claim? ==> st.call in Undecided(s.flight)
    ensures st.Get? ==> st.call !in Undecided(s.flight)
  {
    hide NextFlight, Enabled, Hits;
    MissedNext(s, st);
    assert st.Get? ==> st.call in s.flight.phases by {
      GetIsInFlight(s, st);
    }
    forall c ensures c in Undecided(NextFlight(s, st)) <==>
                     (c in Undecided(s.flight) && c != st.call) ||
                     (c == st.call && st.Get? && !Hits(s, s.flight.phases[st.call].key, st.at))
    {
      if c != st.call {
        OthersStay(s, st, c);
      }
    }
  }

  lemma GetIsInFlight(s: State, st: Step)
    requires Enabled(s, st)
    ensures st.Enter? || st.call in s.flight.phases
  {
    hide Evicted;
  }

  lemma {:induction false} NextKeepsAccounting(s: State, st: Step)
    requires Accounting(s) && Enabled(s, st)
    ensures Accounting(Next(s, st))
  {
    hide NextFlight, NextCalls, Undecided, Evicted, Hits, Lifetime, Stored, Served, Next, Enabled;
    UndecidedMoves(s, st);
    NextParts(s, st);
    OneMoreOrLess(Undecided(s.flight), st.call);
    CountersMove(s, st);
    EntriesMove(s, st);
  }

  // What a step does to the counters of misses, lookups and hits.
  lemma CountersMove(s: State, st: Step)
    requires Enabled(s, st)
    ensures var s' := Next(s, st); var hit := st.Get? && Hits(s, s.flight.phases[st.call].key, st.at);
            && s'.stats.misses == s.stats.misses + (if st.Get? && !hit then 1 else 0)
            && s'.stats.hits == s.stats.hits + (if hit then 1 else 0)
            && |s'.served| == |s.served| + (if hit then 1 else 0)
            && s'.started + s'.stats.collapsed == s.started + s.stats.collapsed + (if st.Claim? then 1 else 0)
            && s'.cfg == s.cfg
  {
    hide NextFlight, NextCalls, Evicted, Hits, Stored, Served;
  }

  // And to the number of entries and what accounts for it.
  lemma {:induction false} EntriesMove(s: State, st: Step)
    requires Enabled(s, st) && Sane(s.cfg) && |s.entries| <= s.cfg.maxEntries
    ensures var s' := Next(s, st);
            && |s'.entries| + s'.stats.evictions + s'.ledger.expired - s'.ledger.inserted
               == |s.entries| + s.stats.evictions + s.ledger.expired - s.ledger.inserted
            && |s'.entries| <= s.cfg.maxEntries
  {
    hide NextFlight, NextCalls, Evicted, Hits, Lifetime, Stored, Served;
    if st.Put? {
      var p := s.flight.phases[st.call];
      StoreIsBounded(s.entries, st.kept, s.cfg, p.key, p.answer, st.evictedAt, st.storedAt, st.observed);
      StoredSize(st.kept, s.cfg, p.key, p.answer, st.storedAt, st.observed);
    } else if st.Get? {
      var k := s.flight.phases[st.call].key;
      if Hits(s, k, st.at) {
        ServedKeys(s.entries, k, s, st.at);
      } else {
        RemovedSize(s.entries, k);
      }
    }
  }

  lemma StoredSize(kept: Entries, cfg: Config, k: Key, a: Answer, storedAt: int, observed: int)
    ensures |Stored(kept, cfg, k, a, storedAt, observed)| == |kept| + if k in kept then 0 else 1
  {
    hide Lifetime;
    var after := Stored(kept, cfg, k, a, storedAt, observed);
    assert after.Keys == kept.Keys + {k} && |after| == |after.Keys| && |kept| == |kept.Keys|;
  }

  lemma RemovedSize(m: Entries, k: Key)
    ensures |m - {k}| == |m| - if k in m then 1 else 0
  {
    assert (m - {k}).Keys == m.Keys - {k} && |m - {k}| == |(m - {k}).Keys| && |m| == |m.Keys|;
  }

  lemma ServedKeys(m: Entries, k: Key, s: State, at: int)
    requires m == s.entries && Hits(s, k, at)
    ensures k in m && |Served(m, k)| == |m|
  {
  }

  // -------------------------------------------------------------- provenance

  // The answer was given for that very key, and stored no earlier than that
  // with exactly the lifetime due to it.
  predicate Backs(x: Exchange, cfg: Config, k: Key, a: Answer, expires: int, seenBy: int) {
    x.key == k && x.answer == a && x.at <= expires - Lifetime(cfg, a) <= seenBy
  }

  ghost predicate Backed(wire: seq<Exchange>, cfg: Config, k: Key, a: Answer, expires: int, seenBy: int) {
    exists i :: 0 <= i < |wire| && Backs(wire[i], cfg, k, a, expires, seenBy)
  }

  ghost predicate Given(wire: seq<Exchange>, k: Key, a: Answer, now: int) {
    exists i :: 0 <= i < |wire| && wire[i].key == k && wire[i].answer == a && wire[i].at <= now
  }

  // The reply a call has in hand and is to return, if it has one.
  predicate InHand(p: Phase, r: Reply) {
    (p.Replied? && p.reply == r) || (p.Closing? && p.reply == r) ||
    (p.Counting? && Answered(p.answer) == r) || (p.Putting? && Answered(p.answer) == r)
  }

  ghost predicate EntryOk(s: State, k: Key) {
    k in s.entries ==>
      var e := s.entries[k];
      e.observed <= s.now && Backed(s.wire, s.cfg, k, e.answer, e.expires, e.observed)
  }

  ghost predicate DeliveryOk(s: State, d: Delivery) {
    d.at <= d.expires && d.at <= s.now && Backed(s.wire, s.cfg, d.key, d.answer, d.expires, d.at)
  }

  ghost predicate HandOk(s: State, c: Call) {
    c in s.flight.phases ==>
      forall a :: InHand(s.flight.phases[c], Answered(a)) ==> Given(s.wire, s.flight.phases[c].key, a, s.now)
  }

  ghost predicate Provenance(s: State) {
    && (forall k :: EntryOk(s, k))
    && (forall d :: d in s.served ==> DeliveryOk(s, d))
    && (forall c :: HandOk(s, c))
  }

  lemma BackedLater(wire: seq<Exchange>, more: seq<Exchange>, cfg: Config, k: Key, a: Answer, expires: int, seenBy: int, later: int)
    requires Backed(wire, cfg, k, a, expires, seenBy) && seenBy <= later && wire <= more
    ensures Backed(more, cfg, k, a, expires, later)
  {
    hide Lifetime;
  }

  lemma GivenLater(wire: seq<Exchange>, more: seq<Exchange>, k: Key, a: Answer, now: int, later: int)
    requires Given(wire, k, a, now) && now <= later && wire <= more
    ensures Given(more, k, a, later)
  {
  }

  lemma GivenIsBacked(wire: seq<Exchange>, cfg: Config, k: Key, a: Answer, now: int, storedAt: int, observed: int)
    requires Given(wire, k, a, now) && now <= storedAt <= observed
    ensures Backed(wire, cfg, k, a, storedAt + Lifetime(cfg, a), observed)
  {
    hide Lifetime;
  }

  // Time passes and replies accumulate.
  lemma NextGrows(s: State, st: Step)
    requires Enabled(s, st)
    ensures s.now <= Next(s, st).now && s.wire <= Next(s, st).wire && Next(s, st).cfg == s.cfg
  {
    hide NextFlight, Hits, Evicted, Stored, Served;
  }

  // Where an entry of the next state comes from.
  lemma NextEntry(s: State, st: Step, k: Key)
    requires Enabled(s, st) && k in Next(s, st).entries
    ensures var e := Next(s, st).entries[k];
            (k in s.entries && e.answer == s.entries[k].answer && e.expires == s.entries[k].expires &&
             e.observed == s.entries[k].observed)
            || (st.Put? && k == s.flight.phases[st.call].key && e.answer == s.flight.phases[st.call].answer &&
                e.expires == st.storedAt + Lifetime(s.cfg, e.answer) && e.observed == st.observed)
  {
    hide NextFlight, Lifetime;
  }

  lemma {:induction false} NextKeepsEntries(s: State, st: Step, k: Key)
    requires Provenance(s) && Enabled(s, st)
    ensures EntryOk(Next(s, st), k)
  {
    hide Next, Backed, Given, InHand, Lifetime, Evicted;
    var s' := Next(s, st);
    if k in s'.entries {
      NextGrows(s, st);
      NextEntry(s, st, k);
      var e := s'.entries[k];
      assert EntryOk(s, k);
      if k in s.entries && e.answer == s.entries[k].answer && e.expires == s.entries[k].expires &&
         e.observed == s.entries[k].observed {
        BackedLater(s.wire, s'.wire, s.cfg, k, e.answer, e.expires, e.observed, e.observed);
      } else {
        PutIsBacked(s, st);
      }
    }
  }

  lemma PutIsBacked(s: State, st: Step)
    requires Provenance(s) && Enabled(s, st) && st.Put?
    ensures var p := s.flight.phases[st.call]; var s' := Next(s, st);
            s'.now == st.observed &&
            Backed(s'.wire, s.cfg, p.key, p.answer, st.storedAt + Lifetime(s.cfg, p.answer), st.observed)
  {
    hide Lifetime, Evicted, Stored, NextFlight, Backed, Given;
    var p := s.flight.phases[st.call];
    assert HandOk(s, st.call) && InHand(p, Answered(p.answer));
    GivenIsBacked(s.wire, s.cfg, p.key, p.answer, s.now, st.storedAt, st.observed);
  }

  lemma {:induction false} NextKeepsDeliveries(s: State, st: Step, d: Delivery)
    requires Provenance(s) && Enabled(s, st) && d in Next(s, st).served
    ensures DeliveryOk(Next(s, st), d)
  {
    hide NextFlight, Backed, Given, InHand, Lifetime, Evicted, Stored, Served;
    var s' := Next(s, st);
    NextGrows(s, st);
    if d in s.served {
      BackedLater(s.wire, s'.wire, s.cfg, d.key, d.answer, d.expires, d.at, d.at);
    } else {
      assert EntryOk(s, d.key);
      BackedLater(s.wire, s'.wire, s.cfg, d.key, d.answer, d.expires, s.entries[d.key].observed, d.at);
    }
  }

  // What a call has in hand it already had, unless it has just been given it.
  lemma NextHand(s: State, st: Step, c: Call, r: Reply)
    requires Enabled(s, st) && c in NextFlight(s, st).phases && InHand(NextFlight(s, st).phases[c], r)
    ensures var p := NextFlight(s, st).phases[c];
            (c in s.flight.phases && InHand(s.flight.phases[c], r) && s.flight.phases[c].key == p.key)
            || (st.Return? && st.call == c && st.reply == r && p.key == s.flight.phases[c].key)
  {
    if c != st.call {
      OthersStay(s, st, c);
    } else if st.Close? {
      CloseHand(s.flight, c, r);
    } else {
      hide Evicted, Hits, Claimed, Closed;
      assert st.Return? || st.Release? || st.CountNegative? by {
        MovesHand(s, st, r);
      }
    }
  }

  lemma CloseHand(f: Flight, c: Call, r: Reply)
    requires c in f.phases && f.phases[c].Closing?
    requires c in Closed(f, c, f.phases[c]).phases && InHand(Closed(f, c, f.phases[c]).phases[c], r)
    ensures InHand(f.phases[c], r) && Closed(f, c, f.phases[c]).phases[c].key == f.phases[c].key
  {
  }

  lemma MovesHand(s: State, st: Step, r: Reply)
    requires Enabled(s, st) && !st.Close? && st.call in NextFlight(s, st).phases
    requires InHand(NextFlight(s, st).phases[st.call], r)
    ensures st.Return? || st.Release? || st.CountNegative?
  {
    hide Evicted, Hits;
  }

  lemma {:induction false} NextKeepsHands(s: State, st: Step, c: Call)
    requires Provenance(s) && Enabled(s, st)
    ensures HandOk(Next(s, st), c)
  {
    hide NextFlight, InHand, Given, Evicted, Hits, Stored, Served;
    var s' := Next(s, st);
    NextGrows(s, st);
    assert s'.flight == NextFlight(s, st);
    assert HandOk(s, c);
    if c in s'.flight.phases {
      forall a | InHand(s'.flight.phases[c], Answered(a)) ensures Given(s'.wire, s'.flight.phases[c].key, a, s'.now) {
        NextHand(s, st, c, Answered(a));
        if c in s.flight.phases && InHand(s.flight.phases[c], Answered(a)) && s.flight.phases[c].key == s'.flight.phases[c].key {
          GivenLater(s.wire, s'.wire, s'.flight.phases[c].key, a, s.now, s'.now);
        } else {
          GivenNow(s.wire, s.flight.phases[c].key, a, s'.now);
        }
      }
    }
  }

  lemma GivenNow(wire: seq<Exchange>, k: Key, a: Answer, now: int)
    ensures Given(wire + [Exchange(k, a, now)], k, a, now)
  {
    var more := wire + [Exchange(k, a, now)];
    assert more[|wire|] == Exchange(k, a, now);
  }

  // ----------------------------------------------------------- conversations

  ghost predicate Looked(h: Calls, c: Call, k: Key, r: Reply) {
    Lookup(c, k, r) in h.lookups
  }

  predicate HasReturned(h: Calls, c: Call) {
    exists i :: 0 <= i < |h.returned| && h.returned[i].call == c
  }

  // A call is under way, was cancelled, or has returned, and only one of these; under
  // way it still asks what it came for, and has in hand only what its own lookup of
  // that came back with.
  ghost predicate CallIsKept(s: State, c: Call) {
    var h := s.calls;
    && (c in h.entered <==> c in s.flight.phases || c in h.cancelled || HasReturned(h, c))
    && !(c in s.flight.phases && c in h.cancelled)
    && !(c in s.flight.phases && HasReturned(h, c))
    && !(c in h.cancelled && HasReturned(h, c))
    && (c in s.flight.phases ==>
          s.flight.phases[c].key == h.entered[c] &&
          forall r :: InHand(s.flight.phases[c], r) ==> Looked(h, c, h.entered[c], r))
  }

  // A reply returned was served from memory, for the key the call came for and no
  // later than the entry's expiry, or is what the call's own lookup of it gave.
  ghost predicate ReturnOk(s: State, x: Returned) {
    x.call in s.calls.entered &&
    match x.source
    case FromMemory(d) =>
      d in s.served && d.key == s.calls.entered[x.call] && x.reply == Answered(d.answer) && d.at <= d.expires
    case FromLookup => Looked(s.calls, x.call, s.calls.entered[x.call], x.reply)
  }

  ghost predicate Conversations(s: State) {
    && (forall c :: CallIsKept(s, c))
    && (forall x :: x in s.calls.returned ==> ReturnOk(s, x))
    && (forall i, j :: 0 <= i < j < |s.calls.returned| ==> s.calls.returned[i].call != s.calls.returned[j].call)
  }

  // A step takes a call out of flight only when the call is answered from memory,
  // is cancelled, has failed and closed, or has stored its answer.
  predicate Leaves(s: State, st: Step)
    requires Enabled(s, st)
  {
    match st
    case Get(c, at) => Hits(s, s.flight.phases[c].key, at)
    case Cancel(_) => true
    case Close(c) => !s.flight.phases[c].reply.Answered?
    case Put(_, _, _, _, _) => true
    case _ => false
  }

  lemma LeavesExactly(s: State, st: Step)
    requires Enabled(s, st)
    ensures st.call !in NextFlight(s, st).phases <==> Leaves(s, st)
  {
    hide Evicted, Hits;
  }

  // A call under way asks for one key throughout.
  lemma KeyStays(s: State, st: Step)
    requires Enabled(s, st) && st.call in NextFlight(s, st).phases
    ensures NextFlight(s, st).phases[st.call].key == if st.Enter? then st.key else s.flight.phases[st.call].key
  {
    hide Evicted, Hits;
  }

  // What a step adds: at most one reply, by the call that leaves with it.
  lemma CallsGrow(s: State, st: Step)
    requires Enabled(s, st)
    ensures var h, h' := s.calls, NextCalls(s, st); var c := st.call;
            && h'.entered == (if st.Enter? then h.entered[c := st.key] else h.entered)
            && h.lookups <= h'.lookups
            && h'.cancelled == (if st.Cancel? then h.cancelled + {c} else h.cancelled)
            && h.returned <= h'.returned
            && |h'.returned| == |h.returned| + (if Leaves(s, st) && !st.Cancel? then 1 else 0)
            && (Leaves(s, st) && !st.Cancel? ==> h'.returned[|h.returned|].call == c)
  {
    hide Evicted, Hits;
  }

  lemma ReturnedNow(h: Calls, h': Calls, c: Call, d: Call, one: bool)
    requires h.returned <= h'.returned && |h'.returned| == |h.returned| + if one then 1 else 0
    requires one ==> h'.returned[|h.returned|].call == c
    ensures HasReturned(h', d) <==> HasReturned(h, d) || (one && d == c)
  {
    if HasReturned(h, d) {
      var i :| 0 <= i < |h.returned| && h.returned[i].call == d;
      assert h'.returned[i].call == d;
    }
  }

  lemma {:induction false} NextKeepsCall(s: State, st: Step, c: Call)
    requires Conversations(s) && Enabled(s, st)
    ensures CallIsKept(Next(s, st), c)
  {
    hide NextFlight, NextCalls, Leaves, InHand, Enabled, Hits, Evicted, HasReturned, Stored, Served;
    var h' := NextCalls(s, st);
    NextParts(s, st);
    CallsGrow(s, st);
    LeavesExactly(s, st);
    EnteredFirst(s, st);
    ReturnedNow(s.calls, h', st.call, c, Leaves(s, st) && !st.Cancel?);
    assert CallIsKept(s, c);
    if c != st.call {
      OthersStay(s, st, c);
    } else if c in NextFlight(s, st).phases {
      KeyStays(s, st);
      forall r | InHand(NextFlight(s, st).phases[c], r) ensures Looked(h', c, h'.entered[c], r) {
        NextHand(s, st, c, r);
        if st.Return? {
          LookupIsNoted(s, st);
        }
      }
    }
  }

  lemma NextParts(s: State, st: Step)
    requires Enabled(s, st)
    ensures Next(s, st).flight == NextFlight(s, st) && Next(s, st).calls == NextCalls(s, st) && s.served <= Next(s, st).served
  {
    hide NextFlight, NextCalls, Hits, Evicted, Stored, Served;
  }

  lemma LookupIsNoted(s: State, st: Step)
    requires Enabled(s, st) && st.Return?
    ensures Lookup(st.call, s.flight.phases[st.call].key, st.reply) in NextCalls(s, st).lookups
  {
    hide Evicted;
  }

  lemma EnteredFirst(s: State, st: Step)
    requires Enabled(s, st)
    ensures st.Enter? ==> st.call !in s.calls.entered && st.call !in s.flight.phases
    ensures !st.Enter? ==> st.call in s.flight.phases
    ensures st.Cancel? ==> Leaves(s, st)
    ensures st.Enter? || st.Return? ==> !Leaves(s, st)
  {
    hide Evicted, Hits;
  }

  lemma {:induction false} NextKeepsReturns(s: State, st: Step, x: Returned)
    requires Conversations(s) && Enabled(s, st) && x in NextCalls(s, st).returned
    ensures ReturnOk(Next(s, st), x)
  {
    hide NextFlight, NextCalls, Leaves, InHand, Enabled, Hits, Evicted, HasReturned, Stored, Served;
    NextParts(s, st);
    CallsGrow(s, st);
    EnteredFirst(s, st);
    if x !in s.calls.returned {
      NewReturnOk(s, st, x);
    }
  }

  lemma {:induction false} NewReturnOk(s: State, st: Step, x: Returned)
    requires Conversations(s) && Enabled(s, st) && x in NextCalls(s, st).returned && x !in s.calls.returned
    ensures ReturnOk(Next(s, st), x)
  {
    hide NextFlight, HasReturned, Evicted, Stored, Served;
    var c := st.call;
    assert CallIsKept(s, c);
    if st.Close? {
      assert InHand(s.flight.phases[c], s.flight.phases[c].reply);
    } else if st.Put? {
      assert InHand(s.flight.phases[c], Answered(s.flight.phases[c].answer));
    }
  }

  lemma {:induction false} NextKeepsConversations(s: State, st: Step)
    requires Conversations(s) && Enabled(s, st)
    ensures Conversations(Next(s, st))
  {
    hide NextFlight, NextCalls, Leaves, CallIsKept, ReturnOk, Enabled, Next, HasReturned;
    NextParts(s, st);
    forall c ensures CallIsKept(Next(s, st), c) { NextKeepsCall(s, st, c); }
    forall x | x in Next(s, st).calls.returned ensures ReturnOk(Next(s, st), x) { NextKeepsReturns(s, st, x); }
    LeaverIsNew(s, st);
  }

  // No call returns twice.
  lemma {:induction false} LeaverIsNew(s: State, st: Step)
    requires Conversations(s) && Enabled(s, st)
    ensures var r := NextCalls(s, st).returned; forall i, j :: 0 <= i < j < |r| ==> r[i].call != r[j].call
  {
    hide NextFlight, NextCalls, Leaves, Enabled, ReturnOk, InHand;
    CallsGrow(s, st);
    EnteredFirst(s, st);
    LeavesExactly(s, st);
    assert CallIsKept(s, st.call);
    var r, r' := s.calls.returned, NextCalls(s, st).returned;
    assert forall i :: 0 <= i < |r| ==> r'[i] == r[i];
    if Leaves(s, st) && !st.Cancel? {
      LeaverIsInFlight(s, st);
    }
  }

  lemma LeaverIsInFlight(s: State, st: Step)
    requires Enabled(s, st) && Leaves(s, st)
    ensures st.call in s.flight.phases
  {
    hide Evicted, Hits;
  }

  // ----------------------------------------------------------- void answers

  // The calls that have counted a void answer and are about to store it.
  function Storing(f: Flight): set<Call> {
    set c | c in f.phases && f.phases[c].Putting? && f.phases[c].answer.Empty()
  }

  // The void answers that callers have returned from their own lookups.
  function VoidReturns(returned: seq<Returned>): nat {
    if returned == [] then 0
    else VoidReturns(returned[..|returned| - 1]) + if IsVoidReturn(returned[|returned| - 1]) then 1 else 0
  }

  predicate IsVoidReturn(x: Returned) {
    x.source.FromLookup? && x.reply.Answered? && x.reply.answer.Empty()
  }

  ghost predicate CountsVoid(f: Flight, c: Call) {
    c in f.phases && f.phases[c].Counting? ==> f.phases[c].answer.Empty()
  }

  // Each void answer is counted once, between its arrival and its storing.
  ghost predicate Negatives(s: State) {
    && (forall c :: CountsVoid(s.flight, c))
    && s.stats.negative == VoidReturns(s.calls.returned) + |Storing(s.flight)|
  }

  lemma VoidReturnsAppend(returned: seq<Returned>, x: Returned)
    ensures VoidReturns(returned + [x]) == VoidReturns(returned) + if IsVoidReturn(x) then 1 else 0
  {
    assert (returned + [x])[..|returned|] == returned;
  }

  // What a step does to its own call, as far as void answers go.
  lemma OwnStoring(s: State, st: Step)
    requires Enabled(s, st) && CountsVoid(s.flight, st.call)
    ensures var c, f, f' := st.call, s.flight, NextFlight(s, st);
            && CountsVoid(f', c)
            && (c in Storing(f') <==> st.CountNegative?)
            && (c in Storing(f) <==> st.Put? && f.phases[c].answer.Empty())
            && Next(s, st).stats.negative == s.stats.negative + (if st.CountNegative? then 1 else 0)
  {
    hide Evicted, Hits;
  }

  lemma NewVoidReturn(s: State, st: Step)
    requires Enabled(s, st)
    ensures VoidReturns(NextCalls(s, st).returned) ==
              VoidReturns(s.calls.returned) + if st.Put? && s.flight.phases[st.call].answer.Empty() then 1 else 0
  {
    hide Evicted, Hits, VoidReturns;
    var h, c := s.calls.returned, st.call;
    if st.Put? {
      VoidReturnsAppend(h, Returned(c, Answered(s.flight.phases[c].answer), FromLookup));
    } else if st.Close? {
      VoidReturnsAppend(h, Returned(c, s.flight.phases[c].reply, FromLookup));
    } else if st.Get? {
      var k := s.flight.phases[c].key;
      if Hits(s, k, st.at) {
        HitIsLive(s, k, st.at);
        VoidReturnsAppend(h, Returned(c, Answered(s.entries[k].answer), FromMemory(Delivery(k, s.entries[k].answer, st.at, s.entries[k].expires))));
      }
    }
  }

  lemma HitIsLive(s: State, k: Key, at: int)
    requires Hits(s, k, at)
    ensures k in s.entries && at <= s.entries[k].expires
  {
  }

  lemma {:induction false} NextKeepsNegatives(s: State, st: Step)
    requires Negatives(s) && Enabled(s, st)
    ensures Negatives(Next(s, st))
  {
    hide NextFlight, NextCalls, Next, Enabled, VoidReturns, Storing;
    var f, f', c := s.flight, NextFlight(s, st), st.call;
    NextParts(s, st);
    assert CountsVoid(f, c);
    OwnStoring(s, st);
    NewVoidReturn(s, st);
    StoringMoves(s, st);
    forall d ensures CountsVoid(f', d) {
      assert CountsVoid(f, d);
      if d != c {
        OthersStay(s, st, d);
      }
    }
    OneMoreOrLess(Storing(f), c);
  }

  lemma {:induction false} StoringMoves(s: State, st: Step)
    requires Enabled(s, st) && CountsVoid(s.flight, st.call)
    ensures Storing(NextFlight(s, st)) == if st.CountNegative? then Storing(s.flight) + {st.call} else Storing(s.flight) - {st.call}
  {
    hide NextFlight, Next, Enabled;
    var f, f', c := s.flight, NextFlight(s, st), st.call;
    OwnStoring(s, st);
    forall d | d != c ensures d in Storing(f') <==> d in Storing(f) {
      OthersStay(s, st, d);
    }
  }

  lemma OneMoreOrLess(calls: set<Call>, c: Call)
    ensures |calls + {c}| == |calls| + if c in calls then 0 else 1
    ensures |calls - {c}| == |calls| - if c in calls then 1 else 0
  {
    assert c in calls ==> calls + {c} == calls;
    assert c !in calls ==> calls - {c} == calls;
  }

  // ------------------------------------------------------- storing and serving

  // A put stores its answer over what was kept, anew and for its due lifetime.
  lemma PutStores(s: State, st: Step)
    requires Enabled(s, st) && st.Put?
    ensures var p, s' := s.flight.phases[st.call], Next(s, st);
            && p.key in s'.entries && s'.entries[p.key].answer == p.answer && s'.entries[p.key].hits == 0
            && s'.entries[p.key].expires == st.storedAt + Lifetime(s.cfg, p.answer) && s'.entries[p.key].observed == st.observed
            && forall k :: k != p.key ==> (k in s'.entries <==> k in st.kept) && (k in st.kept ==> s'.entries[k] == st.kept[k])
  {
    hide Evicted, Lifetime;
  }

  // A get that finds a live entry ends its call with that answer, and counts the hit
  // on the entry; nothing goes out. One that finds none leaves the key empty.
  lemma GetServes(s: State, st: Step)
    requires Enabled(s, st) && st.Get?
    ensures var k, s' := s.flight.phases[st.call].key, Next(s, st);
            if k in s.entries && st.at <= s.entries[k].expires then
              && st.call !in s'.flight.phases && s'.started == s.started
              && s'.entries == s.entries[k := s.entries[k].(hits := s.entries[k].hits + 1)]
              && |s'.calls.returned| == |s.calls.returned| + 1
              && s'.calls.returned[|s.calls.returned|].call == st.call
              && s'.calls.returned[|s.calls.returned|].reply == Answered(s.entries[k].answer)
            else s'.entries == s.entries - {k} && s'.calls.returned == s.calls.returned
  {
    hide Evicted, Lifetime;
  }

  // A call returns an answer of its own lookup only with that answer in store.
  lemma {:induction false} ReturnedMeansStored(s: State, st: Step, x: Returned)
    requires Conversations(s) && Enabled(s, st) && x in NextCalls(s, st).returned && x !in s.calls.returned
    requires x.source.FromLookup? && x.reply.Answered?
    ensures x.call in NextCalls(s, st).entered
    ensures var k, s' := NextCalls(s, st).entered[x.call], Next(s, st);
            && k in s'.entries && s'.entries[k].answer == x.reply.answer && s'.entries[k].hits == 0
            && s.now <= s'.entries[k].expires - Lifetime(s.cfg, x.reply.answer) <= s'.now
  {
    hide NextFlight, Lifetime, Evicted, HasReturned, ReturnOk, Looked;
    assert CallIsKept(s, st.call);
    if st.Put? {
      PutStores(s, st);
    }
  }

  // ---------------------------------------------------------------- all runs

  ghost predicate Safe(s: State) {
    Leadership(s.flight) && Accounting(s) && Provenance(s) && Conversations(s) && Negatives(s)
  }

  lemma {:induction false} NextIsSafe(s: State, st: Step)
    requires Safe(s) && Enabled(s, st)
    ensures Safe(Next(s, st))
  {
    hide Leadership, Accounting, Conversations, Negatives, Enabled, EntryOk, DeliveryOk, HandOk, Next;
    NextKeepsNegatives(s, st);
    NextKeepsConversations(s, st);
    NextKeepsLeadership(s, st);
    NextKeepsAccounting(s, st);
    forall k ensures EntryOk(Next(s, st), k) { NextKeepsEntries(s, st, k); }
    forall d | d in Next(s, st).served ensures DeliveryOk(Next(s, st), d) { NextKeepsDeliveries(s, st, d); }
    forall c ensures HandOk(Next(s, st), c) { NextKeepsHands(s, st, c); }
  }

  // A run from an empty cache: each state is the previous one after a step.
  ghost predicate IsRun(cfg: Config, states: seq<State>, steps: seq<Step>) {
    && |states| == |steps| + 1 && states[0] == Init(cfg)
    && forall i :: 0 <= i < |steps| ==> Enabled(states[i], steps[i]) && states[i + 1] == Next(states[i], steps[i])
  }

  lemma {:induction false} EveryStateIsSafe(cfg: Config, states: seq<State>, steps: seq<Step>, i: nat)
    requires IsRun(cfg, states, steps) && i < |states|
    ensures Safe(states[i])
  {
    hide Next, Enabled;
    if i == 0 {
      InitIsSafe(cfg);
    } else {
      EveryStateIsSafe(cfg, states, steps, i - 1);
      NextIsSafe(states[i - 1], steps[i - 1]);
      assert states[i - 1 + 1] == Next(states[i - 1], steps[i - 1]);
    }
  }

  lemma InitIsSafe(cfg: Config)
    ensures Safe(Init(cfg))
  {
  }

  // The history is that of the run: who came asking what, who was cancelled, and
  // what each call's own lookup came back with.
  ghost predicate IsHistory(h: Calls, steps: seq<Step>) {
    && (forall c, k :: c in h.entered && h.entered[c] == k <==> Enter(c, k) in steps)
    && (forall c :: c in h.cancelled <==> Cancel(c) in steps)
    && (forall x :: x in h.lookups ==> exists at :: Return(x.call, x.reply, at) in steps)
  }

  lemma {:induction false} HistoryGrows(s: State, st: Step, steps: seq<Step>)
    requires Enabled(s, st) && IsHistory(s.calls, steps)
    ensures IsHistory(NextCalls(s, st), steps + [st])
  {
    hide NextFlight, Hits, Evicted, NextCalls;
    var h, h', more := s.calls, NextCalls(s, st), steps + [st];
    CallsGrow(s, st);
    EnteredFirst(s, st);
    assert forall x :: x in more <==> x in steps || x == st;
    forall x | x in h'.lookups ensures exists at :: Return(x.call, x.reply, at) in more {
      LookupsGrow(s, st, x);
      if x in h.lookups {
        var at :| Return(x.call, x.reply, at) in steps;
        assert Return(x.call, x.reply, at) in more;
      } else {
        assert Return(x.call, x.reply, st.at) in more;
      }
    }
  }

  lemma LookupsGrow(s: State, st: Step, x: Lookup)
    requires Enabled(s, st) && x in NextCalls(s, st).lookups
    ensures x in s.calls.lookups || (st.Return? && x.call == st.call && x.reply == st.reply)
  {
    hide Hits, Evicted;
  }

  lemma {:induction false} HistoryIsTheRun(cfg: Config, states: seq<State>, steps: seq<Step>, i: nat)
    requires IsRun(cfg, states, steps) && i < |states|
    ensures IsHistory(states[i].calls, steps[..i])
  {
    hide Next, Enabled, IsHistory;
    if i == 0 {
      NoHistory(cfg);
      assert steps[..0] == [];
    } else {
      HistoryIsTheRun(cfg, states, steps, i - 1);
      HistoryGrows(states[i - 1], steps[i - 1], steps[..i - 1]);
      NextParts(states[i - 1], steps[i - 1]);
      assert steps[..i] == steps[..i - 1] + [steps[i - 1]];
      assert states[i - 1 + 1] == Next(states[i - 1], steps[i - 1]);
    }
  }

  lemma NoHistory(cfg: Config)
    ensures IsHistory(Init(cfg).calls, [])
  {
  }

  // Every call that came and is gone was cancelled or returned, once: an answer
  // served from memory for the key it came for before that entry's expiry, or what
  // its own lookup of that key came back with. Waiting for another caller's lookup
  // is never the end of a call.
  lemma {:induction false} EveryCallReturnsOnce(cfg: Config, states: seq<State>, steps: seq<Step>, i: nat, c: Call, k: Key)
    requires IsRun(cfg, states, steps) && i < |states| && Enter(c, k) in steps[..i] && c !in states[i].flight.phases
    ensures var h := states[i].calls;
            if Cancel(c) in steps[..i] then !HasReturned(h, c)
            else exists n :: IsOnlyReturn(states[i], n, c, k)
  {
    hide Next, Enabled, Leadership, Accounting, Provenance, Negatives, ReturnOk, IsRun, Looked;
    EveryStateIsSafe(cfg, states, steps, i);
    HistoryIsTheRun(cfg, states, steps, i);
    var h := states[i].calls;
    assert CallIsKept(states[i], c);
    if HasReturned(h, c) {
      var n :| 0 <= n < |h.returned| && h.returned[n].call == c;
      TheReturn(states[i], n, k);
      assert IsOnlyReturn(states[i], n, c, k);
    }
  }

  ghost predicate IsOnlyReturn(s: State, n: int, c: Call, k: Key) {
    0 <= n < |s.calls.returned| &&
    var x := s.calls.returned[n];
    && x.call == c
    && (forall m :: 0 <= m < |s.calls.returned| && m != n ==> s.calls.returned[m].call != c)
    && match x.source
       case FromMemory(d) => d in s.served && d.key == k && x.reply == Answered(d.answer) && d.at <= d.expires
       case FromLookup => Lookup(c, k, x.reply) in s.calls.lookups
  }

  lemma TheReturn(s: State, n: nat, k: Key)
    requires Conversations(s) && n < |s.calls.returned|
    requires var c := s.calls.returned[n].call; c in s.calls.entered && s.calls.entered[c] == k
    ensures IsOnlyReturn(s, n, s.calls.returned[n].call, k)
  {
    hide CallIsKept;
    assert ReturnOk(s, s.calls.returned[n]);
  }

  // ------------------------------------------------------------ transparency

  // Whenever an inner query returns, it returns what query gives.
  ghost predicate Asks(query: Key -> Reply, states: seq<State>, steps: seq<Step>) {
    |states| == |steps| + 1 &&
    forall i :: 0 <= i < |steps| && steps[i].Return? && steps[i].call in states[i].flight.phases ==>
      steps[i].reply == query(states[i].flight.phases[steps[i].call].key)
  }

  ghost predicate TrueHand(query: Key -> Reply, s: State, c: Call) {
    c in s.flight.phases ==> forall r :: InHand(s.flight.phases[c], r) ==> r == query(s.flight.phases[c].key)
  }

  // Every answer stored, every answer ever served, and every reply a caller is
  // about to return or has returned is what query gives for its key.
  ghost predicate Coherent(query: Key -> Reply, s: State) {
    && (forall k :: k in s.entries ==> query(k) == Answered(s.entries[k].answer))
    && (forall d :: d in s.served ==> query(d.key) == Answered(d.answer))
    && (forall c :: TrueHand(query, s, c))
    && (forall x :: x in s.calls.returned && x.call in s.calls.entered ==> x.reply == query(s.calls.entered[x.call]))
  }

  lemma {:induction false} NextIsCoherent(query: Key -> Reply, s: State, st: Step)
    requires Coherent(query, s) && Conversations(s) && Enabled(s, st)
    requires st.Return? ==> st.reply == query(s.flight.phases[st.call].key)
    ensures Coherent(query, Next(s, st))
  {
    hide Next, Enabled, TrueHand, CallIsKept, ReturnOk, NextFlight, Lifetime;
    var s' := Next(s, st);
    NextParts(s, st);
    forall x | x in s'.calls.returned && x.call in s'.calls.entered ensures x.reply == query(s'.calls.entered[x.call]) {
      NextTrueReturn(query, s, st, x);
    }
    forall c ensures TrueHand(query, s', c) {
      NextTrueHand(query, s, st, c);
    }
    forall k | k in s'.entries ensures query(k) == Answered(s'.entries[k].answer) {
      NextTrueEntry(query, s, st, k);
    }
    forall d | d in s'.served ensures query(d.key) == Answered(d.answer) {
      NextTrueDelivery(query, s, st, d);
    }
  }

  lemma {:induction false} NextTrueHand(query: Key -> Reply, s: State, st: Step, c: Call)
    requires Coherent(query, s) && Enabled(s, st)
    requires st.Return? ==> st.reply == query(s.flight.phases[st.call].key)
    ensures TrueHand(query, Next(s, st), c)
  {
    hide NextFlight, InHand, Lifetime, Evicted, Hits, Stored, Served;
    var f := NextFlight(s, st);
    assert Next(s, st).flight == f;
    assert TrueHand(query, s, c);
    if c in f.phases {
      forall r | InHand(f.phases[c], r) ensures r == query(f.phases[c].key) {
        NextHand(s, st, c, r);
      }
    }
  }

  lemma {:induction false} NextTrueEntry(query: Key -> Reply, s: State, st: Step, k: Key)
    requires Coherent(query, s) && Enabled(s, st) && k in Next(s, st).entries
    ensures query(k) == Answered(Next(s, st).entries[k].answer)
  {
    hide Lifetime, Evicted, TrueHand, NextFlight;
    NextEntry(s, st, k);
    if st.Put? {
      PuttingIsTrue(query, s, st);
    }
  }

  lemma PuttingIsTrue(query: Key -> Reply, s: State, st: Step)
    requires Coherent(query, s) && Enabled(s, st) && st.Put?
    ensures var p := s.flight.phases[st.call]; query(p.key) == Answered(p.answer)
  {
    hide Evicted;
    var p := s.flight.phases[st.call];
    assert TrueHand(query, s, st.call) && InHand(p, Answered(p.answer));
  }

  lemma {:induction false} NextTrueDelivery(query: Key -> Reply, s: State, st: Step, d: Delivery)
    requires Coherent(query, s) && Enabled(s, st) && d in Next(s, st).served
    ensures query(d.key) == Answered(d.answer)
  {
    hide Lifetime, Evicted, TrueHand, NextFlight;
  }

  lemma {:induction false} NextTrueReturn(query: Key -> Reply, s: State, st: Step, x: Returned)
    requires Coherent(query, s) && Conversations(s) && Enabled(s, st) && x in NextCalls(s, st).returned && x.call in NextCalls(s, st).entered
    ensures x.reply == query(NextCalls(s, st).entered[x.call])
  {
    hide NextFlight, NextCalls, TrueHand, Enabled, Lifetime, Leaves, InHand, CallIsKept;
    CallsGrow(s, st);
    if x in s.calls.returned {
      assert ReturnOk(s, x);
      EnteredFirst(s, st);
    } else {
      NewTrueReturn(query, s, st, x);
    }
  }

  lemma {:induction false} NewTrueReturn(query: Key -> Reply, s: State, st: Step, x: Returned)
    requires Coherent(query, s) && Conversations(s) && Enabled(s, st) && x in NextCalls(s, st).returned && x !in s.calls.returned
    requires x.call in NextCalls(s, st).entered
    ensures x.reply == query(NextCalls(s, st).entered[x.call])
  {
    hide NextFlight, Lifetime, Evicted, HasReturned, ReturnOk, Looked;
    var c := st.call;
    assert CallIsKept(s, c) && TrueHand(query, s, c);
    if st.Close? {
      assert InHand(s.flight.phases[c], s.flight.phases[c].reply);
    } else if st.Put? {
      assert InHand(s.flight.phases[c], Answered(s.flight.phases[c].answer));
    }
  }

  // However many callers there are and however they interleave, a cache over a
  // resolver with fixed answers replies to each of them what it would.
  lemma {:induction false} EveryCallerSeesTheResolver(cfg: Config, query: Key -> Reply, states: seq<State>, steps: seq<Step>, i: nat)
    requires IsRun(cfg, states, steps) && Asks(query, states, steps) && i < |states|
    ensures Coherent(query, states[i])
  {
    hide Next, Coherent, Leadership, Accounting, Provenance, Negatives, Conversations;
    if i == 0 {
      InitIsCoherent(query, cfg);
    } else {
      EveryCallerSeesTheResolver(cfg, query, states, steps, i - 1);
      InFlightReturns(states[i - 1], steps[i - 1]);
      EveryStateIsSafe(cfg, states, steps, i - 1);
      NextIsCoherent(query, states[i - 1], steps[i - 1]);
      assert states[i - 1 + 1] == Next(states[i - 1], steps[i - 1]);
    }
  }

  lemma InitIsCoherent(query: Key -> Reply, cfg: Config)
    ensures Coherent(query, Init(cfg))
  {
  }

  lemma InFlightReturns(s: State, st: Step)
    requires Enabled(s, st)
    ensures st.Return? ==> st.call in s.flight.phases
  {
    hide Evicted;
  }

  // At any time, at most one lookup of a key is between claim and release.
  lemma {:induction false} OneLeaderPerKey(s: State, c: Call, d: Call, k: Key)
    requires Safe(s) && c in s.flight.phases && d in s.flight.phases
    requires Leads(s.flight.phases[c], k) && Leads(s.flight.phases[d], k)
    ensures c == d
  {
    assert CallOk(s.flight, c) && CallOk(s.flight, d);
  }

  // A channel is closed only while it is open, and only by the call that made it.
  lemma {:induction false} ClosedOnceByItsMaker(s: State, st: Step)
    requires Safe(s) && Enabled(s, st) && st.Close?
    ensures var p := s.flight.phases[st.call];
            && p.found.Some? && p.found.value !in s.flight.closed
            && p.found.value in s.flight.leaderOf && s.flight.leaderOf[p.found.value] == st.call
            && Next(s, st).flight.closed == s.flight.closed + {p.found.value}
  {
    assert CallOk(s.flight, st.call);
  }

  // Nothing outside is held back: a new call may come with any question, a lookup
  // may return anything at any time, and a waiting caller may be cancelled.
  lemma NothingIsHeldBack(s: State, c: Call, k: Key, reply: Reply, at: int)
    ensures c !in s.calls.entered && c !in s.flight.phases ==> Enabled(s, Enter(c, k))
    ensures c in s.flight.phases && s.flight.phases[c].Asking? && s.now <= at ==> Enabled(s, Return(c, reply, at))
    ensures c in s.flight.phases && s.flight.phases[c].Looking? && s.now <= at ==> Enabled(s, Get(c, at))
    ensures c in s.flight.phases && s.flight.phases[c].Waiting? ==> Enabled(s, Cancel(c))
  {
  }

  // A call does what comes next and nothing else: one that waits goes on only once
  // the channel it waits on is closed, or gives up; one that asks waits for its reply.
  lemma OnlyWhatComesNext(s: State, st: Step)
    requires Enabled(s, st) && !st.Enter?
    ensures var p := s.flight.phases[st.call];
            match p
            case Looking(_) => st.Get?
            case Missed(_) => st.Claim?
            case Waiting(_, on) => if on in s.flight.closed then st.Wake? || st.Cancel? else st.Cancel?
            case Asking(_, _) => st.Return?
            case Replied(_, _, _) => st.Release?
            case Closing(_, _, _) => st.Close?
            case Counting(_, _) => st.CountNegative?
            case Putting(_, _) => st.Put?
  {
    hide Evicted;
  }

  // How many more steps of its own a call needs before its channel is closed.
  function ToClose(p: Phase): nat {
    if p.Asking? then 3 else if p.Replied? then 2 else if p.Closing? then 1 else 0
  }

  // The one step a call can take next when inner queries return and the clock
  // does not stand in the way; a waiting call takes the step of the call it
  // waits for.
  ghost function Pushed(s: State, c: Call): Call
    requires c in s.flight.phases
  {
    var p := s.flight.phases[c];
    if p.Waiting? && p.on !in s.flight.closed && p.on in s.flight.leaderOf then s.flight.leaderOf[p.on] else c
  }

  ghost predicate CanStep(s: State, c: Call) {
    exists st: Step :: st.call == c && !st.Enter? && !st.Cancel? && Enabled(s, st)
  }

  lemma {:induction false} SubsetOfSize<T>(s: set<T>, n: nat) returns (sub: set<T>)
    requires n <= |s|
    ensures sub <= s && |sub| == n
  {
    if n == 0 {
      sub := {};
    } else {
      var x :| x in s;
      sub := SubsetOfSize(s - {x}, n - 1);
      sub := sub + {x};
    }
  }

  lemma {:induction false} EvictionExists(m: Entries, now: int, maxEntries: nat) returns (kept: Entries)
    ensures Evicted(m, kept, now, maxEntries)
  {
    var live := Live(m, now);
    var n := if |live| <= maxEntries / 2 then |live| else maxEntries / 2;
    assert |live.Keys| == |live|;
    var keys := SubsetOfSize(live.Keys, n);
    kept := map k | k in keys :: live[k];
    assert kept.Keys == keys && |kept| == |kept.Keys|;
  }

  lemma {:induction false} BusyCallCanStep(s: State, c: Call)
    requires Safe(s) && c in s.flight.phases
    requires s.flight.phases[c].Waiting? ==> s.flight.phases[c].on in s.flight.closed
    ensures CanStep(s, c)
  {
    hide Leadership, Provenance, Evicted;
    var p := s.flight.phases[c];
    match p
    case Looking(_) => assert Enabled(s, Get(c, s.now));
    case Missed(_) => assert Enabled(s, Claim(c));
    case Waiting(_, _) => assert Enabled(s, Wake(c));
    case Asking(_, _) => assert Enabled(s, Return(c, Missing, s.now));
    case Replied(_, _, _) => assert Enabled(s, Release(c));
    case Closing(_, _, _) => assert Enabled(s, Close(c));
    case Counting(_, _) => assert Enabled(s, CountNegative(c));
    case Putting(_, _) =>
      var kept := s.entries;
      if |s.entries| >= s.cfg.maxEntries {
        kept := EvictionExists(s.entries, s.now, s.cfg.maxEntries);
      }
      assert Enabled(s, Put(c, s.now, kept, s.now, s.now));
  }

  // No reachable state is stuck: every call can step, or waits for one that
  // still has at most three steps of its own to go before it closes the channel.
  lemma {:induction false} NeverStuck(s: State, c: Call)
    requires Safe(s) && c in s.flight.phases
    ensures Pushed(s, c) in s.flight.phases && CanStep(s, Pushed(s, c))
    ensures Pushed(s, c) != c ==> 1 <= ToClose(s.flight.phases[Pushed(s, c)]) <= 3
  {
    hide Enabled, CanStep, Accounting, Provenance;
    assert CallOk(s.flight, c);
    BusyCallCanStep(s, Pushed(s, c));
  }

  // Only a call's own steps move it, and each brings a leader closer to closing.
  lemma {:induction false} OwnStepsOnly(s: State, st: Step, c: Call)
    requires Enabled(s, st) && c in s.flight.phases
    ensures st.call != c ==> c in Next(s, st).flight.phases && Next(s, st).flight.phases[c] == s.flight.phases[c]
    ensures st.call == c && ToClose(s.flight.phases[c]) > 0 ==>
              c !in Next(s, st).flight.phases || ToClose(Next(s, st).flight.phases[c]) == ToClose(s.flight.phases[c]) - 1
  {
    hide Evicted, Hits, Stored, Served, NextFlight;
    assert Next(s, st).flight == NextFlight(s, st);
    if st.call != c {
      OthersStay(s, st, c);
    } else if ToClose(s.flight.phases[c]) > 0 {
      LeaderAdvances(s, st);
    }
  }

  lemma LeaderAdvances(s: State, st: Step)
    requires Enabled(s, st) && st.call in s.flight.phases && ToClose(s.flight.phases[st.call]) > 0
    ensures var f := NextFlight(s, st);
            st.call !in f.phases || ToClose(f.phases[st.call]) == ToClose(s.flight.phases[st.call]) - 1
  {
    hide Evicted, Hits;
  }

  // A lookup that failed changes nothing that is stored: from its return to the
  // end of its call, no step of it touches the entries.
  lemma {:induction false} FailureStoresNothing(s: State, st: Step)
    requires Enabled(s, st) && !st.Enter?
    requires var p := s.flight.phases[st.call];
             (st.Return? && !st.reply.Answered?) || ((p.Replied? || p.Closing?) && !p.reply.Answered?)
    ensures var s' := Next(s, st);
            && s'.entries == s.entries && s'.wire == s.wire
            && (st.call in s'.flight.phases ==>
                  (s'.flight.phases[st.call].Replied? || s'.flight.phases[st.call].Closing?) &&
                  !s'.flight.phases[st.call].reply.Answered?)
  {
    hide Evicted, Hits, Stored, Served;
  }
}

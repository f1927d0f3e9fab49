// The SPF evaluator as the source has it: one object updated in place by
// mutually recursive methods, over a path that is a slice sharing its backing
// array (spf/evaluate.go). Every method is proved against module SpfTrace, and
// every call has a path that is a trail: no name twice, each name leading to the
// next, one record at the last.
module SpfEvaluate {
  import opened Text
  import opened Dnsx
  import opened SpfTerms
  import opened SpfTree
  import opened SpfTrace
  import opened SpfCost
  import opened SpfShape
  import opened Caching

  // The events still to come while a record is being read.
  function Rest(r: Resolver, maxDepth: int, path: seq<string>, terms: seq<Term>, redirect: Option<Term>): seq<Event>
    requires path != []
  {
    Spends(r, maxDepth, path, Counted(terms, redirect)) + Ending(path, terms)
  }

  lemma BelowTerminal(lim: Limits, r: Resolver, path: seq<string>, t: Term, s: Run)
    requires path != [] && !Follows(t)
    ensures Replay(lim, Below(r, lim.maxDepth, path, EffectOf(r, lim.maxDepth, path, t)), s) == s
  {
  }

  // Reading "all" ends the record.
  lemma {:induction false} RestAtAll(lim: Limits, r: Resolver, path: seq<string>, terms: seq<Term>, redirect: Option<Term>, s: Run)
    requires path != [] && !s.halted
    requires terms != [] && !terms[0].modifier && terms[0].name == "all"
    ensures Replay(lim, Rest(r, lim.maxDepth, path, terms, redirect), s)
            == if |path| == 1 then s.(out := s.out.(all := terms[0].qualifier)) else s
  {
  }

  // A term that costs nothing leaves the rest as it is.
  lemma RestAfter(r: Resolver, maxDepth: int, path: seq<string>, terms: seq<Term>, redirect: Option<Term>)
    requires path != [] && terms != []
    requires terms[0].modifier || (terms[0].name != "all" && !CostsLookup(terms[0]))
    ensures var t := terms[0];
            Rest(r, maxDepth, path, terms, redirect)
            == Rest(r, maxDepth, path, terms[1..], if t.modifier && t.name == "redirect" then Some(t) else redirect)
  {
    hide Spends;
  }

  lemma {:induction false} RestAtTerm(lim: Limits, r: Resolver, path: seq<string>, terms: seq<Term>, redirect: Option<Term>, s: Run)
    requires path != [] && !s.halted
    requires terms != [] && !terms[0].modifier && terms[0].name != "all" && CostsLookup(terms[0])
    ensures var e := SpendOf(r, lim.maxDepth, path, terms[0]);
            Replay(lim, Rest(r, lim.maxDepth, path, terms, redirect), s)
            == Replay(lim, Rest(r, lim.maxDepth, path, terms[1..], redirect),
                      Replay(lim, Below(r, lim.maxDepth, path, e.effect), Step(lim, e, s)))
  {
    hide Spends, Replay, SpendOf, Step, Below;
    SpendFirst(lim, r, path, Counted(terms, redirect), Ending(path, terms), s);
    assert Counted(terms, redirect)[1..] == Counted(terms[1..], redirect);
  }

  lemma NotedFirst(lim: Limits, e: Event, s: Run, target: string)
    requires e.Spend? && (e.effect.RecordUnanswered? || e.effect.Unusable? || e.effect.Entered?) && e.effect.target == target
    ensures Applied(lim, e, Noted(s, target)) == Applied(lim, e, s)
  {
    hide Logged;
  }

  // Past the last term only a redirect is left.
  lemma {:induction false} RestAtEnd(lim: Limits, r: Resolver, path: seq<string>, redirect: Option<Term>, s: Run)
    requires path != []
    ensures redirect.None? || s.halted ==> Replay(lim, Rest(r, lim.maxDepth, path, [], redirect), s) == s
    ensures redirect.Some? && !s.halted ==>
              var e := SpendOf(r, lim.maxDepth, path, redirect.value);
              Replay(lim, Rest(r, lim.maxDepth, path, [], redirect), s)
              == Replay(lim, Below(r, lim.maxDepth, path, e.effect), Step(lim, e, s))
  {
    hide Spends, SpendOf, Below, Step, Replay;
    var all := Rest(r, lim.maxDepth, path, [], redirect);
    assert Ending(path, []) == [];
    if redirect.Some? {
      var spends := Spends(r, lim.maxDepth, path, [redirect.value]);
      assert all == spends + [];
      if !s.halted {
        var e := SpendOf(r, lim.maxDepth, path, redirect.value);
        SpendFirst(lim, r, path, [redirect.value], [], s);
        NoSpends(r, lim.maxDepth, path);
        assert [redirect.value][1..] == [];
        assert Spends(r, lim.maxDepth, path, []) + [] == [];
        ReplayStops(lim, [], Replay(lim, Below(r, lim.maxDepth, path, e.effect), Step(lim, e, s)));
      } else {
        ReplayStops(lim, all, s);
      }
    } else {
      NoSpends(r, lim.maxDepth, path);
      ReplayStops(lim, all, s);
    }
  }

  lemma CountedFirst(terms: seq<Term>, redirect: Option<Term>)
    requires terms != []
    ensures var t := terms[0];
            Counted(terms, redirect) ==
              if t.modifier then Counted(terms[1..], if t.name == "redirect" then Some(t) else redirect)
              else if t.name == "all" then []
              else if CostsLookup(t) then [t] + Counted(terms[1..], redirect)
              else Counted(terms[1..], redirect)
  {
    hide CostsLookup;
  }

  lemma CountedNone(redirect: Option<Term>)
    ensures Counted([], redirect) == if redirect.Some? then [redirect.value] else []
  {
  }

  // ------------------------------------------------------------- the path

  // What is left to read of a record counts in the whole record.
  lemma CountedAmongCosted(r: Resolver, path: seq<string>, record: string)
    requires path != [] && PublishedAt(r, path[|path| - 1]) == One(record)
    ensures AmongCosted(r, path, Counted(Parse(record), None))
  {
    hide PublishedAt, Parse, Counted, Costed;
    CountedIsCosted(Parse(record));
  }

  lemma AmongCostedSplit(r: Resolver, path: seq<string>, t: Term, ts: seq<Term>)
    requires AmongCosted(r, path, [t] + ts)
    ensures AmongCosted(r, path, [t]) && AmongCosted(r, path, ts)
  {
    hide PublishedAt, Parse, Costed;
    assert t in [t] + ts && forall x :: x in ts ==> x in [t] + ts;
  }

  lemma CostedTermLeads(r: Resolver, path: seq<string>, t: Term)
    requires AmongCosted(r, path, [t]) && Follows(t)
    ensures Edge(r, path[|path| - 1], Normalize(t.value))
  {
    hide PublishedAt, Parse, Costed, Normalize, Follows;
    assert t in [t];
  }

  lemma RootIsTrail(r: Resolver, domain: string)
    requires PublishedAt(r, domain).One?
    ensures Trail(r, [domain])
  {
    hide PublishedAt, Edge;
  }

  // Go's append: writes past the end of the slice when there is room for it,
  // and copies to a larger array otherwise.
  method Append(path: array<string>, n: nat, x: string) returns (longer: array<string>)
    requires n <= path.Length
    modifies path
    ensures longer == path || fresh(longer)
    ensures n < longer.Length && longer[..n + 1] == old(path[..n]) + [x]
    ensures path[..n] == old(path[..n])
  {
    if n < path.Length {
      path[n] := x;
      longer := path;
    } else {
      longer := new string[2 * n + 1](_ => "");
      for k := 0 to n
        invariant fresh(longer) && path[..n] == old(path[..n])
        invariant longer[..k] == path[..k]
      {
        longer[k] := path[k];
      }
      longer[n] := x;
      assert longer[..n] == path[..n];
    }
    assert longer[..n + 1] == longer[..n] + [x];
  }

  class State {
    const res: Resolver
    const cache: Cache?
    const lim: Limits
    var out: Result
    var seen: set<string>
    var halted: bool
    // The questions put to the resolver, in order.
    ghost var asked: seq<Question>

    // The resolver as the evaluator experiences it.
    ghost function View(): Resolver {
      if cache == null then res else Above(cache.inner)
    }

    ghost function Shared(): set<object> {
      if cache == null then {} else {cache}
    }

    ghost predicate Valid()
      reads Shared()
    {
      cache == null || (cache.Valid() && cache.Coherent())
    }

    ghost function Snap(): Run
      reads this
    {
      Run(out, seen, halted, asked)
    }

    // Questions that never reached the wire.
    ghost function Saved(): int
      reads this, Shared()
    {
      |asked| - (if cache == null then 0 else |cache.wire|)
    }

    constructor (res: Resolver, cache: Cache?, lim: Limits, domain: string)
      ensures this.res == res && this.cache == cache && this.lim == lim
      ensures Snap() == Run(Fresh(domain, View().Tracing?), {}, false, [])
    {
      this.res, this.cache, this.lim := res, cache, lim;
      out := Fresh(domain, if cache == null then res.Tracing? else true);
      seen, halted := {}, false;
      asked := [];
    }

    method LogNode(parent: string, target: string, via: Via, depth: nat, raw: string, outcome: Outcome)
      modifies this`out
      ensures out == Logged(old(out), parent, target, via, depth, raw, outcome)
    {
      if depth > out.maxDepth {
        out := out.(maxDepth := depth);
      }
      out := out.(nodes := out.nodes + [Node(|out.nodes|, parent, target, via, depth, out.terms, raw, outcome)]);
    }

    method Query(q: Question) returns (reply: Reply)
      requires Valid() && View().Tracing?
      modifies this`asked, Shared()
      ensures Valid() && reply == View().query(q)
      ensures asked == old(asked) + [q] && Saved() >= old(Saved())
    {
      asked := asked + [q];
      if cache == null {
        reply := res.query(q);
      } else {
        reply := cache.Query(q);
      }
    }

    method Records(name: string) returns (published: Published)
      requires Valid()
      modifies this`out, this`asked, Shared()
      ensures Valid() && published == PublishedAt(View(), name)
      ensures asked == old(asked) + [Question(name, TXT)] && Saved() >= old(Saved())
      ensures out == if published.Unanswered? then old(out).(tempError := published.err, termsExact := false) else old(out)
    {
      var txts: seq<string>;
      var failure: Option<ErrText> := None;
      if cache != null || res.Tracing? {
        var reply := Query(Question(name, TXT));
        match reply
        case Answered(a) =>
          if a.rcode == RCODE_NAME_ERROR {
            return Absent(NXDomain, []);
          }
          txts := a.txt;
        case Missing =>
          return Absent(NXDomain, []);
        case Failed(err) =>
          failure := Some(err);
      } else {
        asked := asked + [Question(name, TXT)];
        match res.lookup(Question(name, TXT))
        case Found(values) => txts := values;
        case NoSuchName => return Absent(NXDomain, []);
        case Broke(err) => failure := Some(err);
      }
      if failure.Some? {
        out := out.(tempError := failure.value, termsExact := false);
        return Unanswered(failure.value);
      }
      var recs := SelectRecords(txts);
      if |recs| == 0 {
        return Absent(NoRecord, []);
      }
      if |recs| > 1 {
        return Absent(Multiple, recs);
      }
      return One(recs[0]);
    }

    // EmptyAt, at the price of one question.
    method IsVoid(q: Question) returns (e: Emptiness)
      requires Valid()
      modifies this`asked, Shared()
      ensures Valid() && e == EmptyAt(View(), q)
      ensures asked == old(asked) + [q] && Saved() >= old(Saved())
    {
      if cache != null || res.Tracing? {
        var reply := Query(q);
        match reply
        case Answered(a) => return Known(a.Empty());
        case Missing => return Known(true);
        case Failed(err) => return Unknown(err);
      }
      asked := asked + [q];
      match res.lookup(q)
      case Found(values) => return Known(values == []);
      case NoSuchName => return Known(true);
      case Broke(err) => return Unknown(err);
    }

    method CountVoid()
      modifies this`out
      ensures out == VoidCounted(lim, old(out))
    {
      out := out.(void := out.void + 1);
      if out.void > lim.maxVoid && out.permError == NoError {
        out := out.(permError := OverVoidLimit);
      }
    }

    // A mechanism that costs a lookup but leads to no further record.
    method Terminal(domain: string, t: Term, depth: nat)
      requires Valid() && !halted && !Follows(t)
      modifies this`out, this`halted, this`asked, Shared()
      ensures Valid() && Saved() >= old(Saved())
      ensures var effect := TerminalEffect(View(), domain, t);
              Snap() == Applied(lim, Spend(domain, ValueOrDomain(t, domain), ViaFor(t), depth + 1, effect), old(Snap()))
    {
      hide Normalize, Trim, ValueOrDomain, HasMacro, EmptyAt, Logged, Noted, View;
      var target := ValueOrDomain(t, domain);
      var via := ViaFor(t);
      if HasMacro(t) {
        LogNode(domain, t.value, via, depth + 1, "", Macro);
        return;
      }
      var qtype := if t.name == "mx" then MX else A;
      if t.name == "ptr" {
        LogNode(domain, target, ViaPTR, depth + 1, "", Macro);
        return;
      }
      var e := IsVoid(Question(target, qtype));
      match e
      case Unknown(err) =>
        out := out.(tempError := err, termsExact := false);
        LogNode(domain, target, via, depth + 1, "", TempError);
        halted := true;
      case Known(empty) =>
        if empty {
          CountVoid();
          LogNode(domain, target, via, depth + 1, "", Void);
        } else {
          LogNode(domain, target, via, depth + 1, "", OK);
        }
    }

    // Membership in the first n names of the slice.
    method OnPath(path: array<string>, n: nat, target: string) returns (found: bool)
      requires n <= path.Length
      ensures found <==> target in path[..n]
    {
      for k := 0 to n
        invariant target !in path[..k]
      {
        if path[k] == target {
          assert target == path[..n][k];
          return true;
        }
      }
      return false;
    }

    // Looks a target's record up and logs what was found there.
    method Reach(parent: string, target: string, via: Via, depth: nat, ghost e: Event) returns (record: Option<string>)
      requires Valid() && !halted && target in seen
      requires e.Spend? && e.owner == parent && e.via == via && e.depth == depth + 1
      requires e.effect == match PublishedAt(View(), target)
                           case Unanswered(err) => RecordUnanswered(target, err)
                           case Absent(reason, _) => Unusable(target, reason)
                           case One(text) => Entered(target, text)
      modifies this`out, this`halted, this`asked, Shared()
      ensures Valid() && Saved() >= old(Saved())
      ensures Snap() == Applied(lim, e, old(Snap()))
      ensures record == if e.effect.Entered? then Some(e.effect.record) else None
    {
      hide PublishedAt, View, Logged;
      var published := Records(target);
      match published
      case Unanswered(_) =>
        LogNode(parent, target, via, depth + 1, "", TempError);
        halted := true;
        return None;
      case Absent(reason, _) =>
        out := out.(broken := out.broken + [Broken(parent, target, via, reason)]);
        if out.permError == NoError {
          out := out.(permError := IncludeNoRecord);
        }
        LogNode(parent, target, via, depth + 1, "", reason);
        return None;
      case One(text) =>
        LogNode(parent, target, via, depth + 1, text, OK);
        return Some(text);
    }

    // What can be settled about a target before it is looked up: it is missing,
    // already on the path, or too deep.
    method Settled(parent: string, target: string, via: Via, path: array<string>, n: nat, depth: nat, ghost e: Event)
      returns (done: bool)
      requires !halted && 0 < n <= path.Length && depth == n - 1
      requires e.Spend? && e == Spend(parent, e.named, via, n, FollowEffect(View(), lim.maxDepth, path[..n], target))
      modifies this`out, this`halted, this`seen
      ensures done <==> target == "" || target in path[..n] || n > lim.maxDepth
      ensures done ==> Snap() == Applied(lim, e, old(Snap()))
      ensures !done ==> Snap() == Noted(old(Snap()), target)
    {
      hide PublishedAt, View, Logged;
      if target == "" {
        out := out.(permError := Syntax);
        return true;
      }
      if target !in seen {
        seen := seen + {target};
        out := out.(includes := out.includes + [target]);
      }
      var cyclic := OnPath(path, n, target);
      if cyclic {
        out := out.(cycles := out.cycles + [path[..n] + [target]]);
        LogNode(parent, target, via, depth + 1, "", Cyclic);
        return true;
      }
      if depth + 1 > lim.maxDepth {
        out := out.(termsExact := false);
        LogNode(parent, target, via, depth + 1, "", Limit);
        halted := true;
        return true;
      }
      return false;
    }

    // The effect of an event already counted, and all of Below it.
    method Descend(parent: string, value: string, via: Via, path: array<string>, n: nat, depth: nat, ghost e: Event)
      requires Valid() && !halted && 0 < n <= path.Length && depth == n - 1 && parent == path[n - 1]
      requires Trail(View(), path[..n]) && Edge(View(), parent, Normalize(value))
      requires e.Spend? && e == Spend(parent, e.named, via, n, FollowEffect(View(), lim.maxDepth, path[..n], Normalize(value)))
      modifies this, path, Shared()
      ensures Valid() && Saved() >= old(Saved()) && path[..n] == old(path[..n])
      ensures Snap() == Replay(lim, Below(View(), lim.maxDepth, old(path[..n]), e.effect), Applied(lim, e, old(Snap())))
      decreases lim.maxDepth + 1 - n, 0
    {
      hide Normalize, RecordEvents, Replay, Applied, Parse, PublishedAt, View, Trail, Edge;
      ghost var names := path[..n];
      var target := Normalize(value);
      var done := Settled(parent, target, via, path, n, depth, e);
      if done {
        ReplayStops(lim, [], Snap());
        return;
      }
      NotedFirst(lim, e, old(Snap()), target);
      var record := Reach(parent, target, via, depth, e);
      if record.None? {
        ReplayStops(lim, [], Snap());
        return;
      }
      TrailExtends(View(), names, target);
      var longer := Append(path, n, target);
      Walk(target, record.value, longer, n + 1, depth + 1);
      assert longer[..n] == longer[..n + 1][..n] == names;
    }

    // The counting half of Step; within says that Applied is still to come.
    method CountTerm(domain: string, t: Term, depth: nat, ghost e: Event) returns (within: bool)
      requires !halted && e.Spend? && e == Spend(domain, ValueOrDomain(t, domain), ViaFor(t), depth + 1, e.effect)
      modifies this`out, this`halted
      ensures within ==> !halted && Step(lim, e, old(Snap())) == Applied(lim, e, Snap())
      ensures !within ==> halted && Step(lim, e, old(Snap())) == Snap()
    {
      hide ValueOrDomain, Logged, Applied;
      out := out.(terms := out.terms + 1);
      if out.terms > lim.maxTerms {
        out := out.(permError := OverTermLimit, termsExact := false);
        if !t.modifier {
          LogNode(domain, ValueOrDomain(t, domain), ViaFor(t), depth + 1, "", Limit);
        }
        halted := true;
        return false;
      }
      return true;
    }

    // Evaluates one costing term and all that lies below it.
    method SpendTerm(domain: string, t: Term, path: array<string>, n: nat, depth: nat)
      requires Valid() && !halted && 0 < n <= path.Length && depth == n - 1 && domain == path[n - 1]
      requires Trail(View(), path[..n]) && AmongCosted(View(), path[..n], [t])
      modifies this, path, Shared()
      ensures Valid() && Saved() >= old(Saved()) && path[..n] == old(path[..n])
      ensures var e := SpendOf(View(), lim.maxDepth, old(path[..n]), t);
              Snap() == Replay(lim, Below(View(), lim.maxDepth, old(path[..n]), e.effect), Step(lim, e, old(Snap())))
      decreases lim.maxDepth + 1 - n, 1
    {
      hide Normalize, Replay, Below, Step, Applied, ValueOrDomain, View, TerminalEffect, FollowEffect, ViaFor, Trail, Edge, AmongCosted;
      ghost var names := path[..n];
      ghost var e := SpendOf(View(), lim.maxDepth, names, t);
      var within := CountTerm(domain, t, depth, e);
      if !within {
        ReplayStops(lim, Below(View(), lim.maxDepth, names, e.effect), Snap());
        return;
      }
      if Follows(t) {
        CostedTermLeads(View(), names, t);
        Descend(domain, t.value, ViaFor(t), path, n, depth, e);
      } else {
        Terminal(domain, t, depth);
        BelowTerminal(lim, View(), names, t, Snap());
      }
    }

    // Replays RecordEvents, keeping Rest as what is still to be replayed.
    method Walk(domain: string, record: string, path: array<string>, n: nat, depth: nat)
      requires Valid() && 0 < n <= path.Length && depth == n - 1 && domain == path[n - 1]
      requires Trail(View(), path[..n]) && PublishedAt(View(), domain) == One(record)
      modifies this, path, Shared()
      ensures Valid() && Saved() >= old(Saved()) && path[..n] == old(path[..n])
      ensures Snap() == Replay(lim, RecordEvents(View(), lim.maxDepth, old(path[..n]), Parse(record)), old(Snap()))
      decreases lim.maxDepth + 1 - n, 2
    {
      hide Normalize, Parse, Spends, Replay, Below, Step, SpendOf, View, Ending, Trail, AmongCosted, PublishedAt, Counted;
      ghost var names := path[..n];
      ghost var goal := Replay(lim, RecordEvents(View(), lim.maxDepth, names, Parse(record)), Snap());
      if halted {
        ReplayStops(lim, RecordEvents(View(), lim.maxDepth, names, Parse(record)), Snap());
        return;
      }
      var terms := ParseRecord(record);
      var redirect: Option<Term> := None;
      assert terms[0..] == terms;
      CountedAmongCosted(View(), names, record);
      for i := 0 to |terms|
        invariant Valid() && Saved() >= old(Saved()) && path[..n] == names
        invariant redirect.Some? ==> redirect.value.modifier
        invariant AmongCosted(View(), names, Counted(terms[i..], redirect))
        invariant Replay(lim, Rest(View(), lim.maxDepth, names, terms[i..], redirect), Snap()) == goal
      {
        ghost var rest := terms[i..];
        CountedFirst(rest, redirect);
        if halted {
          ReplayStops(lim, Rest(View(), lim.maxDepth, names, rest, redirect), Snap());
          return;
        }
        var t := terms[i];
        assert rest[0] == t && rest[1..] == terms[i + 1..];
        if t.modifier {
          RestAfter(View(), lim.maxDepth, names, rest, redirect);
          if t.name == "redirect" {
            redirect := Some(t);
          }
          continue;
        }
        if t.name == "all" {
          RestAtAll(lim, View(), names, rest, redirect, Snap());
          if depth == 0 {
            out := out.(all := t.qualifier);
          }
          return;
        }
        if !CostsLookup(t) {
          RestAfter(View(), lim.maxDepth, names, rest, redirect);
          continue;
        }
        RestAtTerm(lim, View(), names, rest, redirect, Snap());
        AmongCostedSplit(View(), names, t, Counted(terms[i + 1..], redirect));
        SpendTerm(domain, t, path, n, depth);
      }
      assert terms[|terms|..] == [];
      RestAtEnd(lim, View(), names, redirect, Snap());
      CountedNone(redirect);
      if redirect.Some? && !halted {
        SpendTerm(domain, redirect.value, path, n, depth);
      }
    }
  }

  // Evaluation, directly or through a cache.
  method Evaluate(res: Resolver, cache: Cache?, lim: Limits, domain: string) returns (result: Result, ghost asked: seq<Question>)
    requires cache != null ==> cache.Valid() && cache.Coherent()
    modifies if cache == null then {} else {cache}
    ensures cache != null ==> cache.Valid() && cache.Coherent()
    ensures var view := if cache == null then res else Above(cache.inner);
            var run := Evaluation(view, lim, domain); result == run.out && asked == run.asked
    ensures cache != null ==> |cache.wire| - |old(cache.wire)| <= |asked|
  {
    hide Normalize, Parse, Replay, RecordEvents, PublishedAt, Logged, Trail, Above;
    var d := Normalize(domain);
    var st := new State(res, cache, lim, d);
    var published := st.Records(d);
    assert st.asked == [Question(d, TXT)];
    match published {
    case Unanswered(_) =>
    case Absent(reason, found) =>
      if reason == Multiple {
        st.out := st.out.(records := found, permError := MultipleRecords);
        st.LogNode("", d, ViaRoot, 0, "", Multiple);
      } else {
        st.LogNode("", d, ViaRoot, 0, "", reason);
      }
    case One(record) =>
      st.out := st.out.(records := [record], raw := record, found := true);
      st.LogNode("", d, ViaRoot, 0, record, OK);
      var path := new string[1](_ => d);
      assert path[..1] == [d];
      RootIsTrail(st.View(), d);
      st.Walk(d, record, path, 1, 0);
    }
    result := st.out;
    asked := st.asked;
  }
}

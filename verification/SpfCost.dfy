// The budget theorem: what the limited, early-stopping evaluation reports is a
// truncation of a plain recursive cost that knows nothing of limits
// (spf/evaluate.go against section 4.6.4 of RFC 7208).
module SpfCost {
  import opened Text
  import opened Dnsx
  import opened SpfTerms
  import opened SpfTree
  import opened SpfTrace

  // --------------------------------------------------- the terms that count

  function FirstAll(terms: seq<Term>): (i: nat)
    ensures i <= |terms|
  {
    if terms == [] || (!terms[0].modifier && terms[0].name == "all") then 0 else 1 + FirstAll(terms[1..])
  }

  function Costing(terms: seq<Term>): seq<Term> {
    if terms == [] then []
    else (if !terms[0].modifier && CostsLookup(terms[0]) then [terms[0]] else []) + Costing(terms[1..])
  }

  function LastRedirect(terms: seq<Term>): seq<Term> {
    if terms == [] then []
    else
      var last := terms[|terms| - 1];
      if last.modifier && last.name == "redirect" then [last] else LastRedirect(terms[..|terms| - 1])
  }

  // Section 5.1: nothing after "all" counts. Section 6.1: a redirect counts
  // only in a record without "all".
  function Costed(terms: seq<Term>): seq<Term> {
    var n := FirstAll(terms);
    Costing(terms[..n]) + if n == |terms| then LastRedirect(terms) else []
  }

  lemma {:induction false} LastRedirectFirst(t: Term, rest: seq<Term>)
    ensures LastRedirect([t] + rest) ==
            if LastRedirect(rest) != [] then LastRedirect(rest) else if t.modifier && t.name == "redirect" then [t] else []
  {
    var terms := [t] + rest;
    if rest == [] {
      assert terms[..0] == [];
    } else {
      assert terms[..|terms| - 1] == [t] + rest[..|rest| - 1];
      LastRedirectFirst(t, rest[..|rest| - 1]);
    }
  }

  lemma NoLastRedirect()
    ensures LastRedirect([]) == []
  {
  }

  lemma NoCosting()
    ensures Costing([]) == []
  {
  }

  lemma CostingFirst(t: Term, rest: seq<Term>, n: nat)
    requires n <= |rest|
    ensures Costing(([t] + rest)[..n + 1]) == (if !t.modifier && CostsLookup(t) then [t] else []) + Costing(rest[..n])
  {
    assert ([t] + rest)[..n + 1] == [t] + rest[..n];
  }

  // The left-to-right scan with a pending redirect finds exactly those terms.
  lemma {:induction false} CountedWithPending(terms: seq<Term>, redirect: Option<Term>)
    ensures var n := FirstAll(terms);
            Counted(terms, redirect) == Costing(terms[..n]) +
              if n < |terms| then []
              else if LastRedirect(terms) != [] then LastRedirect(terms)
              else if redirect.Some? then [redirect.value] else []
    decreases |terms|
  {
    hide CostsLookup, LastRedirect, Costing;
    if terms == [] {
      assert Costing([]) == [] by {
        NoCosting();
      }
      assert LastRedirect(terms) == [] by {
        NoLastRedirect();
      }
    } else {
      var t, rest := terms[0], terms[1..];
      assert terms == [t] + rest;
      LastRedirectFirst(t, rest);
      CountedWithPending(rest, if t.modifier && t.name == "redirect" then Some(t) else redirect);
      if t.modifier || t.name != "all" {
        CostingFirst(t, rest, FirstAll(rest));
      } else {
        assert terms[..0] == [];
        NoCosting();
      }
    }
  }

  lemma {:induction false} CountedIsCosted(terms: seq<Term>)
    ensures Counted(terms, None) == Costed(terms)
  {
    hide Counted, Costing;
    CountedWithPending(terms, None);
  }

  // ------------------------------------------------------------------- cost

  // The targets of the terms ts are all in names.
  ghost predicate TargetsIn(names: set<string>, ts: seq<Term>) {
    forall t :: t in ts && Follows(t) ==> Normalize(t.value) in names
  }

  // names is a finite part of the zone that its own records do not lead out of.
  ghost predicate Closed(r: Resolver, names: set<string>) {
    forall n :: n in names && PublishedAt(r, n).One? ==> TargetsIn(names, Costed(Parse(PublishedAt(r, n).record)))
  }

  function Elems(path: seq<string>): set<string> {
    set x | x in path
  }

  // The lookups the terms ts cost in full, given the names above them. It
  // terminates because every level uses up a name of the zone.
  ghost function Cost(r: Resolver, names: set<string>, path: seq<string>, ts: seq<Term>): nat
    requires Closed(r, names) && TargetsIn(names, ts)
    decreases names - Elems(path), 1, |ts|
  {
    if ts == [] then 0
    else
      assert ts[0] in ts && forall t :: t in ts[1..] ==> t in ts;
      1 + (if Follows(ts[0]) then CostBelow(r, names, path, Normalize(ts[0].value)) else 0)
        + Cost(r, names, path, ts[1..])
  }

  // The lookups spent inside a target: none for a name already on the path, or
  // for one without a usable record.
  ghost function CostBelow(r: Resolver, names: set<string>, path: seq<string>, target: string): nat
    requires Closed(r, names) && target in names
    decreases names - Elems(path), 0, 0
  {
    if target == "" || target in path || !PublishedAt(r, target).One? then 0
    else
      assert target in names - Elems(path) && target in Elems(path + [target]);
      Cost(r, names, path + [target], Costed(Parse(PublishedAt(r, target).record)))
  }

  // ----------------------------------------------------- counting the events

  function Spent(es: seq<Event>): nat {
    if es == [] then 0 else (if es[0].Spend? then 1 else 0) + Spent(es[1..])
  }

  predicate Deep(e: Event) {
    e.Spend? && e.effect.TooDeep?
  }

  predicate Shallow(es: seq<Event>) {
    forall e :: e in es ==> !Deep(e)
  }

  lemma {:induction false} SpentConcat(a: seq<Event>, b: seq<Event>)
    ensures Spent(a + b) == Spent(a) + Spent(b)
  {
    if a == [] {
      assert a + b == b;
    } else {
      assert (a + b)[1..] == a[1..] + b;
      SpentConcat(a[1..], b);
    }
  }

  lemma {:induction false} SpentEnding(path: seq<string>, terms: seq<Term>)
    ensures Spent(Ending(path, terms)) == 0 && Shallow(Ending(path, terms))
  {
  }

  // Cutting the tree at a depth never adds events, and adds up to the full cost
  // when nothing was cut.
  lemma {:induction false} SpentIsCost(r: Resolver, names: set<string>, maxDepth: int, path: seq<string>, ts: seq<Term>)
    requires path != [] && Closed(r, names) && TargetsIn(names, ts)
    ensures Spent(Spends(r, maxDepth, path, ts)) <= Cost(r, names, path, ts)
    ensures Shallow(Spends(r, maxDepth, path, ts)) ==> Spent(Spends(r, maxDepth, path, ts)) == Cost(r, names, path, ts)
    decreases names - Elems(path), 1, |ts|
  {
    hide Normalize, SpendOf, EffectOf, Below, CostBelow, Spends, PublishedAt;
    if ts == [] {
      NoSpends(r, maxDepth, path);
    } else {
      var e := SpendOf(r, maxDepth, path, ts[0]);
      var below := Below(r, maxDepth, path, e.effect);
      var rest := Spends(r, maxDepth, path, ts[1..]);
      SpendsFirst(r, maxDepth, path, ts);
      SpentConcat([e] + below, rest);
      SpentConcat([e], below);
      assert e in [e] && [e][1..] == [];
      ShallowConcat([e], below, rest);
      SpendIsEffect(r, maxDepth, path, ts[0]);
      assert ts[0] in ts && forall t :: t in ts[1..] ==> t in ts;
      SpentBelow(r, names, maxDepth, path, ts[0]);
      SpentIsCost(r, names, maxDepth, path, ts[1..]);
    }
  }

  lemma {:induction false} SpentBelow(r: Resolver, names: set<string>, maxDepth: int, path: seq<string>, t: Term)
    requires path != [] && Closed(r, names) && TargetsIn(names, [t])
    ensures var effect := EffectOf(r, maxDepth, path, t);
            var spent := Spent(Below(r, maxDepth, path, effect));
            assert t in [t];
            var cost := if Follows(t) then CostBelow(r, names, path, Normalize(t.value)) else 0;
            && spent <= cost
            && (Shallow(Below(r, maxDepth, path, effect)) && !effect.TooDeep? ==> spent == cost)
    decreases names - Elems(path), 0, 0
  {
    hide Normalize, Parse, PublishedAt, TerminalEffect, Counted, Costed, Ending, Spends, Cost, Spent;
    assert t in [t];
    var effect := EffectOf(r, maxDepth, path, t);
    assert Spent([]) == 0 by {
      NothingSpent();
    }
    if !Follows(t) {
      TerminalIsNotEntered(r, maxDepth, path, t);
    } else if effect.Entered? {
      var target := Normalize(t.value);
      var terms := Parse(effect.record);
      var inner := Spends(r, maxDepth, path + [target], Counted(terms, None));
      assert target in names - Elems(path) && target in Elems(path + [target]);
      CountedIsCosted(terms);
      SpentIsCost(r, names, maxDepth, path + [target], Counted(terms, None));
      SpentEnding(path + [target], terms);
      SpentConcat(inner, Ending(path + [target], terms));
      ShallowConcat(inner, Ending(path + [target], terms), []);
      assert inner + Ending(path + [target], terms) + [] == Below(r, maxDepth, path, effect);
    }
  }

  lemma NothingSpent()
    ensures Spent([]) == 0
  {
  }

  lemma SpendIsEffect(r: Resolver, maxDepth: int, path: seq<string>, t: Term)
    requires path != []
    ensures SpendOf(r, maxDepth, path, t).effect == EffectOf(r, maxDepth, path, t)
  {
  }

  lemma TerminalIsNotEntered(r: Resolver, maxDepth: int, path: seq<string>, t: Term)
    requires path != [] && !Follows(t)
    ensures !EffectOf(r, maxDepth, path, t).Entered? && !EffectOf(r, maxDepth, path, t).TooDeep?
  {
  }

  lemma {:induction false} ShallowConcat(a: seq<Event>, b: seq<Event>, c: seq<Event>)
    ensures Shallow(a + b + c) <==> Shallow(a) && Shallow(b) && Shallow(c)
  {
  }

  // ------------------------------------------------- depth is paid for in terms

  // With b terms spent before es, every term is at most one deeper than the
  // number of terms spent before it.
  predicate Paid(es: seq<Event>, b: nat) {
    es == [] || (if es[0].Spend? then es[0].depth <= b + 1 && Paid(es[1..], b + 1) else Paid(es[1..], b))
  }

  lemma {:induction false} PaidMore(es: seq<Event>, b: nat, c: nat)
    requires Paid(es, b) && b <= c
    ensures Paid(es, c)
    decreases |es|
  {
    if es != [] {
      if es[0].Spend? {
        PaidMore(es[1..], b + 1, c + 1);
      } else {
        PaidMore(es[1..], b, c);
      }
    }
  }

  lemma {:induction false} PaidConcat(a: seq<Event>, c: seq<Event>, b: nat)
    requires Paid(a, b) && Paid(c, b + Spent(a))
    ensures Paid(a + c, b)
    decreases |a|
  {
    if a == [] {
      assert a + c == c;
    } else {
      assert (a + c)[1..] == a[1..] + c;
      PaidConcat(a[1..], c, if a[0].Spend? then b + 1 else b);
    }
  }

  lemma {:induction false} SpendsPaid(r: Resolver, maxDepth: int, path: seq<string>, ts: seq<Term>)
    requires path != []
    ensures Paid(Spends(r, maxDepth, path, ts), |path| - 1)
    decreases maxDepth + 1 - |path|, 1, |ts|
  {
    hide Parse, SpendOf, EffectOf, Counted, Ending;
    if ts != [] {
      var e := SpendOf(r, maxDepth, path, ts[0]);
      var below := Below(r, maxDepth, path, e.effect);
      var rest := Spends(r, maxDepth, path, ts[1..]);
      SpendsFirst(r, maxDepth, path, ts);
      BelowPaid(r, maxDepth, path, e.effect);
      assert [e][1..] == [];
      assert Spent([e]) == 1;
      PaidConcat([e], below, |path| - 1);
      SpendsPaid(r, maxDepth, path, ts[1..]);
      PaidMore(rest, |path| - 1, |path| - 1 + Spent([e] + below));
      PaidConcat([e] + below, rest, |path| - 1);
    }
  }

  lemma {:induction false} BelowPaid(r: Resolver, maxDepth: int, path: seq<string>, effect: Effect)
    requires path != []
    ensures Paid(Below(r, maxDepth, path, effect), |path|)
    decreases maxDepth + 1 - |path|, 0, 0
  {
    hide Parse, Counted, RecordEvents, Spends;
    if effect.Entered? && |path| <= maxDepth {
      RecordPaid(r, maxDepth, path + [effect.target], Parse(effect.record));
    }
  }

  lemma PaidEnding(path: seq<string>, terms: seq<Term>, b: nat)
    ensures Paid(Ending(path, terms), b)
  {
  }

  lemma {:induction false} RecordPaid(r: Resolver, maxDepth: int, path: seq<string>, terms: seq<Term>)
    requires path != []
    ensures Paid(RecordEvents(r, maxDepth, path, terms), |path| - 1)
    decreases maxDepth + 1 - |path|, 2, 0
  {
    hide Counted, Spends, Ending, Paid, Spent;
    var es := Spends(r, maxDepth, path, Counted(terms, None));
    SpendsPaid(r, maxDepth, path, Counted(terms, None));
    PaidEnding(path, terms, |path| - 1 + Spent(es));
    PaidConcat(es, Ending(path, terms), |path| - 1);
  }

  // ------------------------------------------------------------ the theorem

  function Min(a: int, b: int): int {
    if a < b then a else b
  }

  predicate LimitNode(n: Node) {
    n.outcome == Limit
  }

  lemma RecordedFacts(lim: Limits, e: Event, out: Result)
    requires e.Spend?
    ensures var r := Recorded(lim, e, out);
            && r.terms == out.terms && r.nodes == out.nodes
            && r.termsExact == (out.termsExact && !Halts(e.effect))
            && r.tempError == (if Halts(e.effect) && !Deep(e) then e.effect.err else out.tempError)
  {
  }

  // What one event does to the count, to the flags and to the log.
  lemma {:induction false} StepFacts(lim: Limits, e: Event, s: Run)
    requires !s.halted
    ensures var s' := Step(lim, e, s);
            var over := e.Spend? && s.out.terms + 1 > lim.maxTerms;
            var stops := e.Spend? && Halts(e.effect);
            && s'.out.terms == s.out.terms + (if e.Spend? then 1 else 0)
            && (s'.halted <==> over || stops)
            && s'.out.termsExact == (s.out.termsExact && !s'.halted)
            && s'.out.tempError == (if stops && !Deep(e) && !over then e.effect.err else s.out.tempError)
            && (e.All? ==> s'.out.nodes == s.out.nodes)
            && (s'.out.nodes == s.out.nodes ||
                (|s'.out.nodes| == |s.out.nodes| + 1 && s'.out.nodes[..|s.out.nodes|] == s.out.nodes))
  {
    hide Recorded, OutcomeOf;
    if e.Spend? {
      var c := Counting(s);
      RecordedFacts(lim, e, (if IsListed(e.effect) then Noted(c, e.effect.target) else c).out);
    }
  }

  // Only a limit is logged as a limit.
  lemma {:induction false} StepLogs(r: Resolver, lim: Limits, e: Event, s: Run)
    requires !s.halted && e.Spend? && s.out.terms + 1 <= lim.maxTerms && !Deep(e) && Truthful(r, lim.maxDepth, e)
    ensures var s' := Step(lim, e, s);
            s'.out.nodes == s.out.nodes || !LimitNode(s'.out.nodes[|s'.out.nodes| - 1])
  {
    hide Recorded, EmptyAt, Records;
    RecordedFacts(lim, e, (if IsListed(e.effect) then Noted(Counting(s), e.effect.target) else Counting(s)).out);
  }

  predicate NoLimitNode(nodes: seq<Node>) {
    forall i :: 0 <= i < |nodes| ==> !LimitNode(nodes[i])
  }

  // Replaying events under a term limit no larger than the depth limit: the
  // depth limit is never the reason to stop.
  lemma {:induction false} ReplaySpends(r: Resolver, lim: Limits, es: seq<Event>, s: Run)
    requires !s.halted && 0 <= s.out.terms <= lim.maxTerms <= lim.maxDepth
    requires Paid(es, s.out.terms) && AllTruthful(r, lim.maxDepth, es)
    requires s.out.tempError == "" && s.out.termsExact && NoLimitNode(s.out.nodes)
    ensures var out := Replay(lim, es, s).out;
            && out.terms <= Min(lim.maxTerms + 1, s.out.terms + Spent(es))
            && (out.tempError == "" ==> out.terms == Min(lim.maxTerms + 1, s.out.terms + Spent(es)))
            && (out.termsExact <==> out.tempError == "" && out.terms <= lim.maxTerms)
            && (out.terms <= lim.maxTerms ==> NoLimitNode(out.nodes))
    decreases |es|
  {
    hide Step, Recorded;
    if es != [] {
      var e, rest := es[0], es[1..];
      var s' := Step(lim, e, s);
      StepFacts(lim, e, s);
      assert Truthful(r, lim.maxDepth, e);
      if e.Spend? && s'.out.terms <= lim.maxTerms {
        StepLogs(r, lim, e, s);
        assert NoLimitNode(s'.out.nodes) by {
          assert forall i :: 0 <= i < |s.out.nodes| ==> s'.out.nodes[i] == s.out.nodes[i] by {
            assert s'.out.nodes[..|s.out.nodes|] == s.out.nodes;
          }
        }
      }
      if s'.halted {
        ReplayStops(lim, rest, s');
      } else {
        ReplaySpends(r, lim, rest, s');
      }
    }
  }

  // All the events of a domain's own record.
  lemma {:induction false} TreeFacts(r: Resolver, names: set<string>, maxDepth: int, path: seq<string>, terms: seq<Term>)
    requires path != [] && Closed(r, names) && TargetsIn(names, Costed(terms))
    ensures var es := RecordEvents(r, maxDepth, path, terms); var cost := Cost(r, names, path, Costed(terms));
            && Paid(es, |path| - 1) && AllTruthful(r, maxDepth, es)
            && Spent(es) <= cost && (Shallow(es) ==> Spent(es) == cost)
  {
    hide Spends, Counted, Cost, Ending, Paid, Spent;
    var ts := Counted(terms, None);
    var es := Spends(r, maxDepth, path, ts);
    CountedIsCosted(terms);
    RecordPaid(r, maxDepth, path, terms);
    RecordIsTruthful(r, maxDepth, path, terms);
    SpentIsCost(r, names, maxDepth, path, ts);
    SpentEnding(path, terms);
    SpentConcat(es, Ending(path, terms));
    ShallowConcat(es, Ending(path, terms), []);
    assert es + Ending(path, terms) + [] == RecordEvents(r, maxDepth, path, terms);
  }

  // An event that was cut for depth is at most one deeper than the terms spent.
  lemma {:induction false} DeepCosts(r: Resolver, es: seq<Event>, b: nat, maxDepth: int)
    requires Paid(es, b) && AllTruthful(r, maxDepth, es)
    ensures Shallow(es) || b + Spent(es) > maxDepth
    decreases |es|
  {
    if es != [] {
      var rest := es[1..];
      DeepCosts(r, rest, if es[0].Spend? then b + 1 else b, maxDepth);
      assert es == [es[0]] + rest;
      assert Truthful(r, maxDepth, es[0]);
    }
  }

  // The full cost of a domain that publishes exactly one record.
  ghost function TreeCost(r: Resolver, names: set<string>, domain: string): nat
    requires Closed(r, names) && domain in names && PublishedAt(r, domain).One?
  {
    Cost(r, names, [domain], Costed(Parse(PublishedAt(r, domain).record)))
  }

  // For a domain with exactly one record and a depth limit no smaller than the
  // term limit, the evaluation reports the true cost of the tree cut off one
  // past the limit, says so exactly when it is the true cost, and never stops
  // for depth. When a lookup fails, what it reports is a lower bound and is
  // marked as one.
  lemma {:induction false} BudgetRefinement(r: Resolver, names: set<string>, lim: Limits, domain: string)
    requires Closed(r, names) && Normalize(domain) in names && 0 <= lim.maxTerms <= lim.maxDepth
    requires PublishedAt(r, Normalize(domain)).One?
    ensures var out := Evaluation(r, lim, domain).out; var cost := TreeCost(r, names, Normalize(domain));
            && (out.tempError == "" ==> out.terms == Min(lim.maxTerms + 1, cost))
            && (out.tempError == "" ==> (out.termsExact <==> cost <= lim.maxTerms))
            && (out.tempError != "" ==> out.terms <= Min(lim.maxTerms + 1, cost) && !out.termsExact)
            && (out.terms <= lim.maxTerms ==> NoLimitNode(out.nodes))
  {
    hide Normalize, Parse, RecordEvents, Cost, Costed, Replay, PublishedAt;
    var d := Normalize(domain);
    var record := PublishedAt(r, d).record;
    var terms := Parse(record);
    var es := RecordEvents(r, lim.maxDepth, [d], terms);
    var start := Entry(Run(Fresh(d, r.Tracing?), {}, false, [Question(d, TXT)]), record);
    TreeFacts(r, names, lim.maxDepth, [d], terms);
    DeepCosts(r, es, 0, lim.maxDepth);
    ReplaySpends(r, lim, es, start);
  }

  // Events replayed under any limits: a run still exact at its end has spent
  // every one of them, and none was cut for depth.
  lemma {:induction false} ReplayIsBounded(lim: Limits, es: seq<Event>, s: Run)
    requires s.out.termsExact == !s.halted && s.out.terms <= lim.maxTerms
    ensures var out := Replay(lim, es, s).out;
            && out.terms <= Min(lim.maxTerms + 1, s.out.terms + Spent(es))
            && (out.termsExact ==> out.terms == s.out.terms + Spent(es) && Shallow(es))
    decreases |es|
  {
    hide Step;
    if es != [] && !s.halted {
      var e, rest := es[0], es[1..];
      var s' := Step(lim, e, s);
      StepFacts(lim, e, s);
      assert es == [e] + rest;
      if s'.halted {
        ReplayStops(lim, rest, s');
      } else {
        ReplayIsBounded(lim, rest, s');
      }
    }
  }

  // Whatever the depth limit, Terms is a lower bound of the true cost, and is the
  // true cost when it is marked exact.
  lemma {:induction false} TermsIsALowerBound(r: Resolver, names: set<string>, lim: Limits, domain: string)
    requires Closed(r, names) && Normalize(domain) in names && 0 <= lim.maxTerms
    requires PublishedAt(r, Normalize(domain)).One?
    ensures var out := Evaluation(r, lim, domain).out; var cost := TreeCost(r, names, Normalize(domain));
            && out.terms <= Min(lim.maxTerms + 1, cost)
            && (out.termsExact ==> out.terms == cost)
  {
    hide Normalize, Parse, RecordEvents, Cost, Costed, Replay, PublishedAt, Spent, Shallow;
    var d := Normalize(domain);
    var record := PublishedAt(r, d).record;
    var terms := Parse(record);
    var es := RecordEvents(r, lim.maxDepth, [d], terms);
    var start := Entry(Run(Fresh(d, r.Tracing?), {}, false, [Question(d, TXT)]), record);
    TreeFacts(r, names, lim.maxDepth, [d], terms);
    ReplayIsBounded(lim, es, start);
  }
}

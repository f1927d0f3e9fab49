// The summaries of a result say what its node log says (spf/evaluate.go,
// spf/tree.go): Broken, Void and Cycles can be read off the nodes, MaxDepth is
// the greatest depth there, and Includes is the include and redirect targets paid
// for, each once, in the order they were first reached.
module SpfSummary {
  import opened Text
  import opened Dnsx
  import opened SpfTerms
  import opened SpfTree
  import opened SpfTrace
  import opened SpfShape

  predicate IsBroken(n: Node) {
    n.via in {ViaInclude, ViaRedirect} && n.outcome in {NoRecord, NXDomain, Multiple}
  }

  // The broken targets a log shows, in order.
  function BrokenNodes(nodes: seq<Node>): seq<Broken> {
    if nodes == [] then []
    else
      var n := nodes[|nodes| - 1];
      BrokenNodes(nodes[..|nodes| - 1]) + if IsBroken(n) then [Broken(n.parent, n.target, n.via, n.outcome)] else []
  }

  // The targets logged with an outcome, in order.
  function TargetsWith(nodes: seq<Node>, outcome: Outcome): seq<string> {
    if nodes == [] then []
    else
      var n := nodes[|nodes| - 1];
      TargetsWith(nodes[..|nodes| - 1], outcome) + if n.outcome == outcome then [n.target] else []
  }

  function Lasts(cycles: seq<seq<string>>): seq<string>
    requires forall c :: c in cycles ==> c != []
  {
    seq(|cycles|, i requires 0 <= i < |cycles| => assert cycles[i] in cycles; cycles[i][|cycles[i]| - 1])
  }

  function Deepest(nodes: seq<Node>): nat {
    if nodes == [] then 0
    else
      var rest := Deepest(nodes[..|nodes| - 1]);
      if nodes[|nodes| - 1].depth > rest then nodes[|nodes| - 1].depth else rest
  }

  ghost predicate Told(out: Result) {
    && out.broken == BrokenNodes(out.nodes)
    && out.void == |TargetsWith(out.nodes, Void)|
    && (forall c :: c in out.cycles ==> c != []) && Lasts(out.cycles) == TargetsWith(out.nodes, Cyclic)
    && out.maxDepth == Deepest(out.nodes)
  }

  // An include or redirect target that a term within the limit was spent on.
  predicate Visits(n: Node, maxTerms: int) {
    n.via in {ViaInclude, ViaRedirect} && n.termAt <= maxTerms
  }

  // The targets visited, each where it was first reached.
  function FirstVisits(nodes: seq<Node>, maxTerms: int): seq<string> {
    if nodes == [] then []
    else
      var n := nodes[|nodes| - 1];
      var rest := FirstVisits(nodes[..|nodes| - 1], maxTerms);
      if Visits(n, maxTerms) && n.target !in rest then rest + [n.target] else rest
  }

  // Each target visited is there once, and one reached earlier stands earlier.
  lemma {:induction false} FirstVisitsAreInOrder(nodes: seq<Node>, maxTerms: int, k: nat)
    requires k <= |nodes|
    ensures var l := FirstVisits(nodes, maxTerms);
            && Distinct(l) && FirstVisits(nodes[..k], maxTerms) <= l
            && forall t :: t in l <==> exists n :: n in nodes && Visits(n, maxTerms) && n.target == t
    decreases |nodes|
  {
    if nodes != [] {
      var most, n := nodes[..|nodes| - 1], nodes[|nodes| - 1];
      assert nodes == most + [n];
      FirstVisitsAreInOrder(most, maxTerms, if k < |nodes| then k else 0);
      assert k < |nodes| ==> most[..k] == nodes[..k];
      assert k == |nodes| ==> nodes[..k] == nodes;
    }
  }

  ghost predicate Listed(lim: Limits, s: Run) {
    s.out.includes == FirstVisits(s.out.nodes, lim.maxTerms) && forall t :: t in s.out.includes <==> t in s.seen
  }

  ghost predicate Consistent(lim: Limits, s: Run) {
    Told(s.out) && Listed(lim, s)
  }

  lemma LogAppends(nodes: seq<Node>, n: Node)
    ensures BrokenNodes(nodes + [n]) == BrokenNodes(nodes) + if IsBroken(n) then [Broken(n.parent, n.target, n.via, n.outcome)] else []
    ensures forall o :: TargetsWith(nodes + [n], o) == TargetsWith(nodes, o) + if n.outcome == o then [n.target] else []
    ensures Deepest(nodes + [n]) == if n.depth > Deepest(nodes) then n.depth else Deepest(nodes)
  {
  }

  lemma RecordedSummary(lim: Limits, e: Event, out: Result)
    requires e.Spend?
    ensures var o := Recorded(lim, e, out);
            && o.broken == out.broken + (if e.effect.Unusable? then [Broken(e.owner, e.effect.target, e.via, e.effect.reason)] else [])
            && o.void == out.void + (if e.effect.AddressVoid? then 1 else 0)
            && o.cycles == out.cycles + (if e.effect.Cycle? then [e.effect.cycle] else [])
            && o.maxDepth == out.maxDepth && o.includes == out.includes && o.nodes == out.nodes && o.terms == out.terms
  {
  }

  // What an event's effect says about the way it was reached.
  predicate WellReached(e: Event) {
    e.Spend? ==>
      && (e.effect.Unusable? ==> e.via in {ViaInclude, ViaRedirect} && e.effect.reason in {NoRecord, NXDomain, Multiple})
      && (IsListed(e.effect) <==> e.via in {ViaInclude, ViaRedirect} && !e.effect.NoTarget?)
      && (e.effect.Cycle? ==> e.effect.cycle != [] && e.effect.cycle[|e.effect.cycle| - 1] == e.effect.target)
  }

  lemma NotedAside(s: Run, target: string)
    ensures Noted(s, target).out == s.out.(includes := Noted(s, target).out.includes)
  {
  }

  lemma FirstVisitsAppend(nodes: seq<Node>, n: Node, maxTerms: int)
    ensures var rest := FirstVisits(nodes, maxTerms);
            FirstVisits(nodes + [n], maxTerms) ==
              if Visits(n, maxTerms) && n.target !in rest then rest + [n.target] else rest
  {
  }

  // A target is noted exactly when its node is one to be listed.
  lemma {:induction false} AppliedLists(lim: Limits, e: Event, s: Run)
    requires e.Spend? && WellReached(e) && Listed(lim, s) && s.out.terms <= lim.maxTerms
    ensures Listed(lim, Applied(lim, e, s))
  {
    hide Recorded, OutcomeOf, FirstVisits, AskedBy, Halts;
    var n := if IsListed(e.effect) then Noted(s, e.effect.target) else s;
    RecordedSummary(lim, e, n.out);
    if !e.effect.NoTarget? {
      FirstVisitsAppend(s.out.nodes, Node(|s.out.nodes|, e.owner, e.effect.target, e.via, e.depth, s.out.terms,
                                          if e.effect.Entered? then e.effect.record else "", OutcomeOf(e.effect)), lim.maxTerms);
    }
  }

  // One event's findings and its node keep each other.
  lemma {:induction false} FindingsAreTold(lim: Limits, e: Event, out: Result)
    requires e.Spend? && WellReached(e) && Told(out)
    ensures Told(WithNode(e, Recorded(lim, e, out)))
  {
    hide Recorded, BrokenNodes, TargetsWith, Deepest;
    RecordedSummary(lim, e, out);
    if !e.effect.NoTarget? {
      var node := Node(|out.nodes|, e.owner, e.effect.target, e.via, e.depth, Recorded(lim, e, out).terms,
                       if e.effect.Entered? then e.effect.record else "", OutcomeOf(e.effect));
      LogAppends(out.nodes, node);
      LastsAppend(out.cycles, if e.effect.Cycle? then [e.effect.cycle] else []);
    }
  }

  lemma IncludesAside(out: Result, other: Result)
    requires Told(out) && other == out.(includes := other.includes)
    ensures Told(other)
  {
  }

  lemma {:induction false} AppliedKeeps(lim: Limits, e: Event, s: Run)
    requires e.Spend? && WellReached(e) && Consistent(lim, s) && s.out.terms <= lim.maxTerms
    ensures Consistent(lim, Applied(lim, e, s))
  {
    hide Recorded, Noted, Told, Listed, WithNode, WellReached;
    var n := if IsListed(e.effect) then Noted(s, e.effect.target) else s;
    if IsListed(e.effect) {
      NotedAside(s, e.effect.target);
      IncludesAside(s.out, n.out);
    }
    FindingsAreTold(lim, e, n.out);
    AppliedLists(lim, e, s);
  }

  lemma LastsAppend(a: seq<seq<string>>, b: seq<seq<string>>)
    requires forall c :: c in a + b ==> c != []
    ensures forall c :: c in a ==> c != []
    ensures forall c :: c in b ==> c != []
    ensures Lasts(a + b) == Lasts(a) + Lasts(b)
  {
    assert forall c :: c in a ==> c in a + b;
    assert forall c :: c in b ==> c in a + b;
  }

  lemma {:induction false} StepKeeps(lim: Limits, e: Event, s: Run)
    requires WellReached(e) && Consistent(lim, s)
    ensures Consistent(lim, Step(lim, e, s))
  {
    hide Applied, BrokenNodes, TargetsWith, Deepest, FirstVisits, WellReached;
    if e.Spend? {
      if s.out.terms + 1 > lim.maxTerms {
        var node := Node(|s.out.nodes|, e.owner, e.named, e.via, e.depth, s.out.terms + 1, "", Limit);
        LogAppends(s.out.nodes, node);
        FirstVisitsAppend(s.out.nodes, node, lim.maxTerms);
      } else {
        AppliedKeeps(lim, e, Counting(s));
      }
    }
  }

  lemma {:induction false} ReplayKeeps(lim: Limits, es: seq<Event>, s: Run)
    requires (forall e :: e in es ==> WellReached(e)) && Consistent(lim, s)
    ensures Consistent(lim, Replay(lim, es, s))
    decreases |es|
  {
    hide Step, Consistent, WellReached;
    if es != [] && !s.halted {
      StepKeeps(lim, es[0], s);
      ReplayKeeps(lim, es[1..], Step(lim, es[0], s));
    }
  }

  lemma SpendIsWellReached(r: Resolver, maxDepth: int, path: seq<string>, t: Term)
    requires path != []
    ensures WellReached(SpendOf(r, maxDepth, path, t))
  {
    hide Normalize, Records, EmptyAt, ValueOrDomain;
  }

  lemma {:induction false} EventsAreWellReached(r: Resolver, maxDepth: int, path: seq<string>, ts: seq<Term>)
    requires path != []
    ensures forall e :: e in Spends(r, maxDepth, path, ts) ==> WellReached(e)
    decreases maxDepth + 1 - |path|, |ts|
  {
    hide SpendOf, WellReached, Spends, Counted, Parse;
    if ts == [] {
      NoSpends(r, maxDepth, path);
    } else {
      var e := SpendOf(r, maxDepth, path, ts[0]);
      SpendsFirst(r, maxDepth, path, ts);
      SpendIsWellReached(r, maxDepth, path, ts[0]);
      EventsAreWellReached(r, maxDepth, path, ts[1..]);
      if e.effect.Entered? && |path| <= maxDepth {
        var longer, terms := path + [e.effect.target], Parse(e.effect.record);
        EventsAreWellReached(r, maxDepth, longer, Counted(terms, None));
        EndingIsWellReached(longer, terms);
      }
    }
  }

  lemma EndingIsWellReached(path: seq<string>, terms: seq<Term>)
    ensures forall e :: e in Ending(path, terms) ==> WellReached(e)
  {
  }

  lemma {:induction false} SummariesMatchTheLog(r: Resolver, lim: Limits, domain: string)
    ensures Consistent(lim, Evaluation(r, lim, domain))
  {
    hide Normalize, Parse, Replay, Spends, Counted, Records, Ending;
    var d := Normalize(domain);
    var published := PublishedAt(r, d);
    if published.One? {
      var terms := Parse(published.record);
      var start := Entry(Run(Fresh(d, r.Tracing?), {}, false, [Question(d, TXT)]), published.record);
      EventsAreWellReached(r, lim.maxDepth, [d], Counted(terms, None));
      EndingIsWellReached([d], terms);
      RootIsConsistent(lim, start);
      ReplayKeeps(lim, RecordEvents(r, lim.maxDepth, [d], terms), start);
    } else if published.Absent? {
      RootIsConsistent(lim, Evaluation(r, lim, domain));
    }
  }

  lemma RootIsConsistent(lim: Limits, s: Run)
    requires |s.out.nodes| == 1 && s.out.nodes[0].via == ViaRoot && s.out.nodes[0].depth == 0
    requires s.out.nodes[0].outcome !in {Void, Cyclic}
    requires s.out.broken == [] && s.out.void == 0 && s.out.cycles == [] && s.out.maxDepth == 0 && s.out.includes == [] && s.seen == {}
    ensures Consistent(lim, s)
  {
  }

  // -------------------------------------------------------------- the root's all

  lemma {:induction false} SpendsOnly(r: Resolver, maxDepth: int, path: seq<string>, ts: seq<Term>)
    requires path != []
    ensures forall e :: e in Spends(r, maxDepth, path, ts) ==> e.Spend?
    decreases maxDepth + 1 - |path|, |ts|
  {
    hide SpendOf, Spends, Counted, Parse, AllQualifier;
    if ts == [] {
      NoSpends(r, maxDepth, path);
    } else {
      var e := SpendOf(r, maxDepth, path, ts[0]);
      SpendsFirst(r, maxDepth, path, ts);
      SpendsOnly(r, maxDepth, path, ts[1..]);
      if e.effect.Entered? && |path| <= maxDepth {
        SpendsOnly(r, maxDepth, path + [e.effect.target], Counted(Parse(e.effect.record), None));
      }
    }
  }

  lemma RecordedAll(lim: Limits, e: Event, out: Result)
    requires e.Spend?
    ensures Recorded(lim, e, out).all == out.all
  {
  }

  lemma {:induction false} ReplayLeavesAll(lim: Limits, es: seq<Event>, s: Run)
    requires forall e :: e in es ==> e.Spend?
    ensures Replay(lim, es, s).out.all == s.out.all
    decreases |es|
  {
    hide Recorded, OutcomeOf;
    if es != [] && !s.halted {
      var e, c := es[0], Counting(s);
      assert e in es;
      RecordedAll(lim, e, (if IsListed(e.effect) then Noted(c, e.effect.target) else c).out);
      ReplayLeavesAll(lim, es[1..], Step(lim, e, s));
    }
  }

  // The "all" of a domain's record is reported exactly when the evaluation gets
  // as far as reading it: an evaluation cut short reports none.
  lemma {:induction false} AllIsReachedOrAbsent(r: Resolver, lim: Limits, domain: string)
    requires PublishedAt(r, Normalize(domain)).One?
    ensures var run := Evaluation(r, lim, domain);
            var q := AllQualifier(Parse(PublishedAt(r, Normalize(domain)).record));
            run.out.all == if run.halted then "" else q.GetOr("")
  {
    hide Normalize, Parse, Replay, Spends, Counted, PublishedAt, AllQualifier;
    var d := Normalize(domain);
    var record := PublishedAt(r, d).record;
    var terms := Parse(record);
    var es := Spends(r, lim.maxDepth, [d], Counted(terms, None));
    var start := Entry(Run(Fresh(d, r.Tracing?), {}, false, [Question(d, TXT)]), record);
    SpendsOnly(r, lim.maxDepth, [d], Counted(terms, None));
    ReplayLeavesAll(lim, es, start);
    ReplayConcat(lim, es, Ending([d], terms), start);
    var mid := Replay(lim, es, start);
    var ending := Ending([d], terms);
    if ending == [] || mid.halted {
      ReplayStops(lim, ending, mid);
    } else {
      ReplayOne(lim, ending[0], mid);
      assert ending == [ending[0]];
    }
  }

  lemma ReplayOne(lim: Limits, e: Event, s: Run)
    requires !s.halted
    ensures Replay(lim, [e], s) == Step(lim, e, s)
  {
    hide Step;
  }
}

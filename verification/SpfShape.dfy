// What the node log and the cycle reports of an evaluation look like: the log
// is a tree in preorder, paid for one term per node, and every reported cycle
// is a real one (spf/evaluate.go).
module SpfShape {
  import opened Text
  import opened Dnsx
  import opened SpfTerms
  import opened SpfTree
  import opened SpfTrace
  import opened SpfCost

  // ------------------------------------------------------------ names and edges

  // The record at a names b as an include or redirect target that counts.
  ghost predicate Edge(r: Resolver, a: string, b: string) {
    PublishedAt(r, a).One? &&
    exists t :: t in Costed(Parse(PublishedAt(r, a).record)) && Follows(t) && Normalize(t.value) == b
  }

  predicate Distinct(path: seq<string>) {
    forall i, j :: 0 <= i < j < |path| ==> path[i] != path[j]
  }

  ghost predicate Chain(r: Resolver, path: seq<string>) {
    forall i :: 0 < i < |path| ==> Edge(r, path[i - 1], path[i])
  }

  // A duplicate-free chain that ends in a name with one record.
  ghost predicate Trail(r: Resolver, path: seq<string>) {
    path != [] && Distinct(path) && Chain(r, path) && PublishedAt(r, path[|path| - 1]).One?
  }

  // A chain of edges whose only repeated name is its last.
  ghost predicate RealCycle(r: Resolver, cycle: seq<string>) {
    |cycle| >= 2 && Chain(r, cycle) && Distinct(cycle[..|cycle| - 1]) && cycle[|cycle| - 1] in cycle[..|cycle| - 1]
  }

  ghost predicate RealCycles(r: Resolver, cycles: seq<seq<string>>) {
    forall c :: c in cycles ==> RealCycle(r, c)
  }

  // -------------------------------------------------------------------- the log

  predicate HoldsRecord(n: Node) {
    n.outcome == OK && n.via in {ViaRoot, ViaInclude, ViaRedirect}
  }

  // Node j is the record that node i was found in: one level up, with nothing
  // but deeper nodes in between.
  predicate IsParent(nodes: seq<Node>, j: int, i: int) {
    0 <= j < i < |nodes| && HoldsRecord(nodes[j]) && nodes[j].depth == nodes[i].depth - 1 &&
    nodes[j].target == nodes[i].parent && forall k :: j < k < i ==> nodes[k].depth >= nodes[i].depth
  }

  ghost predicate HasParent(nodes: seq<Node>, i: int) {
    exists j :: IsParent(nodes, j, i)
  }

  ghost predicate Preorder(nodes: seq<Node>, terms: int) {
    && nodes != [] && nodes[0].depth == 0 && nodes[0].via == ViaRoot && nodes[0].termAt == 0
    && (forall i :: 0 <= i < |nodes| ==> nodes[i].seqNo == i && nodes[i].depth <= nodes[i].termAt <= terms)
    && (forall i, j :: 0 <= i < j < |nodes| ==> nodes[i].termAt < nodes[j].termAt)
    && (forall i :: 0 < i < |nodes| ==> HasParent(nodes, i))
    && |nodes| <= nodes[|nodes| - 1].termAt + 1
  }

  // The node of the record at depth d that is still being read.
  predicate IsOpen(nodes: seq<Node>, j: int, d: nat, name: string) {
    0 <= j < |nodes| && HoldsRecord(nodes[j]) && nodes[j].depth == d && nodes[j].target == name &&
    forall k :: j < k < |nodes| ==> nodes[k].depth > d
  }

  ghost predicate HasOpen(nodes: seq<Node>, d: nat, name: string) {
    exists j :: IsOpen(nodes, j, d, name)
  }

  ghost predicate Spine(nodes: seq<Node>, path: seq<string>) {
    forall d :: 0 <= d < |path| ==> HasOpen(nodes, d, path[d])
  }

  lemma SpineShorter(nodes: seq<Node>, path: seq<string>, target: string)
    requires Spine(nodes, path + [target])
    ensures Spine(nodes, path)
  {
    forall d | 0 <= d < |path| ensures HasOpen(nodes, d, path[d]) {
      assert path[d] == (path + [target])[d];
    }
  }

  // Node j is a record above node i: it was still being read when i was logged.
  predicate IsAbove(nodes: seq<Node>, j: int, i: int) {
    0 <= j < i < |nodes| && HoldsRecord(nodes[j]) && nodes[j].depth < nodes[i].depth &&
    forall k :: j < k < i ==> nodes[k].depth > nodes[j].depth
  }

  // A name is the target of a record above node i.
  ghost predicate OnBranch(nodes: seq<Node>, i: int, name: string) {
    exists j :: IsAbove(nodes, j, i) && nodes[j].target == name
  }

  predicate FollowsTarget(n: Node) {
    n.via in {ViaInclude, ViaRedirect} && n.outcome != Limit
  }

  // A target is logged as a cycle exactly when it is above itself. Reaching a
  // name twice down two branches is not a cycle.
  ghost predicate CyclesExact(nodes: seq<Node>) {
    forall i :: 0 <= i < |nodes| && FollowsTarget(nodes[i]) ==>
      (nodes[i].outcome == Cyclic <==> OnBranch(nodes, i, nodes[i].target))
  }

  ghost predicate Shape(r: Resolver, s: Run, path: seq<string>) {
    && Preorder(s.out.nodes, s.out.terms) && Spine(s.out.nodes, path) && CyclesExact(s.out.nodes)
    && Trail(r, path) && RealCycles(r, s.out.cycles)
  }

  // The node an event leaves, if any.
  function LoggedNode(lim: Limits, e: Event, s: Run): seq<Node>
    requires e.Spend?
  {
    var terms := s.out.terms + 1;
    if terms > lim.maxTerms then
      if e.via == ViaRedirect then []
      else [Node(|s.out.nodes|, e.owner, e.named, e.via, e.depth, terms, "", Limit)]
    else if e.effect.NoTarget? then []
    else [Node(|s.out.nodes|, e.owner, e.effect.target, e.via, e.depth, terms,
               if e.effect.Entered? then e.effect.record else "", OutcomeOf(e.effect))]
  }

  lemma StepLogsNode(lim: Limits, e: Event, s: Run)
    requires e.Spend?
    ensures Step(lim, e, s).out.nodes == s.out.nodes + LoggedNode(lim, e, s)
    ensures Step(lim, e, s).out.cycles ==
            s.out.cycles + if e.effect.Cycle? && s.out.terms + 1 <= lim.maxTerms then [e.effect.cycle] else []
  {
    hide OutcomeOf, Recorded, Applied;
    if s.out.terms + 1 <= lim.maxTerms {
      AppliedLogs(lim, e, Counting(s));
    }
  }

  lemma AppliedLogs(lim: Limits, e: Event, c: Run)
    requires e.Spend?
    ensures Applied(lim, e, c).out.nodes == c.out.nodes +
              if e.effect.NoTarget? then []
              else [Node(|c.out.nodes|, e.owner, e.effect.target, e.via, e.depth, c.out.terms,
                         if e.effect.Entered? then e.effect.record else "", OutcomeOf(e.effect))]
    ensures Applied(lim, e, c).out.cycles == c.out.cycles + if e.effect.Cycle? then [e.effect.cycle] else []
  {
    hide OutcomeOf, Recorded;
    var n := (if IsListed(e.effect) then Noted(c, e.effect.target) else c).out;
    RecordedFacts(lim, e, n);
    RecordedCycles(lim, e, n);
  }

  lemma RecordedCycles(lim: Limits, e: Event, out: Result)
    requires e.Spend?
    ensures Recorded(lim, e, out).cycles == out.cycles + if e.effect.Cycle? then [e.effect.cycle] else []
  {
  }

  // ------------------------------------------------------- what one node keeps

  lemma {:induction false} AppendPreorder(nodes: seq<Node>, terms: int, path: seq<string>, n: Node)
    requires Preorder(nodes, terms) && Spine(nodes, path) && path != []
    requires n.seqNo == |nodes| && n.depth == |path| && n.termAt == terms + 1 && n.parent == path[|path| - 1]
    ensures Preorder(nodes + [n], terms + 1) && Spine(nodes + [n], path)
    ensures HoldsRecord(n) ==> Spine(nodes + [n], path + [n.target])
  {
    var more := nodes + [n];
    var d := |path| - 1;
    assert HasOpen(nodes, d, path[d]);
    var j :| IsOpen(nodes, j, d, path[d]);
    assert IsParent(more, j, |nodes|);
    forall i | 0 < i < |more| ensures HasParent(more, i) {
      if i < |nodes| {
        assert HasParent(nodes, i);
        var k :| IsParent(nodes, k, i);
        assert IsParent(more, k, i);
      }
    }
    forall c | 0 <= c < |path| ensures HasOpen(more, c, path[c]) {
      assert HasOpen(nodes, c, path[c]);
      var k :| IsOpen(nodes, k, c, path[c]);
      assert IsOpen(more, k, c, path[c]);
    }
    if HoldsRecord(n) {
      var longer := path + [n.target];
      assert IsOpen(more, |nodes|, |path|, n.target);
      forall c | 0 <= c < |longer| ensures HasOpen(more, c, longer[c]) {
        assert c < |path| ==> longer[c] == path[c] && HasOpen(more, c, path[c]);
      }
    }
  }

  // The records above a node logged now are those of the path.
  lemma {:induction false} AboveIsPath(nodes: seq<Node>, path: seq<string>, n: Node)
    requires Spine(nodes, path) && n.depth == |path|
    ensures OnBranch(nodes + [n], |nodes|, n.target) <==> n.target in path
  {
    var more := nodes + [n];
    if n.target in path {
      var d :| 0 <= d < |path| && path[d] == n.target;
      assert HasOpen(nodes, d, path[d]);
      var j :| IsOpen(nodes, j, d, path[d]);
      assert IsAbove(more, j, |nodes|) && more[j].target == n.target;
    }
    if OnBranch(more, |nodes|, n.target) {
      var j :| IsAbove(more, j, |nodes|) && more[j].target == n.target;
      var d := nodes[j].depth;
      assert HasOpen(nodes, d, path[d]);
      var k :| IsOpen(nodes, k, d, path[d]);
      assert more[j] == nodes[j] && more[k] == nodes[k];
      assert j == k;
    }
  }

  lemma {:induction false} AppendCycles(nodes: seq<Node>, path: seq<string>, n: Node)
    requires Spine(nodes, path) && CyclesExact(nodes) && n.depth == |path|
    requires FollowsTarget(n) ==> (n.outcome == Cyclic <==> n.target in path)
    ensures CyclesExact(nodes + [n])
  {
    var more := nodes + [n];
    AboveIsPath(nodes, path, n);
    forall i | 0 <= i < |nodes| && FollowsTarget(more[i])
      ensures more[i].outcome == Cyclic <==> OnBranch(more, i, more[i].target)
    {
      EarlierBranch(nodes, n, i, nodes[i].target);
    }
  }

  lemma {:induction false} EarlierBranch(nodes: seq<Node>, n: Node, i: nat, name: string)
    requires i < |nodes|
    ensures OnBranch(nodes + [n], i, name) <==> OnBranch(nodes, i, name)
  {
    var more := nodes + [n];
    assert forall j :: 0 <= j < |nodes| ==> more[j] == nodes[j];
    if OnBranch(more, i, name) {
      var j :| IsAbove(more, j, i) && more[j].target == name;
      assert IsAbove(nodes, j, i);
    }
    if OnBranch(nodes, i, name) {
      var j :| IsAbove(nodes, j, i) && nodes[j].target == name;
      assert IsAbove(more, j, i);
    }
  }

  lemma {:induction false} MoreTerms(nodes: seq<Node>, terms: int, more: int)
    requires Preorder(nodes, terms) && terms <= more
    ensures Preorder(nodes, more)
  {
  }

  lemma {:induction false} ChainAppend(r: Resolver, path: seq<string>, target: string)
    requires path != [] && Chain(r, path) && Edge(r, path[|path| - 1], target)
    ensures Chain(r, path + [target])
  {
    hide Edge;
  }

  lemma {:induction false} TrailExtends(r: Resolver, path: seq<string>, target: string)
    requires Trail(r, path) && Edge(r, path[|path| - 1], target)
    ensures target !in path && PublishedAt(r, target).One? ==> Trail(r, path + [target])
    ensures target in path ==> RealCycle(r, path + [target])
  {
    hide Edge, PublishedAt;
    ChainAppend(r, path, target);
    assert (path + [target])[..|path|] == path;
  }

  // The terms ts are among those that count in the record at the end of path.
  ghost predicate AmongCosted(r: Resolver, path: seq<string>, ts: seq<Term>) {
    path != [] && PublishedAt(r, path[|path| - 1]).One? &&
    forall t :: t in ts ==> t in Costed(Parse(PublishedAt(r, path[|path| - 1]).record))
  }

  lemma EffectFacts(r: Resolver, maxDepth: int, path: seq<string>, t: Term)
    requires path != []
    ensures var e := SpendOf(r, maxDepth, path, t);
            && e.owner == path[|path| - 1] && e.via == ViaFor(t)
            && (e.effect.Entered? ==> Follows(t) && e.effect.target == Normalize(t.value) && e.effect.target !in path &&
                                      PublishedAt(r, e.effect.target) == One(e.effect.record))
            && (e.effect.Cycle? ==> Follows(t) && Normalize(t.value) in path && e.effect.cycle == path + [Normalize(t.value)])
            && (e.effect.Entered? ==> e.via in {ViaInclude, ViaRedirect} && OutcomeOf(e.effect) == OK)
            && (e.via in {ViaInclude, ViaRedirect} && !e.effect.NoTarget? ==>
                  (OutcomeOf(e.effect) == Cyclic <==> e.effect.target in path))
  {
    hide Normalize, Records, EmptyAt, ValueOrDomain;
    SpendIsTruthful(r, maxDepth, path, t);
  }

  lemma {:induction false} StepKeepsShape(r: Resolver, lim: Limits, path: seq<string>, t: Term, s: Run)
    requires Shape(r, s, path) && AmongCosted(r, path, [t]) && !s.halted
    ensures var e := SpendOf(r, lim.maxDepth, path, t); var s' := Step(lim, e, s);
            Shape(r, s', path) && (e.effect.Entered? && !s'.halted ==> Shape(r, s', path + [e.effect.target]))
  {
    hide Normalize, Parse, PublishedAt, Costed, SpendOf, Applied, Preorder, Spine, CyclesExact, Logged, OutcomeOf;
    var domain := path[|path| - 1];
    var e := SpendOf(r, lim.maxDepth, path, t);
    var s' := Step(lim, e, s);
    assert t in [t];
    EffectFacts(r, lim.maxDepth, path, t);
    StepLogsNode(lim, e, s);
    StepFacts(lim, e, s);
    if e.effect.Entered? || e.effect.Cycle? {
      assert Edge(r, domain, Normalize(t.value));
      TrailExtends(r, path, Normalize(t.value));
    }
    var logged := LoggedNode(lim, e, s);
    if logged == [] {
      MoreTerms(s.out.nodes, s.out.terms, s'.out.terms);
    } else {
      AppendPreorder(s.out.nodes, s.out.terms, path, logged[0]);
      AppendCycles(s.out.nodes, path, logged[0]);
    }
  }

  lemma {:induction false} RunKeepsShape(r: Resolver, lim: Limits, path: seq<string>, ts: seq<Term>, s: Run)
    requires Shape(r, s, path) && AmongCosted(r, path, ts)
    ensures Shape(r, Replay(lim, Spends(r, lim.maxDepth, path, ts), s), path)
    decreases lim.maxDepth + 1 - |path|, 1, |ts|
  {
    hide Shape, SpendOf, EffectOf, Step, Spends, Below, Replay, Parse, PublishedAt, Costed;
    if ts == [] || s.halted {
      NoSpends(r, lim.maxDepth, path);
      ReplayStops(lim, Spends(r, lim.maxDepth, path, ts), s);
    } else {
      var e := SpendOf(r, lim.maxDepth, path, ts[0]);
      var s' := Step(lim, e, s);
      SpendFirst(lim, r, path, ts, [], s);
      assert Spends(r, lim.maxDepth, path, ts) + [] == Spends(r, lim.maxDepth, path, ts);
      assert Spends(r, lim.maxDepth, path, ts[1..]) + [] == Spends(r, lim.maxDepth, path, ts[1..]);
      assert ts[0] in ts && forall t :: t in ts[1..] ==> t in ts;
      StepKeepsShape(r, lim, path, ts[0], s);
      BelowKeepsShape(r, lim, path, ts[0], s');
      RunKeepsShape(r, lim, path, ts[1..], Replay(lim, Below(r, lim.maxDepth, path, e.effect), s'));
    }
  }

  lemma {:induction false} BelowKeepsShape(r: Resolver, lim: Limits, path: seq<string>, t: Term, s: Run)
    requires path != [] && Shape(r, s, path)
    requires var e := SpendOf(r, lim.maxDepth, path, t);
             e.effect.Entered? && !s.halted ==> Shape(r, s, path + [e.effect.target])
    ensures var e := SpendOf(r, lim.maxDepth, path, t);
            Shape(r, Replay(lim, Below(r, lim.maxDepth, path, e.effect), s), path)
    decreases lim.maxDepth + 1 - |path|, 0, 0
  {
    hide Preorder, Spine, CyclesExact, Trail, SpendOf, Step, Spends, Replay, Parse, PublishedAt, Normalize;
    var effect := SpendOf(r, lim.maxDepth, path, t).effect;
    var below := Below(r, lim.maxDepth, path, effect);
    if below == [] || s.halted {
      ReplayStops(lim, below, s);
    } else {
      EffectFacts(r, lim.maxDepth, path, t);
      var longer := path + [effect.target];
      RecordKeepsShape(r, lim, longer, effect.record, s);
      SpineShorter(Replay(lim, below, s).out.nodes, path, effect.target);
    }
  }

  lemma {:induction false} RecordKeepsShape(r: Resolver, lim: Limits, path: seq<string>, record: string, s: Run)
    requires Shape(r, s, path) && path != [] && PublishedAt(r, path[|path| - 1]) == One(record)
    ensures Shape(r, Replay(lim, RecordEvents(r, lim.maxDepth, path, Parse(record)), s), path)
    decreases lim.maxDepth + 1 - |path|, 2, 0
  {
    hide Preorder, Spine, CyclesExact, Trail, Spends, Replay, Parse, PublishedAt, Counted, Costed, Ending;
    var terms := Parse(record);
    CountedIsCosted(terms);
    var es := Spends(r, lim.maxDepth, path, Counted(terms, None));
    ReplayConcat(lim, es, Ending(path, terms), s);
    RunKeepsShape(r, lim, path, Counted(terms, None), s);
    ReplayEnding(lim, path, terms, Replay(lim, es, s));
  }

  lemma {:induction false} ReplayEnding(lim: Limits, path: seq<string>, terms: seq<Term>, s: Run)
    ensures var s' := Replay(lim, Ending(path, terms), s);
            s'.out.nodes == s.out.nodes && s'.out.terms == s.out.terms && s'.out.cycles == s.out.cycles
  {
  }

  // ------------------------------------------------------------- the theorems

  // The node log of any evaluation is a preorder tree whose nodes are numbered
  // in order and paid for one term each, and its cycles are real.
  lemma {:induction false} EvaluationShape(r: Resolver, lim: Limits, domain: string)
    ensures var out := Evaluation(r, lim, domain).out;
            && (out.nodes != [] ==> Preorder(out.nodes, out.terms))
            && (out.nodes == [] <==> PublishedAt(r, Normalize(domain)).Unanswered?)
            && |out.nodes| <= out.terms + 1
            && CyclesExact(out.nodes) && RealCycles(r, out.cycles)
  {
    hide Normalize, Parse, Replay, RecordEvents, PublishedAt;
    var d := Normalize(domain);
    var published := PublishedAt(r, d);
    if published.One? {
      var start := Entry(Run(Fresh(d, r.Tracing?), {}, false, [Question(d, TXT)]), published.record);
      assert IsOpen(start.out.nodes, 0, 0, d) && HasOpen(start.out.nodes, 0, d);
      assert Shape(r, start, [d]);
      RecordKeepsShape(r, lim, [d], published.record, start);
    }
  }
}

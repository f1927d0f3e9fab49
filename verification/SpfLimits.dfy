// Raising the term limit only ever lets an evaluation see more, and a depth limit
// beyond the term limit changes nothing (spf/evaluate.go).
module SpfLimits {
  import opened Text
  import opened Dnsx
  import opened SpfTerms
  import opened SpfTree
  import opened SpfTrace
  import opened SpfCost

  // Everything recorded in a is recorded, first and in the same order, in b.
  ghost predicate Extends(a: Run, b: Run) {
    && a.out.nodes <= b.out.nodes
    && a.out.broken <= b.out.broken
    && a.out.cycles <= b.out.cycles
    && a.out.includes <= b.out.includes
    && a.asked <= b.asked
    && a.out.void <= b.out.void
    && a.out.terms <= b.out.terms
  }

  function WithoutLimitNode(nodes: seq<Node>): seq<Node> {
    if nodes != [] && LimitNode(nodes[|nodes| - 1]) then nodes[..|nodes| - 1] else nodes
  }

  // What remains of a run once the mark left by the limit is taken away.
  function Seen(s: Run): Run {
    s.(out := s.out.(nodes := WithoutLimitNode(s.out.nodes)))
  }

  lemma RecordedExtends(lim: Limits, e: Event, out: Result)
    requires e.Spend?
    ensures var o := Recorded(lim, e, out);
            && out.broken <= o.broken && out.cycles <= o.cycles && out.includes == o.includes
            && out.nodes == o.nodes && out.void <= o.void && out.terms == o.terms
  {
  }

  lemma NotedExtends(s: Run, target: string)
    ensures s.out.includes <= Noted(s, target).out.includes
    ensures Noted(s, target).out == s.out.(includes := Noted(s, target).out.includes)
  {
  }

  lemma WithNodeExtends(e: Event, out: Result)
    requires e.Spend?
    ensures out.nodes <= WithNode(e, out).nodes
    ensures var o := WithNode(e, out); o == out.(nodes := o.nodes, maxDepth := o.maxDepth)
  {
  }

  // Counting aside, every event adds to what is recorded.
  lemma {:induction false} CountingExtends(lim: Limits, e: Event, s: Run)
    requires e.Spend?
    ensures Extends(Counting(s), Step(lim, e, s))
  {
    hide Recorded, WithNode, Noted, AskedBy, Halts;
    var c := Counting(s);
    var n := if IsListed(e.effect) then Noted(c, e.effect.target) else c;
    if IsListed(e.effect) {
      NotedExtends(c, e.effect.target);
    }
    RecordedExtends(lim, e, n.out);
    WithNodeExtends(e, Recorded(lim, e, n.out));
  }

  lemma {:induction false} StepExtends(lim: Limits, e: Event, s: Run)
    ensures Extends(s, Step(lim, e, s))
  {
    hide Applied, Exceeded;
    if e.Spend? {
      CountingExtends(lim, e, s);
    }
  }

  lemma {:induction false} ReplayExtends(lim: Limits, es: seq<Event>, s: Run)
    ensures Extends(s, Replay(lim, es, s))
    decreases |es|
  {
    hide Step;
    if es != [] && !s.halted {
      StepExtends(lim, es[0], s);
      ReplayExtends(lim, es[1..], Step(lim, es[0], s));
    }
  }

  lemma RecordedAlike(low: Limits, high: Limits, e: Event, out: Result)
    requires e.Spend? && low.maxVoid == high.maxVoid
    ensures Recorded(low, e, out) == Recorded(high, e, out)
  {
  }

  // One event under two limits: the same, unless it is over the lower one.
  lemma {:induction false} StepAlike(low: Limits, high: Limits, e: Event, s: Run)
    requires high == low.(maxTerms := high.maxTerms) && low.maxTerms <= high.maxTerms
    requires !e.Spend? || s.out.terms + 1 <= low.maxTerms
    ensures Step(low, e, s) == Step(high, e, s)
  {
    hide OutcomeOf, Recorded, WithNode, AskedBy;
    if e.Spend? {
      var c := Counting(s);
      RecordedAlike(low, high, e, (if IsListed(e.effect) then Noted(c, e.effect.target) else c).out);
    }
  }

  // Over the limit, an event leaves no more than its count and the limit's mark.
  lemma {:induction false} StepOver(lim: Limits, e: Event, s: Run)
    requires e.Spend? && s.out.terms + 1 > lim.maxTerms
    ensures Step(lim, e, s).halted && Step(lim, e, s).out.terms > lim.maxTerms
    ensures Extends(Seen(Step(lim, e, s)), Counting(s))
  {
    hide Applied;
  }

  lemma {:induction false} ReplayUnderTwoLimits(low: Limits, high: Limits, es: seq<Event>, s: Run)
    requires high == low.(maxTerms := high.maxTerms) && low.maxTerms <= high.maxTerms
    ensures var a := Replay(low, es, s); var b := Replay(high, es, s);
            && (a.out.terms <= low.maxTerms ==> a == b)
            && Extends(Seen(a), b)
    decreases |es|
  {
    hide Step;
    if es == [] || s.halted {
    } else {
      var e, rest := es[0], es[1..];
      if e.Spend? && s.out.terms + 1 > low.maxTerms {
        StepOver(low, e, s);
        ReplayStops(low, rest, Step(low, e, s));
        CountingExtends(high, e, s);
        ReplayExtends(high, rest, Step(high, e, s));
      } else {
        StepAlike(low, high, e, s);
        ReplayUnderTwoLimits(low, high, rest, Step(low, e, s));
      }
    }
  }

  // Failures included: the lower limit's run is the higher one's, cut short;
  // and when the lower limit is not exceeded the two results are the same.
  lemma {:induction false} LimitMonotone(r: Resolver, low: Limits, high: Limits, domain: string)
    requires high == low.(maxTerms := high.maxTerms) && low.maxTerms <= high.maxTerms
    ensures var a := Evaluation(r, low, domain); var b := Evaluation(r, high, domain);
            && (a.out.terms <= low.maxTerms ==> a == b)
            && Extends(Seen(a), b)
  {
    hide Normalize, Parse, Replay, RecordEvents, PublishedAt;
    var d := Normalize(domain);
    var published := PublishedAt(r, d);
    if published.One? {
      var start := Entry(Run(Fresh(d, r.Tracing?), {}, false, [Question(d, TXT)]), published.record);
      ReplayUnderTwoLimits(low, high, RecordEvents(r, low.maxDepth, [d], Parse(published.record)), start);
    }
  }

  // ------------------------------------------------------------ depth limits

  // A depth limit does nothing to the replay of events already listed.
  lemma {:induction false} ReplayIgnoresDepth(lim: Limits, deep: int, es: seq<Event>, s: Run)
    ensures Replay(lim.(maxDepth := deep), es, s) == Replay(lim, es, s)
    decreases |es|
  {
    hide Step;
    if es != [] && !s.halted {
      StepIgnoresDepth(lim, deep, es[0], s);
      ReplayIgnoresDepth(lim, deep, es[1..], Step(lim, es[0], s));
    }
  }

  lemma StepIgnoresDepth(lim: Limits, deep: int, e: Event, s: Run)
    ensures Step(lim.(maxDepth := deep), e, s) == Step(lim, e, s)
  {
    hide OutcomeOf, Recorded, WithNode, AskedBy;
    if e.Spend? {
      var c := Counting(s);
      RecordedAlike(lim, lim.(maxDepth := deep), e, (if IsListed(e.effect) then Noted(c, e.effect.target) else c).out);
    }
  }

  // A term on a path no deeper than the terms spent: either it is over the term
  // limit, or neither depth limit is in its way.
  lemma {:induction false} StepAtTwoDepths(r: Resolver, lim: Limits, a: int, b: int, path: seq<string>, t: Term, s: Run)
    requires path != [] && |path| - 1 <= s.out.terms && lim.maxTerms <= a && lim.maxTerms <= b
    ensures var e, f := SpendOf(r, a, path, t), SpendOf(r, b, path, t); var s' := Step(lim, e, s);
            && s' == Step(lim, f, s) && s'.out.terms == s.out.terms + 1
            && (s'.halted || (e == f && (e.effect.Entered? ==> |path| <= a && |path| <= b)))
  {
    hide Normalize, PublishedAt, TerminalEffect, Applied, ValueOrDomain;
    var e := SpendOf(r, a, path, t);
    if s.out.terms + 1 <= lim.maxTerms {
      assert e == SpendOf(r, b, path, t);
      AppliedTerms(lim, e, Counting(s));
    }
  }

  lemma AppliedTerms(lim: Limits, e: Event, c: Run)
    requires e.Spend?
    ensures Applied(lim, e, c).out.terms == c.out.terms
  {
    hide Recorded, OutcomeOf;
    RecordedFacts(lim, e, (if IsListed(e.effect) then Noted(c, e.effect.target) else c).out);
  }

  lemma {:induction false} SpendsAtTwoDepths(r: Resolver, lim: Limits, a: int, b: int, path: seq<string>, ts: seq<Term>, s: Run)
    requires path != [] && |path| - 1 <= s.out.terms && lim.maxTerms <= a && lim.maxTerms <= b
    ensures Replay(lim, Spends(r, a, path, ts), s) == Replay(lim, Spends(r, b, path, ts), s)
    decreases a + 1 - |path|, 1, |ts|
  {
    hide SpendOf, Step, Spends, Below, Replay, RecordEvents;
    if ts == [] || s.halted {
      NoSpends(r, a, path);
      NoSpends(r, b, path);
      ReplayStops(lim, Spends(r, a, path, ts), s);
      ReplayStops(lim, Spends(r, b, path, ts), s);
    } else {
      var e, f := SpendOf(r, a, path, ts[0]), SpendOf(r, b, path, ts[0]);
      var s' := Step(lim, e, s);
      StepAtTwoDepths(r, lim, a, b, path, ts[0], s);
      SpendFirstAt(lim, r, a, path, ts, s);
      SpendFirstAt(lim, r, b, path, ts, s);
      BelowAtTwoDepths(r, lim, a, b, path, e.effect, f.effect, s');
      ReplayExtends(lim, Below(r, a, path, e.effect), s');
      SpendsAtTwoDepths(r, lim, a, b, path, ts[1..], Replay(lim, Below(r, a, path, e.effect), s'));
    }
  }

  // The first term, when the tree was cut at a depth other than the limits'.
  lemma {:induction false} SpendFirstAt(lim: Limits, r: Resolver, deep: int, path: seq<string>, ts: seq<Term>, s: Run)
    requires path != [] && ts != [] && !s.halted
    ensures var e := SpendOf(r, deep, path, ts[0]);
            Replay(lim, Spends(r, deep, path, ts), s)
            == Replay(lim, Spends(r, deep, path, ts[1..]), Replay(lim, Below(r, deep, path, e.effect), Step(lim, e, s)))
  {
    hide SpendOf, Step, Spends, Below, Replay;
    var e := SpendOf(r, deep, path, ts[0]);
    var below, rest := Below(r, deep, path, e.effect), Spends(r, deep, path, ts[1..]);
    SpendsFirst(r, deep, path, ts);
    assert Spends(r, deep, path, ts) == [e] + (below + rest);
    ReplayFirst(lim, e, below + rest, s);
    ReplayConcat(lim, below, rest, Step(lim, e, s));
  }

  lemma {:induction false} BelowAtTwoDepths(r: Resolver, lim: Limits, a: int, b: int, path: seq<string>,
                                            e: Effect, f: Effect, s: Run)
    requires path != [] && |path| <= s.out.terms && lim.maxTerms <= a && lim.maxTerms <= b
    requires s.halted || (e == f && (e.Entered? ==> |path| <= a && |path| <= b))
    ensures Replay(lim, Below(r, a, path, e), s) == Replay(lim, Below(r, b, path, f), s)
    decreases a + 1 - |path|, 0, 0
  {
    hide Spends, Replay, Parse, Counted, Ending;
    if s.halted {
      ReplayStops(lim, Below(r, a, path, e), s);
      ReplayStops(lim, Below(r, b, path, f), s);
    } else if e.Entered? {
      var longer, terms := path + [e.target], Parse(e.record);
      RecordAtTwoDepths(r, lim, a, b, longer, terms, s);
    }
  }

  lemma {:induction false} RecordAtTwoDepths(r: Resolver, lim: Limits, a: int, b: int, path: seq<string>, terms: seq<Term>, s: Run)
    requires path != [] && |path| - 1 <= s.out.terms && lim.maxTerms <= a && lim.maxTerms <= b
    ensures Replay(lim, RecordEvents(r, a, path, terms), s) == Replay(lim, RecordEvents(r, b, path, terms), s)
    decreases a + 1 - |path|, 2, 0
  {
    hide Spends, Replay, Counted, Ending;
    var ts := Counted(terms, None);
    SpendsAtTwoDepths(r, lim, a, b, path, ts, s);
    ReplayConcat(lim, Spends(r, a, path, ts), Ending(path, terms), s);
    ReplayConcat(lim, Spends(r, b, path, ts), Ending(path, terms), s);
  }

  // A depth limit no smaller than the term limit cannot be told from any other
  // such, in any field or in the questions asked.
  lemma {:induction false} DepthIsImmaterial(r: Resolver, lim: Limits, deep: int, domain: string)
    requires lim.maxTerms <= lim.maxDepth && lim.maxTerms <= deep
    ensures Evaluation(r, lim.(maxDepth := deep), domain) == Evaluation(r, lim, domain)
  {
    hide Normalize, Parse, Replay, RecordEvents, PublishedAt;
    var d := Normalize(domain);
    var published := PublishedAt(r, d);
    if published.One? {
      var start := Entry(Run(Fresh(d, r.Tracing?), {}, false, [Question(d, TXT)]), published.record);
      var terms := Parse(published.record);
      RecordAtTwoDepths(r, lim, lim.maxDepth, deep, [d], terms, start);
      ReplayIgnoresDepth(lim, deep, RecordEvents(r, deep, [d], terms), start);
    }
  }
}

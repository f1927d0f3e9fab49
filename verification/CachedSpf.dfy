// Whether a cache between the evaluator and the resolver can be noticed
// (dnsx/cache/cache.go and spf/evaluate.go together). Method Evaluate of module
// SpfEvaluate is proved to compute Evaluation(Above(inner)) through a cache in
// any coherent state; here that is compared with Evaluation(inner).
module CachedSpf {
  import opened Text
  import opened Dnsx
  import opened SpfTerms
  import opened SpfTree
  import opened SpfTrace
  import opened SpfCost
  import opened SpfVerdict
  import opened SpfLimits
  import opened SpfRecords
  import Shape = SpfShape
  import opened Caching

  // ------------------------------------------- what a reply means to the walk

  // Two answers about a name that an including record cannot tell apart.
  predicate Alike(a: Published, b: Published) {
    match (a, b)
    case (Unanswered(e), Unanswered(f)) => e == f
    case (Absent(x, _), Absent(y, _)) => x == y
    case (One(x), One(y)) => x == y
    case _ => false
  }

  predicate Agree(r1: Resolver, r2: Resolver, q: Question) {
    if q.qtype == TXT then Alike(PublishedAt(r1, q.name), PublishedAt(r2, q.name))
    else EmptyAt(r1, q) == EmptyAt(r2, q)
  }

  // Agreement on every question but the first, which is about the domain itself.
  ghost predicate AgreeOn(r1: Resolver, r2: Resolver, asked: seq<Question>) {
    forall i :: 1 <= i < |asked| ==> Agree(r1, r2, asked[i])
  }

  lemma AgreeOnPrefix(r1: Resolver, r2: Resolver, a: seq<Question>, b: seq<Question>)
    requires a <= b && AgreeOn(r1, r2, b)
    ensures AgreeOn(r1, r2, a)
  {
    hide Agree;
  }

  // Two effects whose traces in a result differ.
  predicate ToldApart(a: Effect, b: Effect) {
    !a.NoTarget? && !b.NoTarget? &&
    (OutcomeOf(a) != OutcomeOf(b) ||
     (a.Entered? && b.Entered? && a.record != b.record) ||
     (Halts(a) && Halts(b) && !a.TooDeep? && !b.TooDeep? && a.err != b.err))
  }

  // A term's effect is fixed by the one question it asks, and tells.
  lemma EffectIsExact(r1: Resolver, r2: Resolver, maxDepth: int, path: seq<string>, t: Term)
    requires path != []
    ensures var a, b := EffectOf(r1, maxDepth, path, t), EffectOf(r2, maxDepth, path, t);
            && |AskedBy(a)| <= 1
            && (AskedBy(a) == [] || Agree(r1, r2, AskedBy(a)[0]) ==> a == b)
            && (AskedBy(a) != [] && !Agree(r1, r2, AskedBy(a)[0]) ==> ToldApart(a, b))
  {
    hide Normalize, Records, ValueOrDomain;
    if Follows(t) {
      FollowIsExact(r1, r2, maxDepth, path, Normalize(t.value));
    }
  }

  lemma FollowIsExact(r1: Resolver, r2: Resolver, maxDepth: int, path: seq<string>, target: string)
    requires path != []
    ensures var a, b := FollowEffect(r1, maxDepth, path, target), FollowEffect(r2, maxDepth, path, target);
            && |AskedBy(a)| <= 1
            && (AskedBy(a) == [] || Agree(r1, r2, AskedBy(a)[0]) ==> a == b)
            && (AskedBy(a) != [] && !Agree(r1, r2, AskedBy(a)[0]) ==> ToldApart(a, b))
  {
    hide Records;
  }

  // Two runs that no further events can make equal again.
  ghost predicate Diverged(a: Run, b: Run) {
    (exists i :: 0 <= i < |a.out.nodes| && i < |b.out.nodes| && a.out.nodes[i] != b.out.nodes[i]) ||
    (a.halted && b.halted && a.out.tempError != b.out.tempError)
  }

  lemma {:induction false} DivergedStays(lim: Limits, es: seq<Event>, a: Run, fs: seq<Event>, b: Run)
    requires Diverged(a, b)
    ensures Diverged(Replay(lim, es, a), Replay(lim, fs, b))
  {
    hide Replay;
    if a.halted && b.halted && a.out.tempError != b.out.tempError {
      ReplayStops(lim, es, a);
      ReplayStops(lim, fs, b);
    } else {
      var i :| 0 <= i < |a.out.nodes| && i < |b.out.nodes| && a.out.nodes[i] != b.out.nodes[i];
      ReplayExtends(lim, es, a);
      ReplayExtends(lim, fs, b);
      assert Replay(lim, es, a).out.nodes[i] == a.out.nodes[i];
      assert Replay(lim, fs, b).out.nodes[i] == b.out.nodes[i];
    }
  }

  lemma {:induction false} StepTells(lim: Limits, a: Event, b: Event, s: Run)
    requires a.Spend? && b.Spend? && a == b.(effect := a.effect) && ToldApart(a.effect, b.effect)
    requires !s.halted && s.out.terms + 1 <= lim.maxTerms
    ensures Diverged(Step(lim, a, s), Step(lim, b, s))
  {
    hide OutcomeOf, Step;
    var s1, s2 := Step(lim, a, s), Step(lim, b, s);
    Shape.StepLogsNode(lim, a, s);
    Shape.StepLogsNode(lim, b, s);
    StepFacts(lim, a, s);
    StepFacts(lim, b, s);
    var n := |s.out.nodes|;
    assert s1.out.nodes[n] == Shape.LoggedNode(lim, a, s)[0] && s2.out.nodes[n] == Shape.LoggedNode(lim, b, s)[0];
  }

  // One term, asked of two resolvers.
  lemma {:induction false} StepIsExact(r1: Resolver, r2: Resolver, lim: Limits, path: seq<string>, t: Term, s: Run)
    requires path != [] && !s.halted && s.asked != [] && AgreeOn(r1, r2, s.asked)
    ensures var e1, e2 := SpendOf(r1, lim.maxDepth, path, t), SpendOf(r2, lim.maxDepth, path, t);
            var s1, s2 := Step(lim, e1, s), Step(lim, e2, s);
            && s.asked <= s1.asked
            && (AgreeOn(r1, r2, s1.asked) ==> s1 == s2 && (s1.halted || e1 == e2))
            && (!AgreeOn(r1, r2, s1.asked) ==> Diverged(s1, s2))
  {
    hide Normalize, Parse, ValueOrDomain, EffectOf, AskedBy, Recorded, OutcomeOf, Agree, ToldApart, Diverged, Logged;
    var e1, e2 := SpendOf(r1, lim.maxDepth, path, t), SpendOf(r2, lim.maxDepth, path, t);
    var s1 := Step(lim, e1, s);
    if s.out.terms + 1 <= lim.maxTerms {
      EffectIsExact(r1, r2, lim.maxDepth, path, t);
      assert s1.asked == s.asked + AskedBy(e1.effect);
      var n := |s.asked|;
      if AskedBy(e1.effect) == [] {
        assert s1.asked == s.asked;
      } else {
        assert s1.asked[n] == AskedBy(e1.effect)[0];
        assert forall i :: 0 <= i < n ==> s1.asked[i] == s.asked[i];
        if !Agree(r1, r2, s1.asked[n]) {
          StepTells(lim, e1, e2, s);
        }
      }
    }
  }

  lemma {:induction false} RunIsExact(r1: Resolver, r2: Resolver, lim: Limits, path: seq<string>, ts: seq<Term>, s: Run)
    requires path != [] && s.asked != [] && AgreeOn(r1, r2, s.asked)
    ensures var a, b := Replay(lim, Spends(r1, lim.maxDepth, path, ts), s), Replay(lim, Spends(r2, lim.maxDepth, path, ts), s);
            && (AgreeOn(r1, r2, a.asked) ==> a == b)
            && (!AgreeOn(r1, r2, a.asked) ==> Diverged(a, b))
    decreases lim.maxDepth + 1 - |path|, 1, |ts|
  {
    hide SpendOf, Step, Spends, Below, Replay, AgreeOn, Diverged;
    var es1, es2 := Spends(r1, lim.maxDepth, path, ts), Spends(r2, lim.maxDepth, path, ts);
    if ts == [] || s.halted {
      NoSpends(r1, lim.maxDepth, path);
      NoSpends(r2, lim.maxDepth, path);
      ReplayStops(lim, es1, s);
      ReplayStops(lim, es2, s);
    } else {
      var e1, e2 := SpendOf(r1, lim.maxDepth, path, ts[0]), SpendOf(r2, lim.maxDepth, path, ts[0]);
      var below1, below2 := Below(r1, lim.maxDepth, path, e1.effect), Below(r2, lim.maxDepth, path, e2.effect);
      var rest1, rest2 := Spends(r1, lim.maxDepth, path, ts[1..]), Spends(r2, lim.maxDepth, path, ts[1..]);
      var s1, s2 := Step(lim, e1, s), Step(lim, e2, s);
      var mid1, mid2 := Replay(lim, below1, s1), Replay(lim, below2, s2);
      assert es1 + [] == es1 && es2 + [] == es2 && rest1 + [] == rest1 && rest2 + [] == rest2;
      SpendFirst(lim, r1, path, ts, [], s);
      SpendFirst(lim, r2, path, ts, [], s);
      ReplayExtends(lim, rest1, mid1);
      StepIsExact(r1, r2, lim, path, ts[0], s);
      ThenBelow(r1, r2, lim, path, e1, e2, s1, s2);
      if AgreeOn(r1, r2, mid1.asked) {
        RunIsExact(r1, r2, lim, path, ts[1..], mid1);
      } else {
        DivergedStays(lim, rest1, mid1, rest2, mid2);
        if AgreeOn(r1, r2, Replay(lim, rest1, mid1).asked) {
          AgreeOnPrefix(r1, r2, mid1.asked, Replay(lim, rest1, mid1).asked);
        }
      }
    }
  }

  // What lies below a term, once the term itself has been compared.
  lemma {:induction false} ThenBelow(r1: Resolver, r2: Resolver, lim: Limits, path: seq<string>, e1: Event, e2: Event, s1: Run, s2: Run)
    requires path != [] && s1.asked != [] && e1.Spend? && e2.Spend?
    requires AgreeOn(r1, r2, s1.asked) ==> s1 == s2 && (s1.halted || e1 == e2)
    requires !AgreeOn(r1, r2, s1.asked) ==> Diverged(s1, s2)
    ensures var a := Replay(lim, Below(r1, lim.maxDepth, path, e1.effect), s1);
            var b := Replay(lim, Below(r2, lim.maxDepth, path, e2.effect), s2);
            && a.asked != []
            && (AgreeOn(r1, r2, a.asked) ==> a == b)
            && (!AgreeOn(r1, r2, a.asked) ==> Diverged(a, b))
    decreases lim.maxDepth + 1 - |path|, 0, 1
  {
    hide Replay, Below, AgreeOn, Diverged;
    var below1, below2 := Below(r1, lim.maxDepth, path, e1.effect), Below(r2, lim.maxDepth, path, e2.effect);
    ReplayExtends(lim, below1, s1);
    if !AgreeOn(r1, r2, s1.asked) {
      DivergedStays(lim, below1, s1, below2, s2);
      if AgreeOn(r1, r2, Replay(lim, below1, s1).asked) {
        AgreeOnPrefix(r1, r2, s1.asked, Replay(lim, below1, s1).asked);
      }
    } else if s1.halted {
      ReplayStops(lim, below1, s1);
      ReplayStops(lim, below2, s1);
    } else {
      BelowIsExact(r1, r2, lim, path, e1.effect, s1);
    }
  }

  lemma {:induction false} BelowIsExact(r1: Resolver, r2: Resolver, lim: Limits, path: seq<string>, effect: Effect, s: Run)
    requires path != [] && s.asked != [] && AgreeOn(r1, r2, s.asked)
    ensures var a := Replay(lim, Below(r1, lim.maxDepth, path, effect), s);
            var b := Replay(lim, Below(r2, lim.maxDepth, path, effect), s);
            && (AgreeOn(r1, r2, a.asked) ==> a == b)
            && (!AgreeOn(r1, r2, a.asked) ==> Diverged(a, b))
    decreases lim.maxDepth + 1 - |path|, 0, 0
  {
    hide Replay, RecordEvents, Parse, AgreeOn, Diverged;
    if effect.Entered? && |path| <= lim.maxDepth {
      RecordIsExact(r1, r2, lim, path + [effect.target], Parse(effect.record), s);
    } else {
      ReplayStops(lim, [], s);
    }
  }

  lemma {:induction false} RecordIsExact(r1: Resolver, r2: Resolver, lim: Limits, path: seq<string>, terms: seq<Term>, s: Run)
    requires path != [] && s.asked != [] && AgreeOn(r1, r2, s.asked)
    ensures var a := Replay(lim, RecordEvents(r1, lim.maxDepth, path, terms), s);
            var b := Replay(lim, RecordEvents(r2, lim.maxDepth, path, terms), s);
            && (AgreeOn(r1, r2, a.asked) ==> a == b)
            && (!AgreeOn(r1, r2, a.asked) ==> Diverged(a, b))
    decreases lim.maxDepth + 1 - |path|, 2, 0
  {
    hide Replay, Spends, Ending, Counted, AgreeOn, Diverged;
    var ts, ending := Counted(terms, None), Ending(path, terms);
    var es1, es2 := Spends(r1, lim.maxDepth, path, ts), Spends(r2, lim.maxDepth, path, ts);
    var mid1, mid2 := Replay(lim, es1, s), Replay(lim, es2, s);
    ReplayConcat(lim, es1, ending, s);
    ReplayConcat(lim, es2, ending, s);
    ReplayExtends(lim, ending, mid1);
    RunIsExact(r1, r2, lim, path, ts, s);
    EndingAsksNothing(lim, path, terms, mid1);
    if !AgreeOn(r1, r2, mid1.asked) {
      DivergedStays(lim, ending, mid1, ending, mid2);
    }
  }

  lemma EndingAsksNothing(lim: Limits, path: seq<string>, terms: seq<Term>, s: Run)
    ensures Replay(lim, Ending(path, terms), s).asked == s.asked
  {
  }

  // Two evaluations come out the same exactly when the two resolvers say the
  // same about the domain and about every other question the first one is asked.
  lemma {:induction false} EvaluationIsExact(r1: Resolver, r2: Resolver, lim: Limits, domain: string)
    requires r1.Tracing? == r2.Tracing?
    ensures Evaluation(r1, lim, domain) == Evaluation(r2, lim, domain) <==>
              PublishedAt(r1, Normalize(domain)) == PublishedAt(r2, Normalize(domain)) &&
              AgreeOn(r1, r2, Evaluation(r1, lim, domain).asked)
  {
    hide Normalize, Parse, Replay, RecordEvents, PublishedAt, Agree, Diverged;
    var d := Normalize(domain);
    var p1, p2 := PublishedAt(r1, d), PublishedAt(r2, d);
    var start := Run(Fresh(d, r1.Tracing?), {}, false, [Question(d, TXT)]);
    if p1 == p2 {
      if p1.One? {
        RecordIsExact(r1, r2, lim, [d], Parse(p1.record), Entry(start, p1.record));
        DivergedDiffer(Evaluation(r1, lim, domain), Evaluation(r2, lim, domain));
      }
    } else {
      FirstNode(r1, lim, domain);
      FirstNode(r2, lim, domain);
      PublishedReasons(r1, d);
      PublishedReasons(r2, d);
    }
  }

  lemma DivergedDiffer(a: Run, b: Run)
    ensures Diverged(a, b) ==> a != b
  {
  }

  // What an evaluation keeps of the answer about the domain itself.
  lemma {:induction false} FirstNode(r: Resolver, lim: Limits, domain: string)
    ensures var out := Evaluation(r, lim, domain).out;
            match PublishedAt(r, Normalize(domain))
            case Unanswered(err) => out.nodes == [] && out.tempError == err
            case Absent(reason, found) =>
              out.nodes != [] && out.nodes[0].outcome == reason && (reason == Multiple ==> out.records == found)
            case One(record) => out.nodes != [] && out.nodes[0].outcome == OK && out.nodes[0].raw == record
  {
    hide Normalize, Parse, Replay, RecordEvents, PublishedAt;
    var d := Normalize(domain);
    var p := PublishedAt(r, d);
    if p.One? {
      var start := Entry(Run(Fresh(d, r.Tracing?), {}, false, [Question(d, TXT)]), p.record);
      ReplayExtends(lim, RecordEvents(r, lim.maxDepth, [d], Parse(p.record)), start);
    }
  }

  lemma PublishedReasons(r: Resolver, name: string)
    ensures var p := PublishedAt(r, name);
            p.Absent? ==> p.reason in {NoRecord, NXDomain, Multiple} && (p.reason != Multiple ==> p.found == [])
  {
    hide Records;
  }

  // ------------------------------------------------------------ transparency

  // A cache is invisible in an evaluation exactly when, for every name asked,
  // the resolver says the same about that name and about that name normalized
  // once more.
  lemma {:induction false} CachingIsTransparentExactly(r: Resolver, lim: Limits, domain: string)
    requires r.Tracing?
    ensures Evaluation(Above(r), lim, domain) == Evaluation(r, lim, domain) <==>
              var d := Normalize(domain); var asked := Evaluation(r, lim, domain).asked;
              && PublishedAt(r, Normalize(d)) == PublishedAt(r, d)
              && forall i :: 1 <= i < |asked| ==>
                   if asked[i].qtype == TXT then
                     Alike(PublishedAt(r, asked[i].name), PublishedAt(r, Normalize(asked[i].name)))
                   else EmptyAt(r, asked[i]) == EmptyAt(r, Question(Normalize(asked[i].name), asked[i].qtype))
  {
    hide Evaluation, Normalize, PublishedAt, EmptyAt, Alike, Above;
    var d := Normalize(domain);
    var asked := Evaluation(r, lim, domain).asked;
    AboveIsNormalized(r, Question(d, TXT));
    forall i | 1 <= i < |asked|
      ensures Agree(r, Above(r), asked[i]) <==>
              if asked[i].qtype == TXT then Alike(PublishedAt(r, asked[i].name), PublishedAt(r, Normalize(asked[i].name)))
              else EmptyAt(r, asked[i]) == EmptyAt(r, Question(Normalize(asked[i].name), asked[i].qtype))
    {
      AboveIsNormalized(r, asked[i]);
    }
    assert Above(r).Tracing? by {
      AboveIsNormalized(r, Question(d, TXT));
    }
    EvaluationIsExact(r, Above(r), lim, domain);
  }

  lemma AboveIsNormalized(r: Resolver, q: Question)
    requires r.Tracing?
    ensures Above(r).Tracing?
    ensures PublishedAt(Above(r), q.name) == PublishedAt(r, Normalize(q.name))
    ensures EmptyAt(Above(r), q) == EmptyAt(r, Question(Normalize(q.name), q.qtype))
  {
    hide Normalize, Classify;
  }

  lemma {:induction false} FirstAsked(r: Resolver, lim: Limits, domain: string)
    ensures var asked := Evaluation(r, lim, domain).asked;
            asked != [] && asked[0] == Question(Normalize(domain), TXT)
  {
    hide Normalize, Parse, Replay, RecordEvents, PublishedAt;
    var d := Normalize(domain);
    var p := PublishedAt(r, d);
    if p.One? {
      var start := Entry(Run(Fresh(d, r.Tracing?), {}, false, [Question(d, TXT)]), p.record);
      ReplayExtends(lim, RecordEvents(r, lim.maxDepth, [d], Parse(p.record)), start);
    }
  }

  // In particular when every name asked is in canonical form already.
  lemma {:induction false} CanonicalNamesAreEnough(r: Resolver, lim: Limits, domain: string)
    requires r.Tracing?
    requires forall q :: q in Evaluation(r, lim, domain).asked ==> Normalize(q.name) == q.name
    ensures Evaluation(Above(r), lim, domain) == Evaluation(r, lim, domain)
  {
    hide Evaluation, Normalize, PublishedAt, EmptyAt;
    var asked := Evaluation(r, lim, domain).asked;
    FirstAsked(r, lim, domain);
    assert forall i :: 0 <= i < |asked| ==> asked[i] in asked;
    forall i | 1 <= i < |asked| ensures Alike(PublishedAt(r, asked[i].name), PublishedAt(r, asked[i].name)) {
    }
    CachingIsTransparentExactly(r, lim, domain);
  }

  // And for a single name that is exactly the condition: the cache can be told
  // apart from some resolver if and only if normalizing changes the name.
  lemma {:induction false} TransparentExactlyWhenCanonical(name: string, qtype: Qtype)
    ensures (forall r: Resolver :: r.Tracing? ==> Above(r).query(Question(name, qtype)) == r.query(Question(name, qtype)))
            <==> Normalize(name) == name
  {
    hide Normalize;
    var q := Question(name, qtype);
    if Normalize(name) != name {
      var r := Tracing((x: Question) => if x == q then Missing else Failed("e"));
      assert Above(r).query(q) != r.query(q);
    }
  }

  // A cache over a resolver that cannot trace never gets an answer.
  lemma CacheOverPlainResolver(r: Resolver, lim: Limits, domain: string)
    requires r.Plain?
    ensures var out := Evaluation(Above(r), lim, domain).out;
            out.tempError == CannotTrace() && !out.termsExact && out.nodes == [] && !out.found
  {
    hide Normalize, Replay, RecordEvents;
  }

  // ---------------------------------------------------------- the exception

  // A name that only a leading "www." keeps from being in canonical form.
  predicate Bare(n: string) {
    && Solid(n) && (n != "" ==> n[|n| - 1] != '.')
    && forall c :: c in n ==> c !in {'/', '?', '#', '@', ':'} && !('A' <= c <= 'Z')
  }

  lemma {:induction false} NoScheme(n: string)
    requires ':' !in n
    ensures IndexScheme(n) == -1
  {
    if |n| >= 3 {
      NoScheme(n[1..]);
      assert n[0] in n && n[..3][0] == n[0];
    }
  }

  lemma StripsNothing(n: string)
    requires Bare(n)
    ensures StripPort(StripUser(StripPath(StripScheme(n)))) == n
  {
    NoScheme(n);
    assert forall i :: 0 <= i < |n| ==> n[i] in n;
    assert IndexAny(n, {'/', '?', '#'}) == -1;
    assert LastIndex(n, '@') == -1 && LastIndex(n, ':') == -1;
    assert n[0..] == n;
  }

  lemma LowerBare(n: string)
    requires Bare(n)
    ensures Lower(n) == n && TrimSuffixDot(n) == n
  {
    assert forall i :: 0 <= i < |n| ==> n[i] in n;
  }

  lemma {:induction false} NormalizeBare(n: string)
    requires Bare(n)
    ensures Normalize(n) == StripWww(n)
  {
    hide Trim, StripPort, StripUser, StripPath, StripScheme, StripWww, Lower, TrimSuffixDot;
    TrimSolid(n);
    StripsNothing(n);
    LowerBare(n);
  }

  // ------------------------------------------------- names that lose nothing

  predicate Canonical(n: string) {
    Normalize(n) == n
  }

  // A counted term that has a name looked up without following it.
  predicate Probes(t: Term) {
    !Follows(t) && !HasMacro(t) && t.name != "ptr"
  }

  // names is a part of the zone its records do not lead out of, and every name
  // they can have looked up is in canonical form, but for those in odd.
  ghost predicate Orderly(r: Resolver, names: set<string>, odd: set<string>) {
    && Closed(r, names)
    && (forall n :: n in names ==> Canonical(n) || n in odd)
    && (forall n, t :: n in names && PublishedAt(r, n).One? && t in Costed(Parse(PublishedAt(r, n).record)) && Probes(t) ==>
          Canonical(ValueOrDomain(t, n)) || ValueOrDomain(t, n) in odd)
  }

  // What a counted term of a record can ask about.
  lemma TermAsks(r: Resolver, maxDepth: int, path: seq<string>, t: Term)
    requires path != []
    ensures forall q :: q in AskedBy(EffectOf(r, maxDepth, path, t)) ==>
              if Follows(t) then q.name == Normalize(t.value)
              else Probes(t) && q.name == ValueOrDomain(t, path[|path| - 1])
  {
    hide Normalize, ValueOrDomain, PublishedAt, EmptyAt, HasMacro;
  }

  ghost predicate AsksInForm(es: seq<Event>) {
    forall e, q :: e in es && e.Spend? && q in AskedBy(e.effect) ==> Canonical(q.name)
  }

  lemma {:induction false} SpendAsksInForm(r: Resolver, names: set<string>, maxDepth: int, path: seq<string>, t: Term)
    requires Orderly(r, names, {}) && Shape.AmongCosted(r, path, [t]) && path[|path| - 1] in names
    ensures AsksInForm([SpendOf(r, maxDepth, path, t)])
    ensures Follows(t) ==> Normalize(t.value) in names
  {
    hide Canonical, Normalize, ValueOrDomain, EffectOf, AskedBy, PublishedAt, Parse, Costed, Follows, Probes;
    assert t in [t];
    TermAsks(r, maxDepth, path, t);
  }

  lemma {:induction false} SpendsAskInForm(r: Resolver, names: set<string>, maxDepth: int, path: seq<string>, ts: seq<Term>)
    requires Orderly(r, names, {}) && Shape.AmongCosted(r, path, ts) && path[|path| - 1] in names
    ensures AsksInForm(Spends(r, maxDepth, path, ts))
    decreases maxDepth + 1 - |path|, 1, |ts|
  {
    hide Orderly, Canonical, AskedBy, SpendOf, RecordEvents, Spends, PublishedAt, Parse, Costed, Normalize;
    if ts == [] {
      NoSpends(r, maxDepth, path);
    } else {
      var e := SpendOf(r, maxDepth, path, ts[0]);
      SpendsFirst(r, maxDepth, path, ts);
      assert ts[0] in ts && forall t :: t in ts[1..] ==> t in ts;
      SpendAsksInForm(r, names, maxDepth, path, ts[0]);
      assert e in [e];
      SpendsAskInForm(r, names, maxDepth, path, ts[1..]);
      if e.effect.Entered? && |path| <= maxDepth {
        Shape.EffectFacts(r, maxDepth, path, ts[0]);
        RecordAsksInForm(r, names, maxDepth, path + [e.effect.target], e.effect.record);
      }
    }
  }

  lemma {:induction false} RecordAsksInForm(r: Resolver, names: set<string>, maxDepth: int, path: seq<string>, record: string)
    requires Orderly(r, names, {}) && path != [] && path[|path| - 1] in names
    requires PublishedAt(r, path[|path| - 1]) == One(record)
    ensures AsksInForm(RecordEvents(r, maxDepth, path, Parse(record)))
    decreases maxDepth + 1 - |path|, 2, 0
  {
    hide Orderly, Canonical, AskedBy, Spends, PublishedAt, Parse, Costed, Counted;
    var terms := Parse(record);
    CountedIsCosted(terms);
    SpendsAskInForm(r, names, maxDepth, path, Counted(terms, None));
  }

  lemma {:induction false} ReplayAsksInForm(lim: Limits, es: seq<Event>, s: Run)
    requires AsksInForm(es) && forall q :: q in s.asked ==> Canonical(q.name)
    ensures forall q :: q in Replay(lim, es, s).asked ==> Canonical(q.name)
    decreases |es|
  {
    hide Canonical, Recorded, WithNode, AskedBy;
    if es != [] && !s.halted {
      assert es[0] in es;
      ReplayAsksInForm(lim, es[1..], Step(lim, es[0], s));
    }
  }

  // Where every name is in canonical form the cache is invisible, whatever the
  // limits: a condition on the zone alone.
  lemma {:induction false} CanonicalZoneIsTransparent(r: Resolver, names: set<string>, lim: Limits, domain: string)
    requires r.Tracing? && Orderly(r, names, {}) && Normalize(domain) in names
    ensures Evaluation(Above(r), lim, domain) == Evaluation(r, lim, domain)
  {
    hide Normalize, Parse, Replay, RecordEvents, PublishedAt, Above, Closed, Costed;
    var d := Normalize(domain);
    var p := PublishedAt(r, d);
    if p.One? {
      var start := Entry(Run(Fresh(d, r.Tracing?), {}, false, [Question(d, TXT)]), p.record);
      RecordAsksInForm(r, names, lim.maxDepth, [d], p.record);
      ReplayAsksInForm(lim, RecordEvents(r, lim.maxDepth, [d], Parse(p.record)), start);
    }
    CanonicalNamesAreEnough(r, lim, domain);
  }

  // -------------------------------------------------------- names that lose one

  function IncludeRecord(value: string): string {
    RecordOf(["include:" + value])
  }

  // Two names with a record each, and nothing else.
  function TwoRecords(a: string, ra: string, b: string, rb: string): Resolver {
    Tracing((q: Question) =>
      if q == Question(a, TXT) then Answered(Answer(0, 300, [ra], [], []))
      else if q == Question(b, TXT) then Answered(Answer(0, 300, [rb], [], []))
      else Missing)
  }

  // A name in canonical form other than these two.
  function Other(t: string, u: string): string {
    if "d" !in {t, u} then "d" else if "e" !in {t, u} then "e" else "f"
  }

  function Root(v: string): string {
    Other(Normalize(v), Normalize(Normalize(v)))
  }

  // The root includes v, and what v normalizes to includes the root again.
  function Exception(v: string): Resolver {
    TwoRecords(Root(v), IncludeRecord(v), Normalize(v), IncludeRecord(Root(v)))
  }

  function Include(value: string): Term {
    Term("include:" + value, "+", "include", value, false)
  }

  lemma {:induction false} IncludeRecordIs(value: string)
    requires Solid(value)
    ensures Classify([IncludeRecord(value)]) == One(IncludeRecord(value))
    ensures Parse(IncludeRecord(value)) == [Include(value)]
  {
    hide Normalize, Parse, ParseTerm, Records, Spaced, Lower;
    var f := "include:" + value;
    assert f == "include" + ":" + value;
    RecordReads([f]);
    assert ["v=spf1"] + [f] == ["v=spf1", f];
    LowerInclude();
    MechanismRoundTrip("include", value);
    assert ParseAll([f]) == [ParseTerm(f)];
  }

  lemma LowerInclude()
    ensures Lower("include") == "include"
  {
  }

  lemma CostedInclude(t: Term)
    requires t == Include(t.value)
    ensures Costed([t]) == [t]
  {
    hide CostsLookup;
    assert [t] == [t] + [];
    NoCosting();
    NoLastRedirect();
    LastRedirectFirst(t, []);
    CostingFirst(t, [], 0);
    assert CostsLookup(t) by {
      IncludeCosts(t);
    }
    assert [t][1..] == [];
    assert FirstAll([t]) == 1;
  }

  lemma IncludeCosts(t: Term)
    requires !t.modifier && t.name == "include"
    ensures CostsLookup(t) && t.name != "all"
  {
  }

  // The root is in canonical form and is neither of the other two names.
  lemma RootIs(v: string)
    ensures var a := Root(v);
            Solid(a) && Canonical(a) && a != "" && a != Normalize(v) && a != Normalize(Normalize(v))
    ensures Normalize("") == ""
  {
    hide Normalize;
    NormalizeBare("");
    NormalizeBare("d");
    NormalizeBare("e");
    NormalizeBare("f");
  }

  lemma TwoRecordsPublish(a: string, ra: string, b: string, rb: string, n: string)
    ensures PublishedAt(TwoRecords(a, ra, b, rb), n) ==
            if n == a then Classify([ra]) else if n == b then Classify([rb]) else Absent(NXDomain, [])
    ensures PublishedAt(Above(TwoRecords(a, ra, b, rb)), n) == PublishedAt(TwoRecords(a, ra, b, rb), Normalize(n))
  {
    hide Normalize, Classify;
  }

  lemma {:induction false} ExceptionZone(v: string)
    requires Solid(v) && !Canonical(Normalize(v))
    ensures var r, a, t := Exception(v), Root(v), Normalize(v);
            && PublishedAt(r, a) == One(IncludeRecord(v)) && PublishedAt(r, t) == One(IncludeRecord(a))
            && PublishedAt(Above(r), a) == One(IncludeRecord(v)) && PublishedAt(Above(r), t).Absent?
  {
    hide Normalize, Classify, PublishedAt, TwoRecords, IncludeRecord, Above, Root;
    var a, t := Root(v), Normalize(v);
    RootIs(v);
    IncludeRecordIs(v);
    IncludeRecordIs(a);
    TwoRecordsPublish(a, IncludeRecord(v), t, IncludeRecord(a), a);
    TwoRecordsPublish(a, IncludeRecord(v), t, IncludeRecord(a), t);
    TwoRecordsPublish(a, IncludeRecord(v), t, IncludeRecord(a), Normalize(t));
  }

  // The cost of a record with one include, given what its target costs.
  lemma CostOfInclude(r: Resolver, names: set<string>, path: seq<string>, value: string)
    requires Closed(r, names) && Normalize(value) in names
    ensures TargetsIn(names, [Include(value)])
    ensures Cost(r, names, path, [Include(value)]) == 1 + CostBelow(r, names, path, Normalize(value))
  {
    hide Normalize, CostBelow;
  }

  // What a full evaluation in which nothing fails reports.
  lemma CountsWhenAnswered(r: Resolver, names: set<string>, lim: Limits, domain: string)
    requires Closed(r, names) && Normalize(domain) in names && 0 <= lim.maxTerms <= lim.maxDepth
    requires PublishedAt(r, Normalize(domain)).One? && forall q :: !Fails(r, q)
    ensures Evaluation(r, lim, domain).out.terms == Min(lim.maxTerms + 1, TreeCost(r, names, Normalize(domain)))
  {
    hide Evaluation, TreeCost, Normalize, PublishedAt, Fails;
    BudgetRefinement(r, names, lim, domain);
    UnknownIsNeverAVerdict(r, lim, domain);
  }

  // a includes t, which includes a again: two lookups. When t has no record
  // there is only the first.
  lemma {:induction false} CostOfLoop(r: Resolver, a: string, t: string, v: string)
    requires a != t && t != "" && Normalize(v) == t && Normalize(a) == a
    requires PublishedAt(r, a).One? && Parse(PublishedAt(r, a).record) == [Include(v)]
    requires PublishedAt(r, t).One? ==> Parse(PublishedAt(r, t).record) == [Include(a)]
    ensures Closed(r, {a, t}) && TreeCost(r, {a, t}, a) == if PublishedAt(r, t).One? then 2 else 1
    ensures Orderly(r, {a, t}, {t})
  {
    hide Normalize, PublishedAt, Parse, Costed, Cost, ValueOrDomain;
    CostedInclude(Include(v));
    CostedInclude(Include(a));
    assert Closed(r, {a, t});
    CostOfInclude(r, {a, t}, [a], v);
    CostOfInclude(r, {a, t}, [a, t], a);
    assert [a] + [t] == [a, t];
  }

  lemma NeverFails(a: string, ra: string, b: string, rb: string)
    ensures forall q :: !Fails(TwoRecords(a, ra, b, rb), q)
    ensures forall q :: !Fails(Above(TwoRecords(a, ra, b, rb)), q)
  {
    hide Normalize;
  }

  // The package's rule is that caching never reduces the count. It does for
  // every value a record can hold whose normal form is not in canonical form:
  // the target is asked for in one form without the cache and in another with
  // it, so the cached evaluation misses the include inside.
  lemma {:induction false} CachingCanReduceTheCount(v: string, lim: Limits)
    requires Solid(v) && !Canonical(Normalize(v)) && 2 <= lim.maxTerms <= lim.maxDepth
    ensures Evaluation(Exception(v), lim, Root(v)).out.terms == 2
    ensures Evaluation(Above(Exception(v)), lim, Root(v)).out.terms == 1
    ensures Exception(v).Tracing? && Orderly(Exception(v), {Root(v), Normalize(v)}, {Normalize(v)})
  {
    hide Evaluation, Normalize, PublishedAt, Parse, TreeCost, IncludeRecord, TwoRecords, Root, Closed, Fails, Above, Orderly;
    var r, a, t := Exception(v), Root(v), Normalize(v);
    RootIs(v);
    ExceptionZone(v);
    IncludeRecordIs(v);
    IncludeRecordIs(a);
    NeverFails(a, IncludeRecord(v), t, IncludeRecord(a));
    CostOfLoop(r, a, t, v);
    CostOfLoop(Above(r), a, t, v);
    CountsWhenAnswered(r, {a, t}, lim, a);
    CountsWhenAnswered(Above(r), {a, t}, lim, a);
    assert r.Tracing? by {
      TwoRecordsTrace(a, IncludeRecord(v), t, IncludeRecord(a));
    }
  }

  lemma TwoRecordsTrace(a: string, ra: string, b: string, rb: string)
    ensures TwoRecords(a, ra, b, rb).Tracing?
  {
  }

  // No zone whose other names are in canonical form loses a lookup to the cache.
  ghost predicate LosesNothing(t: string) {
    forall r: Resolver, names: set<string>, lim: Limits, domain: string ::
      r.Tracing? && Orderly(r, names, {t}) && Normalize(domain) in names ==>
        Evaluation(Above(r), lim, domain).out.terms >= Evaluation(r, lim, domain).out.terms
  }

  // The exact condition for the package's rule, for every target a record can
  // name: it holds if and only if normalizing the target again changes nothing.
  lemma {:induction false} NothingIsLostExactly(v: string)
    requires Solid(v)
    ensures LosesNothing(Normalize(v)) <==> Canonical(Normalize(v))
  {
    hide Evaluation, Normalize, Above, Root, Exception, Orderly, Canonical;
    var t := Normalize(v);
    if Canonical(t) {
      forall r: Resolver, names: set<string>, lim: Limits, domain: string |
        r.Tracing? && Orderly(r, names, {t}) && Normalize(domain) in names
        ensures Evaluation(Above(r), lim, domain).out.terms >= Evaluation(r, lim, domain).out.terms
      {
        OrderlyWithout(r, names, t);
        CanonicalZoneIsTransparent(r, names, lim, domain);
      }
    } else {
      var lim := Limits(2, 2, 2);
      CachingCanReduceTheCount(v, lim);
      assert Normalize(Root(v)) == Root(v) by {
        RootIs(v);
        CanonicalIs(Root(v));
      }
    }
  }

  lemma CanonicalIs(n: string)
    requires Canonical(n)
    ensures Normalize(n) == n
  {
    hide Normalize;
  }

  lemma OrderlyWithout(r: Resolver, names: set<string>, t: string)
    requires Orderly(r, names, {t}) && Canonical(t)
    ensures Orderly(r, names, {})
  {
    hide Canonical, Closed, PublishedAt, Parse, Costed, ValueOrDomain, Probes;
  }

  // There are such values: www.www.x among them.
  lemma {:induction false} TwiceWww(n: string)
    requires Bare(n) && n != ""
    ensures Solid("www.www." + n) && Normalize("www.www." + n) == "www." + n && !Canonical("www." + n)
  {
    hide Normalize;
    var once, twice := "www." + n, "www.www." + n;
    assert twice[4..] == once && once[4..] == n;
    assert twice[|twice| - 1] == n[|n| - 1] && once[|once| - 1] == n[|n| - 1];
    NormalizeBare(once);
    NormalizeBare(twice);
  }
}

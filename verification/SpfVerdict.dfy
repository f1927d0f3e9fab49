// What a result may be taken to say: which of its fields rest on answers, what a
// failed question leaves open, and which fault the recorded reason stands for
// (spf/evaluate.go, spf/tree.go).
module SpfVerdict {
  import opened Dnsx
  import opened SpfTerms
  import opened SpfTree
  import opened SpfTrace
  import opened SpfCost
  import Shape = SpfShape

  // A broken target was asked about, and answered.
  ghost predicate Rests(r: Resolver, b: Broken, asked: seq<Question>) {
    PublishedAt(r, b.target).Absent? && PublishedAt(r, b.target).reason == b.reason && Question(b.target, TXT) in asked
  }

  // No question but the last may have failed, and that one is reported.
  ghost predicate Answered(r: Resolver, asked: seq<Question>, tempError: string) {
    && (forall i :: 0 <= i < |asked| - 1 ==> !Fails(r, asked[i]))
    && asked != []
    && (tempError != "" <==> Fails(r, asked[|asked| - 1]))
  }

  ghost predicate Honest(r: Resolver, lim: Limits, s: Run) {
    && 0 <= s.out.terms <= lim.maxTerms + 1
    && |s.asked| <= s.out.terms + 1 && |s.asked| <= lim.maxTerms + 1
    && Answered(r, s.asked, s.out.tempError)
    && (s.out.tempError != "" ==> s.halted && s.out.terms <= lim.maxTerms)
    && (s.out.permError == OverTermLimit <==> s.out.terms > lim.maxTerms)
    && (s.out.terms > lim.maxTerms ==> s.halted)
    && (s.out.termsExact <==> !s.halted)
    && (forall b :: b in s.out.broken ==> Rests(r, b, s.asked))
  }

  lemma RecordedVerdict(lim: Limits, e: Event, out: Result)
    requires e.Spend?
    ensures var o := Recorded(lim, e, out);
            && (o.permError == OverTermLimit ==> out.permError == OverTermLimit)
            && (o.permError == out.permError || o.permError in {Syntax, IncludeNoRecord, OverVoidLimit})
            && o.broken == out.broken + if e.effect.Unusable? then [Broken(e.owner, e.effect.target, e.via, e.effect.reason)] else []
  {
  }

  // Which questions fail is exactly which effects say so.
  lemma AskedHonestly(r: Resolver, maxDepth: int, e: Event)
    requires e.Spend? && Truthful(r, maxDepth, e)
    ensures |AskedBy(e.effect)| <= 1
    ensures forall q :: q in AskedBy(e.effect) ==> (Fails(r, q) <==> Halts(e.effect))
    ensures e.effect.TooDeep? ==> AskedBy(e.effect) == []
    ensures Halts(e.effect) && !Deep(e) ==> AskedBy(e.effect) != [] && e.effect.err != ""
  {
    hide Records;
  }

  lemma {:induction false} StepIsHonest(r: Resolver, lim: Limits, e: Event, s: Run)
    requires Honest(r, lim, s) && !s.halted && Truthful(r, lim.maxDepth, e)
    ensures Honest(r, lim, Step(lim, e, s))
  {
    hide Recorded, AskedBy, OutcomeOf, Truthful, Fails, PublishedAt, Halts;
    var s' := Step(lim, e, s);
    StepFacts(lim, e, s);
    if e.Spend? {
      AskedHonestly(r, lim.maxDepth, e);
      var c := Counting(s);
      var n := if IsListed(e.effect) then Noted(c, e.effect.target) else c;
      RecordedVerdict(lim, e, n.out);
      if s.out.terms + 1 <= lim.maxTerms {
        BrokenRests(r, lim, e, s, s');
      }
    }
  }

  lemma {:induction false} BrokenRests(r: Resolver, lim: Limits, e: Event, s: Run, s': Run)
    requires e.Spend? && Truthful(r, lim.maxDepth, e)
    requires s'.asked == s.asked + AskedBy(e.effect)
    requires s'.out.broken == s.out.broken +
               if e.effect.Unusable? then [Broken(e.owner, e.effect.target, e.via, e.effect.reason)] else []
    requires forall b :: b in s.out.broken ==> Rests(r, b, s.asked)
    ensures forall b :: b in s'.out.broken ==> Rests(r, b, s'.asked)
  {
    hide PublishedAt, Fails;
  }

  lemma {:induction false} ReplayIsHonest(r: Resolver, lim: Limits, es: seq<Event>, s: Run)
    requires Honest(r, lim, s) && AllTruthful(r, lim.maxDepth, es)
    ensures Honest(r, lim, Replay(lim, es, s))
    decreases |es|
  {
    hide Honest, Step, Truthful;
    if es != [] && !s.halted {
      StepIsHonest(r, lim, es[0], s);
      ReplayIsHonest(r, lim, es[1..], Step(lim, es[0], s));
    }
  }

  // A lookup that failed was the last one made, is reported, and leaves no
  // verdict about the limit; every broken target rests on an answer; and no
  // more is asked than is paid for.
  lemma {:induction false} UnknownIsNeverAVerdict(r: Resolver, lim: Limits, domain: string)
    requires 0 <= lim.maxTerms
    ensures var run := Evaluation(r, lim, domain); var out := run.out;
            && Answered(r, run.asked, out.tempError)
            && (out.tempError != "" ==> !out.termsExact && out.terms <= lim.maxTerms && out.permError != OverTermLimit)
            && (out.OverLimit(lim) <==> out.permError == OverTermLimit)
            && (forall b :: b in out.broken ==> Rests(r, b, run.asked))
            && |run.asked| <= out.terms + 1 && |run.asked| <= lim.maxTerms + 1 && out.terms <= lim.maxTerms + 1
  {
    hide Normalize, Parse, Replay, RecordEvents, Records;
    var d := Normalize(domain);
    var published := PublishedAt(r, d);
    if published.One? {
      var terms := Parse(published.record);
      var start := Entry(Run(Fresh(d, r.Tracing?), {}, false, [Question(d, TXT)]), published.record);
      assert Honest(r, lim, start);
      RecordIsTruthful(r, lim.maxDepth, [d], terms);
      ReplayIsHonest(r, lim, RecordEvents(r, lim.maxDepth, [d], terms), start);
    }
  }

  // ------------------------------------------------------- which rule failed

  // The recorded reason is one the rest of the result shows, and there is one
  // whenever the rest shows a fault. A term without a target is the only one
  // within the limit that leaves no node.
  predicate Reasoned(lim: Limits, out: Result) {
    && out.void >= 0
    && Faults(lim, out)
    && (out.permError == Syntax ==> |out.nodes| <= out.terms)
    && (out.permError == NoError && out.nodes != [] ==> |out.nodes| == out.terms + 1)
    && |out.nodes| <= out.terms + 1
  }

  predicate Faults(lim: Limits, out: Result) {
    && (out.permError == OverVoidLimit ==> out.void > lim.maxVoid)
    && (out.permError == IncludeNoRecord ==> out.broken != [])
    && (out.permError == OverTermLimit ==> out.terms > lim.maxTerms)
    && (out.permError == NoError ==> out.broken == [] && (out.void == 0 || out.void <= lim.maxVoid) && out.terms <= lim.maxTerms)
  }

  // What recording a finding does to the fields a reason rests on.
  lemma RecordedReason(lim: Limits, e: Event, out: Result)
    requires e.Spend?
    ensures var o := Recorded(lim, e, out); var none := out.permError == NoError;
            && o.terms == out.terms
            && o.void == out.void + (if e.effect.AddressVoid? then 1 else 0)
            && (e.effect.Unusable? ==> o.broken != []) && (!e.effect.Unusable? ==> o.broken == out.broken)
            && o.permError == (if e.effect.NoTarget? then Syntax
                               else if e.effect.Unusable? && none then IncludeNoRecord
                               else if e.effect.AddressVoid? && none && o.void > lim.maxVoid then OverVoidLimit
                               else out.permError)
  {
  }

  lemma {:induction false} RecordedIsReasoned(lim: Limits, e: Event, out: Result)
    requires e.Spend? && out.void >= 0 && Faults(lim, out) && out.terms <= lim.maxTerms
    ensures var o := Recorded(lim, e, out);
            && o.void >= 0 && Faults(lim, o)
            && (o.permError == MultipleRecords ==> out.permError == MultipleRecords)
            && (o.permError == NoError ==> out.permError == NoError && !e.effect.NoTarget?)
            && (o.permError == Syntax ==> out.permError == Syntax || e.effect.NoTarget?)
  {
    hide Recorded;
    RecordedReason(lim, e, out);
  }

  // Apart from the node, applying an event is recording its findings.
  lemma AppliedRecords(lim: Limits, e: Event, c: Run)
    requires e.Spend?
    ensures var n := (if IsListed(e.effect) then Noted(c, e.effect.target) else c).out;
            var o, a := Recorded(lim, e, n), Applied(lim, e, c).out;
            && a.permError == o.permError && a.void == o.void && a.broken == o.broken && a.terms == o.terms
            && n.permError == c.out.permError && n.void == c.out.void && n.broken == c.out.broken && n.terms == c.out.terms
  {
    hide Recorded, OutcomeOf, AskedBy, Halts;
  }

  lemma {:induction false} AppliedIsReasoned(lim: Limits, e: Event, c: Run)
    requires e.Spend? && c.out.terms <= lim.maxTerms && c.out.permError != MultipleRecords
    requires Reasoned(lim, c.out.(terms := c.out.terms - 1)) && c.out.nodes != []
    ensures var a := Applied(lim, e, c).out;
            a.nodes != [] && Reasoned(lim, a) && a.permError != MultipleRecords && a.terms <= lim.maxTerms
  {
    hide Recorded, OutcomeOf, AskedBy, Halts, Applied;
    var n := (if IsListed(e.effect) then Noted(c, e.effect.target) else c).out;
    AppliedRecords(lim, e, c);
    Shape.AppliedLogs(lim, e, c);
    RecordedFacts(lim, e, n);
    RecordedIsReasoned(lim, e, n);
  }

  lemma {:induction false} StepIsReasoned(lim: Limits, e: Event, s: Run)
    requires Reasoned(lim, s.out) && s.out.nodes != [] && s.out.terms <= lim.maxTerms && s.out.permError != MultipleRecords
    ensures var s' := Step(lim, e, s);
            s'.out.nodes != [] && Reasoned(lim, s'.out) && s'.out.permError != MultipleRecords && (s'.out.terms <= lim.maxTerms || s'.halted)
  {
    hide Applied;
    if e.Spend? && s.out.terms + 1 <= lim.maxTerms {
      assert Counting(s).out.(terms := s.out.terms) == s.out;
      AppliedIsReasoned(lim, e, Counting(s));
    }
  }

  lemma {:induction false} ReplayIsReasoned(lim: Limits, es: seq<Event>, s: Run)
    requires Reasoned(lim, s.out) && s.out.nodes != [] && s.out.permError != MultipleRecords && (s.out.terms <= lim.maxTerms || s.halted)
    ensures Reasoned(lim, Replay(lim, es, s).out) && Replay(lim, es, s).out.permError != MultipleRecords
    decreases |es|
  {
    hide Step, Reasoned;
    if es != [] && !s.halted {
      StepIsReasoned(lim, es[0], s);
      ReplayIsReasoned(lim, es[1..], Step(lim, es[0], s));
    }
  }

  // The reason recorded is a fault the result shows, and none is recorded exactly
  // when it shows none, a target that is missing altogether aside.
  lemma {:induction false} ReasonNamesTheFault(r: Resolver, lim: Limits, domain: string)
    requires 0 <= lim.maxTerms
    ensures var out := Evaluation(r, lim, domain).out;
            && Reasoned(lim, out)
            && (out.permError == MultipleRecords <==>
                  PublishedAt(r, Normalize(domain)).Absent? && PublishedAt(r, Normalize(domain)).reason == Multiple)
  {
    hide Normalize, Parse, Replay, RecordEvents, PublishedAt;
    var d := Normalize(domain);
    var published := PublishedAt(r, d);
    if published.One? {
      var start := Entry(Run(Fresh(d, r.Tracing?), {}, false, [Question(d, TXT)]), published.record);
      ReplayIsReasoned(lim, RecordEvents(r, lim.maxDepth, [d], Parse(published.record)), start);
    }
  }

  // With a negative limit the two ways of asking come apart: a domain without
  // any record is over it.
  lemma NegativeLimit(r: Resolver, lim: Limits, domain: string)
    requires lim.maxTerms < 0 && PublishedAt(r, Normalize(domain)) == Absent(NoRecord, [])
    ensures var out := Evaluation(r, lim, domain).out;
            out.OverLimit(lim) && out.permError == NoError
  {
    hide Normalize, PublishedAt;
  }

  // But not even a negative limit is over when the domain's own lookup failed.
  lemma FailureIsNotOver(r: Resolver, lim: Limits, domain: string)
    requires PublishedAt(r, Normalize(domain)).Unanswered?
    ensures !Evaluation(r, lim, domain).out.OverLimit(lim)
  {
    hide Normalize, PublishedAt;
  }
}

// What an SPF evaluation is supposed to compute, in two separate halves.
//
// The first half ignores every limit on the number of terms: it reads the zone
// as a tree and lists, in preorder, one event for each DNS-costing term of each
// record. The second half replays such a list against the limits of section
// 4.6.4 of RFC 7208 and stops where a receiver would. The stateful, recursive
// evaluator of module SpfEvaluate is proved to do exactly this.
module SpfTrace {
  import opened Text
  import opened Dnsx
  import opened SpfTerms
  import opened SpfTree

  // ---------------------------------------------------------------- answers

  // The SPF records at a name, classified.
  datatype Published = Unanswered(err: ErrText) | Absent(reason: Outcome, found: seq<string>) | One(record: string)

  function Classify(txts: seq<string>): Published {
    var recs := Records(txts);
    if |recs| == 0 then Absent(NoRecord, [])
    else if |recs| > 1 then Absent(Multiple, recs)
    else One(recs[0])
  }

  function PublishedAt(r: Resolver, name: string): Published {
    var q := Question(name, TXT);
    match r
    case Tracing(query) =>
      (match query(q)
       case Answered(a) => if a.rcode == RCODE_NAME_ERROR then Absent(NXDomain, []) else Classify(a.txt)
       case Missing => Absent(NXDomain, [])
       case Failed(err) => Unanswered(err))
    case Plain(lookup) =>
      (match lookup(q)
       case Found(txts) => Classify(txts)
       case NoSuchName => Absent(NXDomain, [])
       case Broke(err) => Unanswered(err))
  }

  datatype Emptiness = Unknown(err: ErrText) | Known(empty: bool)

  function EmptyAt(r: Resolver, q: Question): Emptiness {
    match r
    case Tracing(query) =>
      (match query(q)
       case Answered(a) => Known(a.Empty())
       case Missing => Known(true)
       case Failed(err) => Unknown(err))
    case Plain(lookup) =>
      (match lookup(q)
       case Found(values) => Known(values == [])
       case NoSuchName => Known(true)
       case Broke(err) => Unknown(err))
  }

  // Whether the resolver fails to answer a question.
  predicate Fails(r: Resolver, q: Question) {
    match r
    case Tracing(query) => query(q).Failed?
    case Plain(lookup) => lookup(q).Broke?
  }

  // ------------------------------------------------------- terms that count

  // The terms of a record that each spend one lookup, in the order they are
  // spent: the costing mechanisms before the first "all" and then, when there
  // is no "all", the last redirect modifier.
  function Counted(terms: seq<Term>, redirect: Option<Term>): seq<Term> {
    if terms == [] then (if redirect.Some? then [redirect.value] else [])
    else
      var t := terms[0];
      if t.modifier then Counted(terms[1..], if t.name == "redirect" then Some(t) else redirect)
      else if t.name == "all" then []
      else if CostsLookup(t) then [t] + Counted(terms[1..], redirect)
      else Counted(terms[1..], redirect)
  }

  function AllQualifier(terms: seq<Term>): Option<string> {
    if terms == [] then None
    else if !terms[0].modifier && terms[0].name == "all" then Some(terms[0].qualifier)
    else AllQualifier(terms[1..])
  }

  predicate Follows(t: Term) {
    t.modifier || t.name == "include"
  }

  function ViaFor(t: Term): Via {
    if t.modifier then ViaRedirect
    else if t.name == "include" then ViaInclude
    else if t.name == "a" then ViaA
    else if t.name == "mx" then ViaMX
    else if t.name == "ptr" then ViaPTR
    else ViaExists
  }

  function ValueOrDomain(t: Term, domain: string): string {
    if Trim(t.value) != "" then Normalize(Trim(t.value)) else domain
  }

  // ----------------------------------------------------------------- events

  // What became of one costing term.
  datatype Effect =
    | NoTarget
    | Cycle(target: string, cycle: seq<string>)
    | TooDeep(target: string)
    | RecordUnanswered(target: string, err: ErrText)
    | Unusable(target: string, reason: Outcome)
    | Entered(target: string, record: string)
    | Unexpanded(target: string)
    | AddressUnanswered(target: string, qtype: Qtype, err: ErrText)
    | AddressVoid(target: string, qtype: Qtype)
    | AddressFound(target: string, qtype: Qtype)

  datatype Event =
    | All(qualifier: string)
    | Spend(owner: string, named: string, via: Via, depth: nat, effect: Effect)

  function FollowEffect(r: Resolver, maxDepth: int, path: seq<string>, target: string): Effect {
    if target == "" then NoTarget
    else if target in path then Cycle(target, path + [target])
    else if |path| > maxDepth then TooDeep(target)
    else
      match PublishedAt(r, target)
      case Unanswered(err) => RecordUnanswered(target, err)
      case Absent(reason, _) => Unusable(target, reason)
      case One(record) => Entered(target, record)
  }

  function TerminalEffect(r: Resolver, domain: string, t: Term): Effect {
    var target := ValueOrDomain(t, domain);
    if HasMacro(t) then Unexpanded(t.value)
    else if t.name == "ptr" then Unexpanded(target)
    else
      var qtype := if t.name == "mx" then MX else A;
      match EmptyAt(r, Question(target, qtype))
      case Unknown(err) => AddressUnanswered(target, qtype, err)
      case Known(empty) => if empty then AddressVoid(target, qtype) else AddressFound(target, qtype)
  }

  function EffectOf(r: Resolver, maxDepth: int, path: seq<string>, t: Term): Effect
    requires path != []
  {
    if Follows(t) then FollowEffect(r, maxDepth, path, Normalize(t.value))
    else TerminalEffect(r, path[|path| - 1], t)
  }

  function SpendOf(r: Resolver, maxDepth: int, path: seq<string>, t: Term): (e: Event)
    requires path != []
    ensures e.Spend? && e.depth == |path|
  {
    var domain := path[|path| - 1];
    Spend(domain, ValueOrDomain(t, domain), ViaFor(t), |path|, EffectOf(r, maxDepth, path, t))
  }

  // The events of the terms ts of the record at the end of path.
  function Spends(r: Resolver, maxDepth: int, path: seq<string>, ts: seq<Term>): seq<Event>
    requires path != []
    decreases maxDepth + 1 - |path|, 1, |ts|
  {
    if ts == [] then []
    else [SpendOf(r, maxDepth, path, ts[0])]
         + Below(r, maxDepth, path, EffectOf(r, maxDepth, path, ts[0]))
         + Spends(r, maxDepth, path, ts[1..])
  }

  // The events below one term: those of the record it leads to, if any.
  function Below(r: Resolver, maxDepth: int, path: seq<string>, e: Effect): seq<Event>
    requires path != []
    decreases maxDepth + 1 - |path|, 0, 0
  {
    if e.Entered? && |path| <= maxDepth then RecordEvents(r, maxDepth, path + [e.target], Parse(e.record))
    else []
  }

  function RecordEvents(r: Resolver, maxDepth: int, path: seq<string>, terms: seq<Term>): seq<Event>
    requires path != []
    decreases maxDepth + 1 - |path|, 2, 0
  {
    Spends(r, maxDepth, path, Counted(terms, None)) + Ending(path, terms)
  }

  // Only the root's own "all" is reported.
  function Ending(path: seq<string>, terms: seq<Term>): seq<Event> {
    var q := AllQualifier(terms);
    if |path| == 1 && q.Some? then [All(q.value)] else []
  }

  // What an event claims about the resolver is so.
  predicate Truthful(r: Resolver, maxDepth: int, e: Event) {
    e.Spend? ==>
      match e.effect
      case TooDeep(_) => e.depth > maxDepth
      case RecordUnanswered(target, err) => PublishedAt(r, target) == Unanswered(err)
      case Unusable(target, reason) => PublishedAt(r, target).Absent? && PublishedAt(r, target).reason == reason
      case Entered(target, record) => PublishedAt(r, target) == One(record)
      case AddressUnanswered(target, qtype, err) => EmptyAt(r, Question(target, qtype)) == Unknown(err)
      case AddressVoid(target, qtype) => EmptyAt(r, Question(target, qtype)) == Known(true)
      case AddressFound(target, qtype) => EmptyAt(r, Question(target, qtype)) == Known(false)
      case _ => true
  }

  ghost predicate AllTruthful(r: Resolver, maxDepth: int, es: seq<Event>) {
    forall e :: e in es ==> Truthful(r, maxDepth, e)
  }

  lemma SpendIsTruthful(r: Resolver, maxDepth: int, path: seq<string>, t: Term)
    requires path != []
    ensures Truthful(r, maxDepth, SpendOf(r, maxDepth, path, t))
  {
    hide Normalize, PublishedAt, EmptyAt, ValueOrDomain;
  }

  lemma {:induction false} SpendsAreTruthful(r: Resolver, maxDepth: int, path: seq<string>, ts: seq<Term>)
    requires path != []
    ensures AllTruthful(r, maxDepth, Spends(r, maxDepth, path, ts))
    decreases maxDepth + 1 - |path|, 1, |ts|
  {
    hide SpendOf, Truthful, RecordEvents, Spends;
    if ts == [] {
      NoSpends(r, maxDepth, path);
    } else {
      var e := SpendOf(r, maxDepth, path, ts[0]);
      SpendsFirst(r, maxDepth, path, ts);
      SpendIsTruthful(r, maxDepth, path, ts[0]);
      SpendsAreTruthful(r, maxDepth, path, ts[1..]);
      if e.effect.Entered? && |path| <= maxDepth {
        RecordIsTruthful(r, maxDepth, path + [e.effect.target], Parse(e.effect.record));
      }
    }
  }

  lemma {:induction false} RecordIsTruthful(r: Resolver, maxDepth: int, path: seq<string>, terms: seq<Term>)
    requires path != []
    ensures AllTruthful(r, maxDepth, RecordEvents(r, maxDepth, path, terms))
    decreases maxDepth + 1 - |path|, 2, 0
  {
    hide Spends, Counted;
    SpendsAreTruthful(r, maxDepth, path, Counted(terms, None));
  }

  // ---------------------------------------------------------------- running

  datatype Run = Run(out: Result, seen: set<string>, halted: bool, asked: seq<Question>)

  function Noted(s: Run, target: string): Run {
    if target in s.seen then s
    else s.(seen := s.seen + {target}, out := s.out.(includes := s.out.includes + [target]))
  }

  function VoidCounted(lim: Limits, out: Result): Result {
    var v := out.void + 1;
    out.(void := v, permError := if v > lim.maxVoid && out.permError == NoError then OverVoidLimit else out.permError)
  }

  // A term over the limit: evaluation stops. A redirect leaves no node.
  function Exceeded(e: Event, s: Run): Run
    requires e.Spend?
  {
    var out := s.out.(permError := OverTermLimit, termsExact := false);
    s.(halted := true,
       out := if e.via == ViaRedirect then out else Logged(out, e.owner, e.named, e.via, e.depth, "", Limit))
  }

  // What a term's effect shows in the log, if it is logged at all.
  function OutcomeOf(effect: Effect): Outcome {
    match effect
    case NoTarget => OK
    case Cycle(_, _) => Cyclic
    case TooDeep(_) => Limit
    case RecordUnanswered(_, _) => TempError
    case Unusable(_, reason) => reason
    case Entered(_, _) => OK
    case Unexpanded(_) => Macro
    case AddressUnanswered(_, _, _) => TempError
    case AddressVoid(_, _) => Void
    case AddressFound(_, _) => OK
  }

  predicate Halts(effect: Effect) {
    effect.TooDeep? || effect.RecordUnanswered? || effect.AddressUnanswered?
  }

  // The question a term put to the resolver, if any.
  function AskedBy(effect: Effect): seq<Question> {
    if effect.RecordUnanswered? || effect.Unusable? || effect.Entered? then [Question(effect.target, TXT)]
    else if effect.AddressUnanswered? || effect.AddressVoid? || effect.AddressFound? then
      [Question(effect.target, effect.qtype)]
    else []
  }

  // Include and redirect targets are listed once each, whatever becomes of them.
  predicate IsListed(effect: Effect) {
    effect.Cycle? || effect.TooDeep? || effect.RecordUnanswered? || effect.Unusable? || effect.Entered?
  }

  // The findings an effect adds to the result.
  function Recorded(lim: Limits, e: Event, out: Result): Result
    requires e.Spend?
  {
    match e.effect
    case NoTarget => out.(permError := Syntax)
    case Cycle(_, cycle) => out.(cycles := out.cycles + [cycle])
    case TooDeep(_) => out.(termsExact := false)
    case RecordUnanswered(_, err) => out.(tempError := err, termsExact := false)
    case AddressUnanswered(_, _, err) => out.(tempError := err, termsExact := false)
    case Unusable(target, reason) =>
      out.(broken := out.broken + [Broken(e.owner, target, e.via, reason)],
           permError := if out.permError == NoError then IncludeNoRecord else out.permError)
    case AddressVoid(_, _) => VoidCounted(lim, out)
    case _ => out
  }

  function WithNode(e: Event, out: Result): Result
    requires e.Spend?
  {
    if e.effect.NoTarget? then out
    else
      Logged(out, e.owner, e.effect.target, e.via, e.depth, if e.effect.Entered? then e.effect.record else "",
             OutcomeOf(e.effect))
  }

  // A term within the limit, already counted.
  function Applied(lim: Limits, e: Event, s: Run): Run
    requires e.Spend?
  {
    var n := if IsListed(e.effect) then Noted(s, e.effect.target) else s;
    Run(WithNode(e, Recorded(lim, e, n.out)), n.seen, s.halted || Halts(e.effect), s.asked + AskedBy(e.effect))
  }

  function Counting(s: Run): Run {
    s.(out := s.out.(terms := s.out.terms + 1))
  }

  function Step(lim: Limits, e: Event, s: Run): Run {
    match e
    case All(q) => s.(out := s.out.(all := q))
    case Spend(_, _, _, _, _) =>
      var c := Counting(s);
      if c.out.terms > lim.maxTerms then Exceeded(e, c) else Applied(lim, e, c)
  }

  function Replay(lim: Limits, es: seq<Event>, s: Run): Run {
    if es == [] || s.halted then s else Replay(lim, es[1..], Step(lim, es[0], s))
  }

  lemma {:induction false} ReplayConcat(lim: Limits, a: seq<Event>, b: seq<Event>, s: Run)
    ensures Replay(lim, a + b, s) == Replay(lim, b, Replay(lim, a, s))
    decreases |a|
  {
    if a == [] {
      assert a + b == b;
    } else if !s.halted {
      assert (a + b)[1..] == a[1..] + b;
      ReplayConcat(lim, a[1..], b, Step(lim, a[0], s));
    }
  }

  lemma ReplayStops(lim: Limits, es: seq<Event>, s: Run)
    requires es == [] || s.halted
    ensures Replay(lim, es, s) == s
  {
  }

  // Spending the first counted term: the term itself, then what lies below it,
  // then the others.
  lemma {:induction false} SpendFirst(lim: Limits, r: Resolver, path: seq<string>, ts: seq<Term>, tail: seq<Event>, s: Run)
    requires path != [] && ts != [] && !s.halted
    ensures var e := SpendOf(r, lim.maxDepth, path, ts[0]);
            Replay(lim, Spends(r, lim.maxDepth, path, ts) + tail, s)
            == Replay(lim, Spends(r, lim.maxDepth, path, ts[1..]) + tail,
                      Replay(lim, Below(r, lim.maxDepth, path, e.effect), Step(lim, e, s)))
  {
    hide Step, SpendOf, EffectOf, Below, Replay, Spends;
    var e := SpendOf(r, lim.maxDepth, path, ts[0]);
    var below := Below(r, lim.maxDepth, path, e.effect);
    var rest := Spends(r, lim.maxDepth, path, ts[1..]);
    SpendsFirst(r, lim.maxDepth, path, ts);
    assert Spends(r, lim.maxDepth, path, ts) + tail == [e] + (below + (rest + tail));
    ReplayFirst(lim, e, below + (rest + tail), s);
    ReplayConcat(lim, below, rest + tail, Step(lim, e, s));
  }

  lemma NoSpends(r: Resolver, maxDepth: int, path: seq<string>)
    requires path != []
    ensures Spends(r, maxDepth, path, []) == []
  {
  }

  lemma SpendsFirst(r: Resolver, maxDepth: int, path: seq<string>, ts: seq<Term>)
    requires path != [] && ts != []
    ensures var e := SpendOf(r, maxDepth, path, ts[0]);
            Spends(r, maxDepth, path, ts) == [e] + Below(r, maxDepth, path, e.effect) + Spends(r, maxDepth, path, ts[1..])
  {
    hide EffectOf, Below;
  }

  lemma ReplayFirst(lim: Limits, e: Event, es: seq<Event>, s: Run)
    requires !s.halted
    ensures Replay(lim, [e] + es, s) == Replay(lim, es, Step(lim, e, s))
  {
    hide Step;
  }

  // The whole evaluation of a domain.
  function Rooted(out: Result, outcome: Outcome, raw: string): Result {
    Logged(out, "", out.domain, ViaRoot, 0, raw, outcome)
  }

  function Evaluation(r: Resolver, lim: Limits, domain: string): Run {
    var d := Normalize(domain);
    var blank := Fresh(d, r.Tracing?);
    var start := Run(blank, {}, false, [Question(d, TXT)]);
    match PublishedAt(r, d)
    case Unanswered(err) => start.(out := blank.(tempError := err, termsExact := false))
    case Absent(Multiple, found) =>
      start.(out := Rooted(blank.(records := found, permError := MultipleRecords), Multiple, ""))
    case Absent(reason, _) => start.(out := Rooted(blank, reason, ""))
    case One(record) =>
      Replay(lim, RecordEvents(r, lim.maxDepth, [d], Parse(record)), Entry(start, record))
  }

  function Entry(start: Run, record: string): Run {
    start.(out := Rooted(start.out.(records := [record], raw := record, found := true), OK, record))
  }
}

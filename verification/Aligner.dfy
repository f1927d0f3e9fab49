// The tree walk as the source runs it: loops over a resolver whose lookups may
// fail, with one memory of TXT answers and one of organizations
// (mailauth/treewalk.go, mailauth/align.go, mailauth/records.go). Each method is
// proved against the stateless functions of module TreeWalk.
module Alignment {
  import opened Text
  import opened TreeWalk

  // A resolver over a fixed zone, any lookup of which may fail; it remembers
  // definite answers or does not.
  class Source {
    const zone: Name -> Definite
    const remembers: bool
    var txt: map<Name, Definite>
    // The names put to the resolver below, those of them it answered, and how
    // many lookups failed.
    ghost var asked: seq<Name>
    ghost var answered: seq<Name>
    ghost var failures: nat

    ghost predicate Valid()
      reads this
    {
      && (forall n :: n in txt ==> txt[n] == zone(n))
      && (!remembers ==> txt == map[])
      && (remembers ==> (forall n :: n in answered <==> n in txt) &&
                        forall i, j :: 0 <= i < j < |answered| ==> answered[i] != answered[j])
    }

    constructor (zone: Name -> Definite, remembers: bool)
      ensures Valid() && this.zone == zone && this.remembers == remembers
      ensures asked == [] && answered == [] && failures == 0
    {
      this.zone, this.remembers := zone, remembers;
      txt, asked, answered, failures := map[], [], [], 0;
    }

    // The wrapped resolver: the zone's answer, or none.
    method Ask(name: Name) returns (reply: Reply)
      modifies this`asked, this`failures
      ensures reply == zone(name) || reply == Unanswered
      ensures asked == old(asked) + [name]
      ensures failures == old(failures) + if reply == Unanswered then 1 else 0
    {
      asked := asked + [name];
      var fails: bool := *;
      if fails {
        failures := failures + 1;
        return Unanswered;
      }
      return zone(name);
    }

    method LookupTXT(name: Name) returns (reply: Reply)
      requires Valid()
      modifies this
      ensures Valid()
      ensures reply == zone(name) || reply == Unanswered
      ensures failures == old(failures) + if reply == Unanswered then 1 else 0
      ensures asked == old(asked) || asked == old(asked) + [name]
      ensures remembers && name in old(txt) ==> asked == old(asked) && reply == zone(name)
      ensures !(remembers && name in old(txt)) ==> asked == old(asked) + [name]
      ensures txt == if remembers && reply != Unanswered then old(txt)[name := reply] else old(txt)
    {
      if remembers && name in txt {
        return txt[name];
      }
      reply := Ask(name);
      if reply != Unanswered {
        answered := answered + [name];
        if remembers {
          txt := txt[name := reply];
        }
      }
    }

    // The record published for a name, in one of three ways.
    method LookupDMARCAt(name: Name) returns (outcome: Outcome)
      requires Valid()
      modifies this
      ensures Valid() && (outcome == At(zone(name)) || outcome == Error)
      ensures failures == old(failures) || (failures == old(failures) + 1 && outcome == Error)
      ensures failures == old(failures) ==> outcome == At(zone(name))
      ensures outcome.Nothing? ==> zone(name) == Silent || zone(name) == NoName
      ensures outcome.Got? ==> zone(name) == Published(outcome.rec)
      ensures outcome.Error? ==> zone(name) == Garbled || failures > old(failures)
      ensures asked == old(asked) || asked == old(asked) + [name]
    {
      var reply := LookupTXT(name);
      match reply
      case Published(rec) => return Got(rec);
      case Garbled => return Error;
      case Silent => return Nothing;
      case NoName => return Nothing;
      case Unanswered => return Error;
    }
  }

  method ListNames(domain: Name) returns (names: seq<Name>)
    ensures names == TreeWalkNames(domain)
  {
    var start := |domain| - 1;
    if start > MAX_TREE_WALK_LABELS {
      start := MAX_TREE_WALK_LABELS;
    }
    names := [];
    var n := start;
    while n >= 1
      invariant 0 <= n <= start == StartLabels(domain)
      invariant names == TreeWalkNames(domain)[..start - n]
    {
      names := names + [Tail(domain, n)];
      n := n - 1;
    }
  }

  // A walk that was cut short by a failure cannot be told from one that was not
  // except by its error.
  ghost predicate Agrees<T(!new)>(src: Source, failuresBefore: nat, result: T, error: T, expected: T)
    reads src
  {
    failuresBefore <= src.failures && result == if src.failures == failuresBefore then expected else error
  }

  // The records found so far and then those still to be found.
  function After(out: seq<Found>, w: Walked): Walked {
    match w case Aborted => Aborted case Walked(rs) => Walked(out + rs)
  }

  lemma AfterStep(zone: Name -> Definite, names: seq<Name>, i: nat, out: seq<Found>)
    requires i < |names|
    ensures var rest := WalkFrom(zone, names, i);
            match At(zone(names[i]))
            case Error => After(out, rest) == Aborted
            case Nothing => rest == WalkFrom(zone, names, i + 1)
            case Got(rec) =>
              var more := out + [Found(i, names[i], rec)];
              After(out, rest) == if rec.psd != Unsaid then Walked(more) else After(more, WalkFrom(zone, names, i + 1))
  {
    hide At;
  }

  lemma WalkEnds(zone: Name -> Definite, names: seq<Name>)
    ensures WalkFrom(zone, names, |names|) == Walked([])
  {
  }

  lemma NameCount(domain: Name)
    ensures |TreeWalkNames(domain)| <= 7
  {
  }

  method Climb(src: Source, domain: Name) returns (names: seq<Name>, walked: Walked)
    requires src.Valid()
    modifies src
    ensures src.Valid() && names == TreeWalkNames(domain)
    ensures Agrees(src, old(src.failures), walked, Aborted, WalkFrom(src.zone, names, 0))
    ensures |src.asked| <= |old(src.asked)| + 7
  {
    hide WalkFrom, At, TreeWalkNames;
    names := ListNames(domain);
    var out := [];
    ghost var goal := WalkFrom(src.zone, names, 0);
    NameCount(domain);
    assert After([], goal) == goal;
    for i := 0 to |names|
      invariant src.Valid() && src.failures == old(src.failures)
      invariant |src.asked| <= |old(src.asked)| + i
      invariant goal == After(out, WalkFrom(src.zone, names, i))
    {
      AfterStep(src.zone, names, i, out);
      var outcome := src.LookupDMARCAt(names[i]);
      match outcome
      case Got(rec) =>
        out := out + [Found(i, names[i], rec)];
        if rec.psd != Unsaid {
          return names, Walked(out);
        }
      case Nothing =>
      case Error =>
        return names, Aborted;
    }
    WalkEnds(src.zone, names);
    assert out + [] == out;
    walked := Walked(out);
  }

  // Picks the organization out of what a walk retrieved.
  method Decide(names: seq<Name>, records: seq<Found>) returns (choice: Choice)
    requires forall i :: 0 <= i < |records| ==> records[i].step < |names|
    ensures choice == Select(names, records, 0)
  {
    var at: map<Name, Found> := map[];
    for i := 0 to |records|
      invariant forall n :: (n in at <==> RecordAt(records[..i], n).Some?) && (n in at ==> at[n] == RecordAt(records[..i], n).value)
    {
      assert records[..i + 1][..i] == records[..i];
      at := at[records[i].name := records[i]];
    }
    assert records[..|records|] == records;
    for k := 0 to |records|
      invariant Select(names, records, 0) == Select(names, records, k)
    {
      var f := records[k];
      if f.rec.psd == No {
        return Choice(Some(f.name), Some(f));
      }
      if f.rec.psd == Yes && f.step > 0 {
        var below := names[f.step - 1];
        if below in at {
          return Choice(Some(below), Some(at[below]));
        }
        return Choice(Some(below), Some(f));
      }
    }
    if |records| == 0 {
      return Choice(None, None);
    }
    var last := records[|records| - 1];
    return Choice(Some(last.name), Some(last));
  }

  // What Climb retrieved, moved up one position and put behind own.
  method AppendShifted(own: seq<Found>, higher: seq<Found>) returns (records: seq<Found>)
    ensures records == own + Shifted(higher)
  {
    records := own;
    for i := 0 to |higher|
      invariant records == own + Shifted(higher[..i])
    {
      var f := higher[i];
      assert Shifted(higher[..i + 1]) == Shifted(higher[..i]) + [f.(step := f.step + 1)];
      records := records + [f.(step := f.step + 1)];
    }
    assert higher[..|higher|] == higher;
  }

  method WalkOrg(src: Source, domain: Name) returns (answer: Option<OrgAnswer>)
    requires src.Valid()
    modifies src
    ensures src.Valid()
    ensures Agrees(src, old(src.failures), answer, None, OrgWalk(src.zone, domain))
    ensures |src.asked| <= |old(src.asked)| + 8
  {
    hide WalkFrom, Select, TreeWalkNames;
    var names := [domain];
    var records := [];
    var outcome := src.LookupDMARCAt(domain);
    match outcome {
      case Got(rec) =>
        records := [Found(0, domain, rec)];
        if rec.psd != Unsaid {
          var own := Decide(names, records);
          SelectIsLast(names, records);
          return Some(OrgAnswer(own.org.value, true));
        }
      case Error =>
        return None;
      case Nothing =>
    }
    var above, walked := Climb(src, domain);
    if walked.Aborted? {
      return None;
    }
    WalkSteps(src.zone, above, 0);
    names := names + above;
    records := AppendShifted(records, walked.records);
    assert names == AllNames(domain);
    var choice := Decide(names, records);
    if choice.org.GetOr([""]) == [""] {
      return Some(OrgAnswer(domain, false));
    }
    return Some(OrgAnswer(choice.org.value, true));
  }

  // LookupDMARC over lookups that may fail.
  method DiscoverPolicy(src: Source, domain: Name) returns (lookup: Lookup)
    requires src.Valid()
    modifies src
    ensures src.Valid()
    ensures Agrees(src, old(src.failures), lookup, Failure, LookupDMARC(src.zone, domain))
    ensures |src.asked| <= |old(src.asked)| + 8
  {
    var outcome := src.LookupDMARCAt(domain);
    match outcome {
      case Got(rec) => return Policy(rec);
      case Error => return Failure;
      case Nothing =>
    }
    var names, walked := Climb(src, domain);
    if walked.Aborted? {
      return Failure;
    }
    WalkSteps(src.zone, names, 0);
    var records := walked.records;
    var choice := Decide(names, records);
    if choice.source.None? {
      return NoRecord;
    }
    var chosen := choice.source.value;
    SelectPicksOne(names, records, 0);
    var rec := chosen.rec.(inheritedFrom := choice.org);
    for i := 0 to |records|
      invariant rec == chosen.rec.(inheritedFrom := choice.org)
      invariant forall k :: 0 <= k < i ==> records[k].step != chosen.step
    {
      if records[i].step == chosen.step {
        rec := rec.(inheritedFrom := Some(records[i].name));
        break;
      }
    }
    if rec.subPolicy != "" {
      rec := rec.(parentPolicy := rec.policy, policy := rec.subPolicy);
    }
    return Policy(rec);
  }

  lemma {:induction false} SelectPicksOne(names: seq<Name>, records: seq<Found>, k: nat)
    requires k <= |records| && forall i :: 0 <= i < |records| ==> records[i].step < |names|
    ensures Select(names, records, k).source.Some? ==> Select(names, records, k).source.value in records
    decreases |records| - k
  {
    if k < |records| {
      SelectPicksOne(names, records, k + 1);
    }
  }

  // A memory of OrgWalk over a remembering Source.
  class Aligner {
    const src: Source
    var orgs: map<Name, OrgAnswer>

    // Everything remembered is what a walk that never fails would find.
    ghost predicate Valid()
      reads this, src
    {
      src.Valid() && src.remembers && forall d :: d in orgs ==> OrgWalk(src.zone, d) == Some(orgs[d])
    }

    constructor (zone: Name -> Definite)
      ensures Valid() && fresh(src) && src.zone == zone && orgs == map[]
    {
      src := new Source(zone, true);
      orgs := map[];
    }

    method Learn(domain: Name) returns (answer: Option<OrgAnswer>)
      requires Valid()
      modifies this, src
      ensures Valid()
      ensures answer.Some? ==> answer == OrgWalk(src.zone, domain)
      ensures answer.None? ==> src.failures > old(src.failures) || OrgWalk(src.zone, domain).None?
      ensures src.failures >= old(src.failures)
      ensures domain in old(orgs) ==> answer.Some? && src.asked == old(src.asked)
      ensures orgs == if answer.Some? then old(orgs)[domain := answer.value] else old(orgs)
      ensures |src.asked| <= |old(src.asked)| + 8
    {
      if domain in orgs {
        return Some(orgs[domain]);
      }
      answer := WalkOrg(src, domain);
      if answer.Some? {
        orgs := orgs[domain := answer.value];
      }
    }

    method Org(domain: Name) returns (org: Option<Name>)
      requires Valid()
      modifies this, src
      ensures Valid()
      ensures org.Some? ==> OrgWalk(src.zone, domain).Some? && org.value == OrgWalk(src.zone, domain).value.org
      ensures org.None? ==> src.failures > old(src.failures) || OrgWalk(src.zone, domain).None?
    {
      var answer := Learn(domain);
      return if answer.Some? then Some(answer.value.org) else None;
    }

    method PolicyApplies(from: Name) returns (applies: Option<bool>)
      requires Valid()
      modifies this, src
      ensures Valid()
      ensures applies.Some? ==> OrgWalk(src.zone, from).Some? && applies.value == OrgWalk(src.zone, from).value.published
      ensures applies.None? ==> src.failures > old(src.failures) || OrgWalk(src.zone, from).None?
    {
      var answer := Learn(from);
      return if answer.Some? then Some(answer.value.published) else None;
    }

    method Check(from: Name, auth: Name, mode: string) returns (aligned: Option<bool>)
      requires Valid()
      modifies this, src
      ensures Valid()
      ensures aligned.Some? ==> aligned == Aligned(src.zone, from, auth, mode == "s")
      ensures aligned.None? ==> src.failures > old(src.failures) || Aligned(src.zone, from, auth, mode == "s").None?
      ensures mode == "s" || from == auth ==> aligned.Some? && src.asked == old(src.asked)
      ensures from != [""] && auth != [""] && mode == "s" ==> aligned == Some(from == auth)
      ensures from != [""] && from == auth ==> aligned == Some(true)
      ensures from == [""] || auth == [""] ==> aligned == Some(false)
    {
      if from == [""] || auth == [""] {
        return Some(false);
      }
      if from == auth {
        return Some(true);
      }
      if mode == "s" {
        return Some(false);
      }
      var f := Learn(from);
      if f.None? {
        return None;
      }
      var a := Learn(auth);
      if a.None? {
        return None;
      }
      return Some(f.value.org == a.value.org);
    }
  }
}

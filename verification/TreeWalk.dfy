// The DNS Tree Walk of RFC 9989, section 4.10, as functions of a zone: which
// names are asked, which records are retrieved, and which of them decides
// (mailauth/treewalk.go, mailauth/align.go, mailauth/records.go).
module TreeWalk {
  import opened Text

  // A name is a sequence of labels, none of them empty; the empty name,
  // which stands for the root, is [""].
  type Name = n: seq<string> | n == [""] || (n != [] && "" !in n) witness [""]

  const MAX_TREE_WALK_LABELS := 7

  datatype Psd = Yes | No | Unsaid

  datatype DMARCRecord = DMARCRecord(policy: string, subPolicy: string, psd: Psd,
                                     inheritedFrom: Option<Name>, parentPolicy: string)

  // One TXT reply for _dmarc under a name: a record, text that claims to be a
  // record and does not parse, no such text, no such name, or no answer.
  datatype Reply = Published(rec: DMARCRecord) | Garbled | Silent | NoName | Unanswered

  type Definite = r: Reply | !r.Unanswered? witness NoName

  // The three ways one lookup can end.
  datatype Outcome = Got(rec: DMARCRecord) | Nothing | Error

  function At(r: Reply): Outcome {
    match r
    case Published(rec) => Got(rec)
    case Garbled => Error
    case Silent => Nothing
    case NoName => Nothing
    case Unanswered => Error
  }

  // A record the walk retrieved; the position stands for the pointer's identity.
  datatype Found = Found(step: nat, name: Name, rec: DMARCRecord)

  datatype Walked = Aborted | Walked(records: seq<Found>)

  // ------------------------------------------------------------------- names

  // The last n labels of a name.
  function Tail(d: Name, n: nat): Name
    requires 0 < n <= |d|
  {
    d[|d| - n..]
  }

  function StartLabels(d: Name): nat {
    if |d| - 1 > MAX_TREE_WALK_LABELS then MAX_TREE_WALK_LABELS else |d| - 1
  }

  // The names asked after the name itself.
  function TreeWalkNames(d: Name): (names: seq<Name>) {
    seq(StartLabels(d), i requires 0 <= i < StartLabels(d) => Tail(d, StartLabels(d) - i))
  }

  // The name itself and then the others.
  function AllNames(d: Name): (names: seq<Name>)
    ensures |names| == StartLabels(d) + 1 && names[0] == d
    ensures forall i :: 0 < i < |names| ==> names[i] == Tail(d, StartLabels(d) - i + 1)
  {
    [d] + TreeWalkNames(d)
  }

  predicate IsAncestor(a: Name, d: Name) {
    |a| < |d| && a == d[|d| - |a|..]
  }

  // At most eight names are asked for a name of any length; each is an ancestor
  // of those before it, and after the first the previous one less a label.
  lemma {:induction false} NamesAreBounded(d: Name)
    ensures var names := AllNames(d);
            && 1 <= |names| <= 8 && names[0] == d
            && (forall i :: 0 < i < |names| ==> IsAncestor(names[i], d))
            && (forall i :: 0 < i < |names| - 1 ==> names[i + 1] == names[i][1..])
            && (forall i, j :: 0 <= i < j < |names| ==> |names[j]| < |names[i]|)
            && (1 < |d| <= 8 ==> names[1] == d[1..])
            && (|names| > 1 ==> |names[|names| - 1]| == 1)
  {
  }

  // Only the empty name's walk has the empty name on it, and nothing else.
  lemma EmptyNameWalk(d: Name)
    ensures d == [""] ==> AllNames(d) == [d]
    ensures forall i :: 0 <= i < |AllNames(d)| ==> (AllNames(d)[i] == [""] <==> d == [""])
  {
    var names := AllNames(d);
    forall i | 0 < i < |names| ensures names[i] != [""] {
      assert names[i][0] == d[|d| - |names[i]|];
    }
  }

  // A walk from a name on another name's walk is the rest of that walk.
  lemma {:induction false} WalkOfAncestor(d: Name, j: nat)
    requires j < |AllNames(d)|
    ensures AllNames(AllNames(d)[j]) == AllNames(d)[j..]
  {
  }

  // -------------------------------------------------------------------- walk

  // The records from position i on, up to and including the first with a psd tag
  // of y or n; an Error on the way spoils all of it.
  function WalkFrom(zone: Name -> Definite, names: seq<Name>, i: nat): Walked
    requires i <= |names|
    decreases |names| - i
  {
    if i == |names| then Walked([])
    else
      match At(zone(names[i]))
      case Error => Aborted
      case Nothing => WalkFrom(zone, names, i + 1)
      case Got(rec) =>
        var f := Found(i, names[i], rec);
        if rec.psd != Unsaid then Walked([f])
        else
          match WalkFrom(zone, names, i + 1)
          case Aborted => Aborted
          case Walked(records) => Walked([f] + records)
  }

  // Every record of a walk but its last has psd Unsaid.
  lemma {:induction false} OnlyLastDecides(zone: Name -> Definite, names: seq<Name>, i: nat)
    requires i <= |names| && WalkFrom(zone, names, i).Walked?
    ensures var rs := WalkFrom(zone, names, i).records;
            forall k :: 0 <= k < |rs| - 1 ==> rs[k].rec.psd == Unsaid
    decreases |names| - i
  {
    if i < |names| {
      match At(zone(names[i]))
      case Error =>
      case Nothing => OnlyLastDecides(zone, names, i + 1);
      case Got(rec) =>
        if rec.psd == Unsaid {
          OnlyLastDecides(zone, names, i + 1);
        }
    }
  }

  // ---------------------------------------------------------------- deciding

  // The organization, if anything was published, and the record that applies.
  datatype Choice = Choice(org: Option<Name>, source: Option<Found>)

  function RecordAt(records: seq<Found>, name: Name): (r: Option<Found>)
    ensures r.Some? ==> r.value in records && r.value.name == name
    ensures r.None? ==> forall f :: f in records ==> f.name != name
  {
    if records == [] then None
    else
      var last := records[|records| - 1];
      if last.name == name then Some(last) else RecordAt(records[..|records| - 1], name)
  }

  // Scans the records longest first from position k.
  function Select(names: seq<Name>, records: seq<Found>, k: nat): Choice
    requires k <= |records|
    requires forall i :: 0 <= i < |records| ==> records[i].step < |names|
    decreases |records| - k
  {
    if k == |records| then
      if records == [] then Choice(None, None)
      else Choice(Some(records[|records| - 1].name), Some(records[|records| - 1]))
    else
      var f := records[k];
      if f.rec.psd == No then Choice(Some(f.name), Some(f))
      else if f.rec.psd == Yes && f.step > 0 then
        var below := names[f.step - 1];
        var at := RecordAt(records, below);
        Choice(Some(below), if at.Some? then at else Some(f))
      else Select(names, records, k + 1)
  }

  datatype OrgAnswer = OrgAnswer(org: Name, published: bool)

  function Shifted(records: seq<Found>): seq<Found> {
    seq(|records|, i requires 0 <= i < |records| => records[i].(step := records[i].step + 1))
  }

  // The alignment walk: the name itself first, and then its ancestors. Nothing
  // selected and the empty name selected are one case in the source, which keeps
  // the organization as a string.
  function OrgWalk(zone: Name -> Definite, d: Name): Option<OrgAnswer> {
    match At(zone(d))
    case Error => None
    case Got(rec) =>
      var own := [Found(0, d, rec)];
      if rec.psd != Unsaid then Some(OrgAnswer(Select([d], own, 0).org.GetOr(d), true))
      else OrgAbove(zone, d, own)
    case Nothing => OrgAbove(zone, d, [])
  }

  function OrgAbove(zone: Name -> Definite, d: Name, own: seq<Found>): Option<OrgAnswer>
    requires forall i :: 0 <= i < |own| ==> own[i].step == 0
  {
    match WalkFrom(zone, TreeWalkNames(d), 0)
    case Aborted => None
    case Walked(higher) =>
      WalkSteps(zone, TreeWalkNames(d), 0);
      var choice := Select(AllNames(d), own + Shifted(higher), 0);
      if choice.org.GetOr([""]) == [""] then Some(OrgAnswer(d, false)) else Some(OrgAnswer(choice.org.value, true))
  }

  // Every record found stands where the walk says it does.
  lemma {:induction false} WalkSteps(zone: Name -> Definite, names: seq<Name>, i: nat)
    requires i <= |names| && WalkFrom(zone, names, i).Walked?
    ensures var rs := WalkFrom(zone, names, i).records;
            && (forall k :: 0 <= k < |rs| ==>
                  i <= rs[k].step < |names| && rs[k].name == names[rs[k].step] && At(zone(rs[k].name)) == Got(rs[k].rec))
            && (forall k, l :: 0 <= k < l < |rs| ==> rs[k].step < rs[l].step)
    decreases |names| - i
  {
    if i < |names| {
      match At(zone(names[i]))
      case Error =>
      case Nothing => WalkSteps(zone, names, i + 1);
      case Got(rec) =>
        if rec.psd == Unsaid {
          WalkSteps(zone, names, i + 1);
        }
    }
  }

  // ------------------------------------------------- an independent reference

  // The position of the first record whose psd is not Unsaid.
  function FirstDecisive(zone: Name -> Definite, names: seq<Name>, i: nat): (p: nat)
    requires i <= |names|
    ensures i <= p <= |names|
    ensures p < |names| ==> At(zone(names[p])).Got? && At(zone(names[p])).rec.psd != Unsaid
    ensures forall k :: i <= k < p ==> !(At(zone(names[k])).Got? && At(zone(names[k])).rec.psd != Unsaid)
    decreases |names| - i
  {
    if i == |names| then i
    else if At(zone(names[i])).Got? && At(zone(names[i])).rec.psd != Unsaid then i
    else FirstDecisive(zone, names, i + 1)
  }

  // The position of the last of the first n names that published anything.
  function LastPublished(zone: Name -> Definite, names: seq<Name>, n: nat): (p: Option<nat>)
    requires n <= |names|
    ensures p.Some? ==> p.value < n && At(zone(names[p.value])).Got?
    ensures forall k :: (if p.Some? then p.value + 1 else 0) <= k < n ==> !At(zone(names[k])).Got?
  {
    if n == 0 then None
    else if At(zone(names[n - 1])).Got? then Some(n - 1)
    else LastPublished(zone, names, n - 1)
  }

  // Where the walk places the organization (section 4.10.2 of RFC 9989): at the
  // first decisive position, or one before it when the record there has psd=y and
  // is not the first; with no decisive record, at LastPublished, and failing that
  // at the start.
  function OrgPosition(zone: Name -> Definite, names: seq<Name>): (p: nat)
    requires names != []
    ensures p < |names|
  {
    var first := FirstDecisive(zone, names, 0);
    if first < |names| then
      if At(zone(names[first])).rec.psd == Yes && first > 0 then first - 1 else first
    else
      match LastPublished(zone, names, |names|)
      case Some(p) => p
      case None => 0
  }

  // The position of the record that applies: the organization's own, or that of
  // the public suffix above an organization that published none.
  function SourcePosition(zone: Name -> Definite, names: seq<Name>): (p: Option<nat>)
    ensures p.Some? ==> p.value < |names| && At(zone(names[p.value])).Got?
  {
    var first := FirstDecisive(zone, names, 0);
    if first < |names| then
      if At(zone(names[first])).rec.psd == Yes && first > 0 && At(zone(names[first - 1])).Got? then Some(first - 1)
      else Some(first)
    else LastPublished(zone, names, |names|)
  }

  predicate NamesDiffer(names: seq<Name>) {
    forall i, j :: 0 <= i < j < |names| ==> names[i] != names[j]
  }

  // A walk completes when nothing up to the first decisive position is an error.
  lemma {:induction false} WalkCompletes(zone: Name -> Definite, names: seq<Name>, i: nat)
    requires i <= |names|
    ensures WalkFrom(zone, names, i).Walked? <==>
              (forall k :: i <= k < |names| && k <= FirstDecisive(zone, names, i) ==> !At(zone(names[k])).Error?)
    decreases |names| - i
  {
    hide At;
    if i < |names| {
      WalkCompletes(zone, names, i + 1);
    }
  }

  // What the walk retrieves: every record up to the first decisive one.
  lemma {:induction false} WalkRetrieves(zone: Name -> Definite, names: seq<Name>, i: nat)
    requires i <= |names|
    ensures var p := FirstDecisive(zone, names, i);
            WalkFrom(zone, names, i).Walked? <==>
              (forall k :: i <= k < |names| && k <= p ==> !At(zone(names[k])).Error?)
    ensures WalkFrom(zone, names, i).Walked? ==>
              var p := FirstDecisive(zone, names, i); var rs := WalkFrom(zone, names, i).records;
              && (forall k :: i <= k < |names| && k <= p && At(zone(names[k])).Got? ==>
                    Found(k, names[k], At(zone(names[k])).rec) in rs)
              && (forall f :: f in rs ==> i <= f.step < |names| && f.step <= p && f.name == names[f.step] &&
                                          At(zone(f.name)) == Got(f.rec))
              && (p < |names| ==> rs != [] && rs[|rs| - 1].step == p)
    decreases |names| - i
  {
    hide At, FirstDecisive;
    WalkCompletes(zone, names, i);
    if i < |names| && WalkFrom(zone, names, i).Walked? {
      DecisiveStep(zone, names, i);
      WalkStep(zone, names, i);
      if WalkFrom(zone, names, i + 1).Walked? {
        WalkRetrieves(zone, names, i + 1);
      }
    }
  }

  lemma DecisiveStep(zone: Name -> Definite, names: seq<Name>, i: nat)
    requires i < |names|
    ensures FirstDecisive(zone, names, i) ==
              if At(zone(names[i])).Got? && At(zone(names[i])).rec.psd != Unsaid then i else FirstDecisive(zone, names, i + 1)
  {
    hide At;
  }

  lemma WalkStep(zone: Name -> Definite, names: seq<Name>, i: nat)
    requires i < |names| && WalkFrom(zone, names, i).Walked?
    ensures var rs := WalkFrom(zone, names, i).records; var rest := WalkFrom(zone, names, i + 1);
            match At(zone(names[i]))
            case Error => false
            case Nothing => rest == Walked(rs)
            case Got(rec) =>
              if rec.psd != Unsaid then rs == [Found(i, names[i], rec)]
              else rest.Walked? && rs == [Found(i, names[i], rec)] + rest.records
  {
    hide At;
  }

  // --------------------------------------------------- the walk is the reference

  lemma {:induction false} SelectSkips(names: seq<Name>, rs: seq<Found>, k: nat)
    requires k < |rs| && (forall i :: 0 <= i < |rs| ==> rs[i].step < |names|)
    requires forall i :: 0 <= i < |rs| - 1 ==> rs[i].rec.psd == Unsaid
    ensures Select(names, rs, k) == Select(names, rs, |rs| - 1)
    decreases |rs| - k
  {
    if k < |rs| - 1 {
      SelectSkips(names, rs, k + 1);
    }
  }

  // The longest-first scan comes down to one decision about the last record.
  lemma {:induction false} SelectIsLast(names: seq<Name>, rs: seq<Found>)
    requires rs != [] && (forall i :: 0 <= i < |rs| ==> rs[i].step < |names|)
    requires forall i :: 0 <= i < |rs| - 1 ==> rs[i].rec.psd == Unsaid
    ensures var last := rs[|rs| - 1];
            Select(names, rs, 0) ==
              if last.rec.psd == Yes && last.step > 0 then
                var at := RecordAt(rs, names[last.step - 1]);
                Choice(Some(names[last.step - 1]), if at.Some? then at else Some(last))
              else Choice(Some(last.name), Some(last))
  {
    SelectSkips(names, rs, 0);
  }

  function FoundAt(zone: Name -> Definite, names: seq<Name>, p: nat): Found
    requires p < |names| && At(zone(names[p])).Got?
  {
    Found(p, names[p], At(zone(names[p])).rec)
  }

  lemma {:induction false} LastRecord(zone: Name -> Definite, names: seq<Name>)
    requires WalkFrom(zone, names, 0).Walked?
    ensures var rs := WalkFrom(zone, names, 0).records; var p := FirstDecisive(zone, names, 0);
            var l := LastPublished(zone, names, |names|);
            && (rs == [] <==> l.None?)
            && (p < |names| ==> rs[|rs| - 1] == FoundAt(zone, names, p))
            && (p == |names| && l.Some? ==> rs[|rs| - 1] == FoundAt(zone, names, l.value))
  {
    hide At, WalkFrom, FirstDecisive, LastPublished;
    WalkRetrieves(zone, names, 0);
    WalkSteps(zone, names, 0);
    var rs := WalkFrom(zone, names, 0).records;
    if rs != [] {
      assert rs[|rs| - 1] in rs && rs[0] in rs;
    }
    var l := LastPublished(zone, names, |names|);
    if FirstDecisive(zone, names, 0) == |names| && l.Some? {
      var f := FoundAt(zone, names, l.value);
      assert f in rs;
      var k :| 0 <= k < |rs| && rs[k] == f;
    }
  }

  // The retrieved records decide exactly what the reference says.
  lemma {:induction false} SelectIsReference(zone: Name -> Definite, names: seq<Name>)
    requires names != [] && NamesDiffer(names) && WalkFrom(zone, names, 0).Walked?
    ensures var rs := WalkFrom(zone, names, 0).records;
            && (forall i :: 0 <= i < |rs| ==> rs[i].step < |names|)
            && var choice := Select(names, rs, 0);
               var source := SourcePosition(zone, names);
               && choice.org == (if rs == [] then None else Some(names[OrgPosition(zone, names)]))
               && choice.source == (if source.Some? then Some(FoundAt(zone, names, source.value)) else None)
               && (rs == [] ==> OrgPosition(zone, names) == 0)
  {
    hide WalkFrom, Select, At, RecordAt, FirstDecisive, LastPublished, FoundAt;
    WalkSteps(zone, names, 0);
    OnlyLastDecides(zone, names, 0);
    LastRecord(zone, names);
    var rs := WalkFrom(zone, names, 0).records;
    if rs == [] {
      NothingToSelect(names);
    } else {
      SelectIsLast(names, rs);
      var p := FirstDecisive(zone, names, 0);
      LastStands(zone, names);
      if 0 < p < |names| && At(zone(names[p])).rec.psd == Yes {
        BelowDecisive(zone, names);
      }
    }
  }

  // Where the last record retrieved stands, and what it says.
  lemma LastStands(zone: Name -> Definite, names: seq<Name>)
    requires names != [] && WalkFrom(zone, names, 0).Walked? && WalkFrom(zone, names, 0).records != []
    ensures var rs := WalkFrom(zone, names, 0).records; var last := rs[|rs| - 1];
            var p := FirstDecisive(zone, names, 0); var l := LastPublished(zone, names, |names|);
            && last.step < |names| && last.name == names[last.step] && At(zone(names[last.step])) == Got(last.rec)
            && last == FoundAt(zone, names, last.step)
            && (p < |names| ==> last.step == p)
            && (p == |names| ==> l == Some(last.step) && last.rec.psd == Unsaid)
  {
    hide WalkFrom, At, FirstDecisive, LastPublished;
    LastRecord(zone, names);
    WalkSteps(zone, names, 0);
  }

  lemma {:induction false} BelowDecisive(zone: Name -> Definite, names: seq<Name>)
    requires NamesDiffer(names) && WalkFrom(zone, names, 0).Walked? && 0 < FirstDecisive(zone, names, 0) < |names|
    ensures var q := FirstDecisive(zone, names, 0) - 1;
            RecordAt(WalkFrom(zone, names, 0).records, names[q]) ==
              if At(zone(names[q])).Got? then Some(FoundAt(zone, names, q)) else None
  {
    hide WalkFrom, At, RecordAt, FirstDecisive;
    WalkSteps(zone, names, 0);
    WalkRetrieves(zone, names, 0);
    BelowSuffix(zone, names, WalkFrom(zone, names, 0).records, FirstDecisive(zone, names, 0) - 1);
  }

  lemma NothingToSelect(names: seq<Name>)
    ensures Select(names, [], 0) == Choice(None, None)
  {
  }

  lemma {:induction false} BelowSuffix(zone: Name -> Definite, names: seq<Name>, rs: seq<Found>, q: nat)
    requires NamesDiffer(names) && q < |names|
    requires forall f :: f in rs ==> f.step < |names| && f.name == names[f.step] && At(zone(f.name)) == Got(f.rec)
    requires At(zone(names[q])).Got? ==> FoundAt(zone, names, q) in rs
    ensures RecordAt(rs, names[q]) == if At(zone(names[q])).Got? then Some(FoundAt(zone, names, q)) else None
  {
    hide At;
  }

  // Walking [d] + names is walking names one position on, after asking d.
  lemma {:induction false} ShiftedWalk(zone: Name -> Definite, d: Name, names: seq<Name>, i: nat)
    requires i <= |names|
    ensures WalkFrom(zone, [d] + names, i + 1) ==
            match WalkFrom(zone, names, i) case Aborted => Aborted case Walked(rs) => Walked(Shifted(rs))
    decreases |names| - i
  {
    if i < |names| {
      ShiftedWalk(zone, d, names, i + 1);
      match At(zone(names[i]))
      case Error =>
      case Nothing =>
      case Got(rec) =>
        assert Shifted([Found(i, names[i], rec)]) == [Found(i + 1, names[i], rec)];
        if rec.psd == Unsaid {
          match WalkFrom(zone, names, i + 1)
          case Aborted =>
          case Walked(rs) =>
            assert Shifted([Found(i, names[i], rec)] + rs) == [Found(i + 1, names[i], rec)] + Shifted(rs);
        }
    }
  }

  // The one record the published flag misses: that of the empty name, when its
  // psd is Unsaid.
  predicate Overlooked(zone: Name -> Definite, d: Name) {
    d == [""] && At(zone(d)).Got? && At(zone(d)).rec.psd == Unsaid
  }

  // The alignment walk, in terms of the reference.
  lemma {:induction false} OrgWalkIsReference(zone: Name -> Definite, d: Name)
    ensures var names := AllNames(d);
            OrgWalk(zone, d) ==
              if WalkFrom(zone, names, 0).Aborted? then None
              else Some(OrgAnswer(names[OrgPosition(zone, names)],
                                  WalkFrom(zone, names, 0).records != [] && !Overlooked(zone, d)))
  {
    hide WalkFrom, Select, OrgPosition, TreeWalkNames, OrgAbove, At;
    match At(zone(d))
    case Error => FirstStep(zone, d, TreeWalkNames(d));
    case Got(rec) =>
      if rec.psd != Unsaid {
        OwnDecisive(zone, d);
      } else {
        AboveIsReference(zone, d, [Found(0, d, rec)]);
      }
    case Nothing => AboveIsReference(zone, d, []);
  }

  // One step of the walk from the name itself.
  lemma {:induction false} FirstStep(zone: Name -> Definite, d: Name, names: seq<Name>)
    ensures var all := WalkFrom(zone, [d] + names, 0); var later := WalkFrom(zone, names, 0);
            match At(zone(d))
            case Error => all == Aborted
            case Nothing => all == (if later.Aborted? then Aborted else Walked(Shifted(later.records)))
            case Got(rec) =>
              all == (if rec.psd != Unsaid then Walked([Found(0, d, rec)])
                      else if later.Aborted? then Aborted
                      else Walked([Found(0, d, rec)] + Shifted(later.records)))
  {
    ShiftedWalk(zone, d, names, 0);
  }

  lemma {:induction false} OwnDecisive(zone: Name -> Definite, d: Name)
    requires At(zone(d)).Got? && At(zone(d)).rec.psd != Unsaid
    ensures WalkFrom(zone, AllNames(d), 0) == Walked([Found(0, d, At(zone(d)).rec)])
    ensures OrgPosition(zone, AllNames(d)) == 0
    ensures Select([d], [Found(0, d, At(zone(d)).rec)], 0).org == Some(d)
  {
    hide At, Select;
    FirstStep(zone, d, TreeWalkNames(d));
    SelectIsLast([d], [Found(0, d, At(zone(d)).rec)]);
  }

  lemma {:induction false} AboveIsReference(zone: Name -> Definite, d: Name, own: seq<Found>)
    requires own == if At(zone(d)).Got? then [Found(0, d, At(zone(d)).rec)] else []
    requires !At(zone(d)).Error? && (At(zone(d)).Got? ==> At(zone(d)).rec.psd == Unsaid)
    ensures var names := AllNames(d);
            OrgAbove(zone, d, own) ==
              if WalkFrom(zone, names, 0).Aborted? then None
              else Some(OrgAnswer(names[OrgPosition(zone, names)],
                                  WalkFrom(zone, names, 0).records != [] && !Overlooked(zone, d)))
  {
    hide WalkFrom, Select, OrgPosition, At, SourcePosition;
    var names := AllNames(d);
    NamesAreBounded(d);
    FirstStep(zone, d, TreeWalkNames(d));
    if WalkFrom(zone, names, 0).Walked? {
      SelectIsReference(zone, names);
      var higher := WalkFrom(zone, TreeWalkNames(d), 0).records;
      assert own + Shifted(higher) == WalkFrom(zone, names, 0).records;
      EmptyNameWalk(d);
      if d == [""] {
        NoRecordsAbove(zone, d);
        assert own + [] == own;
      }
    }
  }

  lemma NoRecordsAbove(zone: Name -> Definite, d: Name)
    requires d == [""]
    ensures WalkFrom(zone, TreeWalkNames(d), 0) == Walked([])
  {
  }

  // Some name of the walk has a record.
  ghost predicate Governed(zone: Name -> Definite, d: Name) {
    exists n :: n in AllNames(d) && At(zone(n)).Got?
  }

  // The published flag says whether a record governs the name if and only if the
  // name is not empty, or has no record, or its record states psd.
  lemma {:induction false} PublishedExactly(zone: Name -> Definite, d: Name)
    requires OrgWalk(zone, d).Some?
    ensures OrgWalk(zone, d).value.published <==> Governed(zone, d) && !Overlooked(zone, d)
    ensures (OrgWalk(zone, d).value.published <==> Governed(zone, d)) <==>
              d != [""] || !At(zone(d)).Got? || At(zone(d)).rec.psd != Unsaid
  {
    hide OrgWalk, WalkFrom, OrgPosition, At, LastPublished;
    var names := AllNames(d);
    OrgWalkIsReference(zone, d);
    LastRecord(zone, names);
    var l := LastPublished(zone, names, |names|);
    assert d == names[0];
    if l.Some? {
      assert names[l.value] in names;
    }
  }

  // ------------------------------------------------------------ organizations

  // The organization is the name itself or an ancestor of it.
  lemma {:induction false} OrgIsAncestor(zone: Name -> Definite, d: Name)
    requires OrgWalk(zone, d).Some?
    ensures var org := OrgWalk(zone, d).value.org; org == d || IsAncestor(org, d)
  {
    hide OrgWalk, WalkFrom, OrgPosition;
    OrgWalkIsReference(zone, d);
    NamesAreBounded(d);
  }

  lemma {:induction false} FirstDecisiveShifts(zone: Name -> Definite, names: seq<Name>, j: nat)
    requires j <= FirstDecisive(zone, names, 0)
    ensures j + FirstDecisive(zone, names[j..], 0) == FirstDecisive(zone, names, 0)
  {
  }

  lemma {:induction false} LastPublishedShifts(zone: Name -> Definite, names: seq<Name>, j: nat)
    requires j <= |names|
    requires LastPublished(zone, names, |names|).Some? ==> j <= LastPublished(zone, names, |names|).value
    ensures var l := LastPublished(zone, names, |names|);
            LastPublished(zone, names[j..], |names| - j) == if l.Some? then Some(l.value - j) else None
  {
    hide At;
  }

  // Seen from any name of the walk not above the organization, the organization
  // is where it was.
  lemma {:induction false} OrgPositionShifts(zone: Name -> Definite, names: seq<Name>, j: nat)
    requires names != [] && j <= OrgPosition(zone, names)
    ensures j + OrgPosition(zone, names[j..]) == OrgPosition(zone, names)
  {
    hide At;
  }

  lemma {:induction false} WalkShifts(zone: Name -> Definite, names: seq<Name>, j: nat)
    requires j <= |names| && j <= FirstDecisive(zone, names, 0) && WalkFrom(zone, names, 0).Walked?
    ensures WalkFrom(zone, names[j..], 0).Walked?
  {
    hide At;
    WalkRetrieves(zone, names, 0);
    WalkRetrieves(zone, names[j..], 0);
    FirstDecisiveShifts(zone, names, j);
    assert forall k :: 0 <= k < |names| - j ==> names[j..][k] == names[j + k];
  }

  // Every name of d's walk from d up to its organization has that organization,
  // in particular the organization itself. (A walk that answers for d answers
  // for each of them.)
  lemma {:induction false} OrgIsConstantBelow(zone: Name -> Definite, d: Name, m: Name)
    requires OrgWalk(zone, d).Some? && m in AllNames(d) && |OrgWalk(zone, d).value.org| <= |m|
    ensures OrgWalk(zone, m) == OrgWalk(zone, d)
  {
    hide OrgWalk, WalkFrom, OrgPosition, At, FirstDecisive, LastPublished, TreeWalkNames;
    hide AllNames, IsAncestor;
    var names := AllNames(d);
    var j :| 0 <= j < |names| && names[j] == m;
    OrgWalkIsReference(zone, d);
    OrgWalkIsReference(zone, m);
    EmptyNameWalk(d);
    WalkOfAncestor(d, j);
    LongerIsEarlier(d, j, OrgPosition(zone, names));
    RestOfWalkAgrees(zone, names, j);
  }

  lemma LongerIsEarlier(d: Name, j: nat, p: nat)
    requires j < |AllNames(d)| && p < |AllNames(d)| && |AllNames(d)[p]| <= |AllNames(d)[j]|
    ensures j <= p
  {
  }

  // What a walk finds, found again from further up.
  lemma {:induction false} RestOfWalkAgrees(zone: Name -> Definite, names: seq<Name>, j: nat)
    requires names != [] && j <= OrgPosition(zone, names) && WalkFrom(zone, names, 0).Walked?
    ensures var rest := names[j..];
            && WalkFrom(zone, rest, 0).Walked?
            && rest[OrgPosition(zone, rest)] == names[OrgPosition(zone, names)]
            && (WalkFrom(zone, rest, 0).records != [] <==> WalkFrom(zone, names, 0).records != [])
  {
    hide WalkFrom, OrgPosition, At, FirstDecisive, LastPublished;
    OrgBeforeDecisive(zone, names);
    OrgPositionShifts(zone, names, j);
    WalkShifts(zone, names, j);
    assert names[j..][OrgPosition(zone, names) - j] == names[OrgPosition(zone, names)];
    LastRecord(zone, names);
    LastRecord(zone, names[j..]);
    PublishedShifts(zone, names, j);
  }

  lemma {:induction false} PublishedShifts(zone: Name -> Definite, names: seq<Name>, j: nat)
    requires names != [] && j <= OrgPosition(zone, names)
    ensures LastPublished(zone, names[j..], |names| - j).Some? <==> LastPublished(zone, names, |names|).Some?
  {
    hide At;
  }

  lemma OrgBeforeDecisive(zone: Name -> Definite, names: seq<Name>)
    requires names != []
    ensures OrgPosition(zone, names) <= FirstDecisive(zone, names, 0)
  {
    hide At;
  }

  lemma {:induction false} OrgIsIdempotent(zone: Name -> Definite, d: Name)
    requires OrgWalk(zone, d).Some?
    ensures OrgWalk(zone, OrgWalk(zone, d).value.org) == OrgWalk(zone, d)
  {
    hide OrgWalk, WalkFrom, OrgPosition;
    OrgWalkIsReference(zone, d);
    OrgIsConstantBelow(zone, d, OrgWalk(zone, d).value.org);
  }

  // --------------------------------------------------------- policy discovery

  datatype Lookup = Failure | NoRecord | Policy(rec: DMARCRecord)

  // The record as reported for a name that took it from another.
  function Inherited(f: Found): DMARCRecord {
    var rec := f.rec.(inheritedFrom := Some(f.name));
    if rec.subPolicy != "" then rec.(parentPolicy := rec.policy, policy := rec.subPolicy) else rec
  }

  // A name's own record, or else the one Select picks among those of
  // TreeWalkNames, where position 0 is the parent.
  function LookupDMARC(zone: Name -> Definite, d: Name): Lookup {
    match At(zone(d))
    case Error => Failure
    case Got(rec) => Policy(rec)
    case Nothing =>
      match WalkFrom(zone, TreeWalkNames(d), 0)
      case Aborted => Failure
      case Walked(records) =>
        WalkSteps(zone, TreeWalkNames(d), 0);
        var source := Select(TreeWalkNames(d), records, 0).source;
        if source.None? then NoRecord else Policy(Inherited(source.value))
  }

  lemma {:induction false} SourceShifts(zone: Name -> Definite, d: Name, names: seq<Name>)
    requires At(zone(d)).Nothing?
    ensures var all, own := SourcePosition(zone, [d] + names), SourcePosition(zone, names);
            all == if own.Some? then Some(own.value + 1) else None
  {
    hide At, FirstDecisive, LastPublished;
    var all := [d] + names;
    assert all[1..] == names;
    FirstDecisiveShifts(zone, all, 1);
    var l := LastPublished(zone, all, |all|);
    assert l.Some? ==> l.value >= 1;
    LastPublishedShifts(zone, all, 1);
    var p := FirstDecisive(zone, all, 0);
    assert p > 0;
    assert p < |all| ==> all[p] == names[p - 1];
    assert 1 < p < |all| ==> all[p - 1] == names[p - 2];
  }

  // For a name that published nothing itself, the record policy discovery picks
  // with its parent-based numbering is the one the alignment walk's name-based
  // numbering picks, and InheritedFrom names where it was published.
  lemma {:induction false} PolicyAndAlignmentAgree(zone: Name -> Definite, d: Name)
    requires At(zone(d)).Nothing?
    ensures var names := AllNames(d); var source := SourcePosition(zone, names);
            LookupDMARC(zone, d) ==
              if OrgWalk(zone, d).None? then Failure
              else if source.None? then NoRecord
              else Policy(Inherited(FoundAt(zone, names, source.value)))
    ensures LookupDMARC(zone, d).Policy? <==> OrgWalk(zone, d).Some? && OrgWalk(zone, d).value.published
  {
    hide WalkFrom, OrgWalk, At, SourcePosition, Inherited, LookupDMARC, OrgPosition, LastPublished, TreeWalkNames, FirstDecisive;
    var names := TreeWalkNames(d);
    OrgWalkIsReference(zone, d);
    ShiftedWalk(zone, d, names, 0);
    FirstIsNothing(zone, d, names);
    LookupIsReference(zone, d);
    SourceIsShared(zone, d);
    if WalkFrom(zone, AllNames(d), 0).Walked? {
      LastRecord(zone, AllNames(d));
      SourceIffPublished(zone, AllNames(d));
    }
  }

  lemma {:induction false} SourceIsShared(zone: Name -> Definite, d: Name)
    requires At(zone(d)).Nothing?
    ensures var all, own := SourcePosition(zone, AllNames(d)), SourcePosition(zone, TreeWalkNames(d));
            && (all.Some? <==> own.Some?)
            && (all.Some? ==>
                  Inherited(FoundAt(zone, AllNames(d), all.value)) == Inherited(FoundAt(zone, TreeWalkNames(d), own.value)))
  {
    hide At, SourcePosition;
    SourceShifts(zone, d, TreeWalkNames(d));
    assert forall i :: 0 <= i < |TreeWalkNames(d)| ==> TreeWalkNames(d)[i] == AllNames(d)[i + 1];
  }

  lemma SourceIffPublished(zone: Name -> Definite, names: seq<Name>)
    ensures SourcePosition(zone, names).Some? <==> LastPublished(zone, names, |names|).Some?
  {
    hide At;
  }

  lemma FirstIsNothing(zone: Name -> Definite, d: Name, names: seq<Name>)
    requires At(zone(d)).Nothing?
    ensures WalkFrom(zone, [d] + names, 0) == WalkFrom(zone, [d] + names, 1)
  {
  }

  lemma {:induction false} LookupIsReference(zone: Name -> Definite, d: Name)
    requires At(zone(d)).Nothing?
    ensures var names := TreeWalkNames(d); var source := SourcePosition(zone, names);
            LookupDMARC(zone, d) ==
              if WalkFrom(zone, names, 0).Aborted? then Failure
              else if source.None? then NoRecord
              else Policy(Inherited(FoundAt(zone, names, source.value)))
  {
    hide WalkFrom, At, SourcePosition, Inherited, Select;
    var names := TreeWalkNames(d);
    NamesAreBounded(d);
    assert forall i :: 0 <= i < |names| ==> names[i] == AllNames(d)[i + 1];
    if WalkFrom(zone, names, 0).Walked? {
      if names == [] {
        NothingPublished(zone);
        NothingToSelect([]);
      } else {
        SelectIsReference(zone, names);
      }
    }
  }

  lemma NothingPublished(zone: Name -> Definite)
    ensures WalkFrom(zone, [], 0) == Walked([]) && SourcePosition(zone, []).None?
  {
  }

  // Absence is reported exactly when every name of the walk answered that it has
  // nothing.
  lemma {:induction false} AbsenceIsSound(zone: Name -> Definite, d: Name)
    ensures LookupDMARC(zone, d).NoRecord? <==>
            forall k :: 0 <= k < |AllNames(d)| ==> At(zone(AllNames(d)[k])).Nothing?
  {
    hide At, WalkFrom, Select;
    var names := AllNames(d);
    if At(zone(names[0])).Nothing? {
      PolicyAndAlignmentAgree(zone, d);
      OrgWalkIsReference(zone, d);
      WalkRetrieves(zone, names, 0);
      SourceIffPublished(zone, names);
      if WalkFrom(zone, names, 0).Walked? {
        LastRecord(zone, names);
      }
      if LookupDMARC(zone, d).NoRecord? {
        forall k | 0 <= k < |names| ensures At(zone(names[k])).Nothing? {
          assert !At(zone(names[k])).Error? && !At(zone(names[k])).Got?;
        }
      }
    } else {
      OwnDecides(zone, d);
    }
  }

  lemma OwnDecides(zone: Name -> Definite, d: Name)
    requires !At(zone(d)).Nothing?
    ensures !LookupDMARC(zone, d).NoRecord?
  {
  }

  // ------------------------------------------------- outcomes by raw replies

  predicate SaysNothing(r: Definite) {
    r == Silent || r == NoName
  }

  predicate StatesPsd(r: Definite) {
    r.Published? && (r.rec.psd == Yes || r.rec.psd == No)
  }

  // A reply among the names that cannot be read, with none before it that ends
  // the walk.
  ghost predicate Unreadable(zone: Name -> Definite, names: seq<Name>) {
    exists k :: IsFault(zone, names, k)
  }

  ghost predicate IsFault(zone: Name -> Definite, names: seq<Name>, k: int) {
    0 <= k < |names| && zone(names[k]) == Garbled && forall j :: 0 <= j < k ==> !StatesPsd(zone(names[j]))
  }

  lemma {:induction false} WalkFailsExactly(zone: Name -> Definite, names: seq<Name>)
    ensures WalkFrom(zone, names, 0).Aborted? <==> Unreadable(zone, names)
  {
    hide WalkFrom, FirstDecisive;
    WalkRetrieves(zone, names, 0);
    var p := FirstDecisive(zone, names, 0);
    if WalkFrom(zone, names, 0).Aborted? {
      var k :| 0 <= k < |names| && k <= p && At(zone(names[k])).Error?;
      assert IsFault(zone, names, k);
    }
  }

  // What policy discovery and the alignment walk come to, in terms of the replies
  // themselves. A name that does not exist and one with no such text are alike.
  lemma {:induction false} OutcomesByReply(zone: Name -> Definite, d: Name)
    ensures LookupDMARC(zone, d).NoRecord? <==> forall n :: n in AllNames(d) ==> SaysNothing(zone(n))
    ensures LookupDMARC(zone, d).Failure? <==> !zone(d).Published? && Unreadable(zone, AllNames(d))
    ensures LookupDMARC(zone, d).Policy? <==>
              zone(d).Published? ||
              (SaysNothing(zone(d)) && !Unreadable(zone, AllNames(d)) && exists n :: n in AllNames(d) && zone(n).Published?)
    ensures OrgWalk(zone, d).None? <==> Unreadable(zone, AllNames(d))
  {
    hide WalkFrom, OrgWalk, LookupDMARC, Unreadable, SourcePosition, OrgPosition, TreeWalkNames;
    var names := AllNames(d);
    OrgWalkIsReference(zone, d);
    WalkFailsExactly(zone, names);
    AbsenceIsSound(zone, d);
    assert d == names[0] && d in names;
    if SaysNothing(zone(d)) {
      PolicyAndAlignmentAgree(zone, d);
      if LookupDMARC(zone, d).NoRecord? {
        forall n | n in names ensures SaysNothing(zone(n)) {
          var k :| 0 <= k < |names| && names[k] == n;
          assert At(zone(names[k])).Nothing?;
        }
      }
    } else {
      OwnReplyDecides(zone, d);
    }
  }

  lemma OwnReplyDecides(zone: Name -> Definite, d: Name)
    requires !SaysNothing(zone(d))
    ensures zone(d) == Garbled || zone(d).Published?
    ensures LookupDMARC(zone, d) == if zone(d).Published? then Policy(zone(d).rec) else Failure
    ensures zone(d) == Garbled ==> Unreadable(zone, AllNames(d))
  {
    hide WalkFrom, TreeWalkNames;
    assert AllNames(d)[0] == d;
    assert zone(d) == Garbled ==> IsFault(zone, AllNames(d), 0);
  }

  function PolicyTag(rec: DMARCRecord): string {
    if rec.inheritedFrom.Some? && rec.subPolicy != "" then "sp" else "p"
  }

  // No zone publishes the two fields that only a lookup fills in.
  ghost predicate AsParsed(zone: Name -> Definite) {
    forall n :: zone(n).Published? ==> zone(n).rec.inheritedFrom == None && zone(n).rec.parentPolicy == ""
  }

  // The policy reported is the value of the tag reported: sp of the publisher
  // for a name that inherits a record with one, p otherwise; and the replaced p
  // is kept exactly when it was replaced.
  lemma {:induction false} TagNamesThePolicy(zone: Name -> Definite, d: Name)
    requires AsParsed(zone) && LookupDMARC(zone, d).Policy?
    ensures var rec := LookupDMARC(zone, d).rec;
            exists n :: n in AllNames(d) && zone(n).Published? &&
              var pub := zone(n).rec;
              && rec.inheritedFrom == (if n == d then None else Some(n))
              && rec.policy == (if PolicyTag(rec) == "sp" then pub.subPolicy else pub.policy)
              && rec.parentPolicy == (if PolicyTag(rec) == "sp" then pub.policy else "")
              && (PolicyTag(rec) == "sp" <==> n != d && pub.subPolicy != "")
  {
    hide WalkFrom, Select, SourcePosition, LookupDMARC;
    var names := AllNames(d);
    NamesAreBounded(d);
    if At(zone(d)).Nothing? {
      PolicyAndAlignmentAgree(zone, d);
      var source := SourcePosition(zone, names);
      var n := names[source.value];
      assert n in names && zone(n).Published?;
    } else {
      OwnRecord(zone, d);
      assert d in names && zone(d).Published?;
    }
  }

  lemma OwnRecord(zone: Name -> Definite, d: Name)
    requires !At(zone(d)).Nothing? && LookupDMARC(zone, d).Policy?
    ensures At(zone(d)) == Got(LookupDMARC(zone, d).rec)
  {
  }

  // --------------------------------------------------------------- alignment

  // Whether two names align, or None when a walk does not complete.
  function Aligned(zone: Name -> Definite, from: Name, auth: Name, strict: bool): Option<bool> {
    if from == [""] || auth == [""] then Some(false)
    else if from == auth then Some(true)
    else if strict then Some(false)
    else
      var f, a := OrgWalk(zone, from), OrgWalk(zone, auth);
      if f.None? || a.None? then None else Some(f.value.org == a.value.org)
  }

  // Whatever the zone, failures included: strict alignment is sameness of names, a
  // name aligns with itself in either mode, and the empty name with nothing.
  lemma AlignedByNameAlone(zone: Name -> Definite, from: Name, auth: Name, strict: bool)
    ensures from == [""] || auth == [""] ==> Aligned(zone, from, auth, strict) == Some(false)
    ensures from != [""] && auth != [""] ==> Aligned(zone, from, auth, true) == Some(from == auth)
    ensures from != [""] ==> Aligned(zone, from, from, strict) == Some(true)
  {
  }

  // Relaxed alignment of names whose walks complete is sameness of organization,
  // hence an equivalence; it contains strict alignment; and a name aligns with
  // every name of its walk down from its organization, and with no other above.
  lemma {:induction false} RelaxedIsSameOrganization(zone: Name -> Definite, from: Name, auth: Name)
    requires from != [""] && auth != [""] && OrgWalk(zone, from).Some? && OrgWalk(zone, auth).Some?
    ensures Aligned(zone, from, auth, false) == Some(OrgWalk(zone, from).value.org == OrgWalk(zone, auth).value.org)
    ensures Aligned(zone, from, auth, true) == Some(true) ==> Aligned(zone, from, auth, false) == Some(true)
    ensures auth in AllNames(from) && |OrgWalk(zone, from).value.org| <= |auth| ==> Aligned(zone, from, auth, false) == Some(true)
    ensures auth in AllNames(from) && |auth| < |OrgWalk(zone, from).value.org| ==> Aligned(zone, from, auth, false) == Some(false)
  {
    hide OrgWalk;
    if auth in AllNames(from) {
      if |OrgWalk(zone, from).value.org| <= |auth| {
        OrgIsConstantBelow(zone, from, auth);
      } else {
        OrgIsAncestor(zone, auth);
      }
    }
  }
}

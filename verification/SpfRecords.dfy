// From what a zone publishes, character by character, to what an evaluation makes
// of it: which written terms are paid for, what each of them asks, and what each
// leaves in the result (spf/terms.go, spf/evaluate.go). Nothing here is stated
// through the functions that evaluation itself uses to decide these things.
module SpfRecords {
  import opened Text
  import opened Dnsx
  import opened SpfTerms
  import opened SpfTree
  import opened SpfTrace
  import opened SpfCost
  import opened SpfLimits

  // ---------------------------------------------------------- written records

  // The version and then the terms, one blank before each.
  function RecordOf(raws: seq<string>): string {
    Spaced(["v=spf1"] + raws)[1..]
  }

  lemma {:induction false} RecordReads(raws: seq<string>)
    requires forall i :: 0 <= i < |raws| ==> raws[i] != "" && Solid(raws[i])
    ensures Parse(RecordOf(raws)) == ParseAll(raws)
    ensures Classify([RecordOf(raws)]) == One(RecordOf(raws))
  {
    hide Word, Index, ParseTerm, Parse, IsVersion, Records;
    ParseRoundTrip(raws);
    RecordIsSpf(raws);
  }

  lemma {:induction false} RecordIsSpf(raws: seq<string>)
    requires forall i :: 0 <= i < |raws| ==> raws[i] != "" && Solid(raws[i])
    ensures Records([RecordOf(raws)]) == [RecordOf(raws)]
  {
    hide Word, Index;
    var fs := ["v=spf1"] + raws;
    var record, joined := RecordOf(raws), Spaced(fs);
    assert fs[0] == "v=spf1" && fs[1..] == raws;
    assert joined == " " + ("v=spf1" + Spaced(raws));
    FieldsOfSpaced(fs);
    SpacedEndsSolid(fs);
    assert record[0] == 'v' && record[|record| - 1] == joined[|joined| - 1];
    assert TrimLeft(record) == record && TrimRight(record) == record;
    assert Fields(record) == fs;
    VersionIsVersion();
    assert [record][..0] == [];
  }

  // However many blanks stand between words, and of whatever kind.
  lemma {:induction false} FieldsRead(blank: string, w: string, rest: string)
    requires AllBlank(blank) && w != "" && Solid(w) && (rest == "" || IsSpace(rest[0]))
    ensures Fields(blank + w + rest) == [w] + Fields(rest)
    ensures Fields(blank) == []
  {
    hide Word;
    var s := blank + w + rest;
    if blank == "" {
      assert s == w + rest && w[0] in w;
      WordOfPrefix(w, rest);
      assert s[|w|..] == rest;
    } else {
      assert blank[0] in blank && s[1..] == blank[1..] + w + rest;
      assert forall c :: c in blank[1..] ==> c in blank;
      FieldsRead(blank[1..], w, rest);
    }
  }

  // A term as its author writes it.
  datatype Written = Mechanism(qualifier: string, name: string, rest: string) | Modifier(name: string, value: string)

  function TextOf(w: Written): string {
    match w
    case Mechanism(q, name, rest) => q + name + rest
    case Modifier(name, value) => name + "=" + value
  }

  predicate WellFormed(w: Written) {
    && w.name != "" && ':' !in w.name && '=' !in w.name && Solid(TextOf(w))
    && (w.Mechanism? ==>
          w.qualifier in {"", "+", "-", "~", "?"} && !IsQualifier(w.name[0]) && '/' !in w.name && IsRest(w.rest))
  }

  // What stands behind the colon or the equals sign.
  function ValueOf(w: Written): string {
    match w
    case Mechanism(_, _, rest) => if rest != "" && rest[0] == ':' then rest[1..] else ""
    case Modifier(_, value) => value
  }

  predicate Is(w: Written, mechanism: string) {
    w.Mechanism? && Lower(w.name) == mechanism
  }

  predicate IsRedirect(w: Written) {
    w.Modifier? && Lower(w.name) == "redirect"
  }

  predicate LooksUp(w: Written) {
    Is(w, "include") || Is(w, "a") || Is(w, "mx") || Is(w, "ptr") || Is(w, "exists")
  }

  function TermOf(w: Written): Term {
    match w
    case Mechanism(q, name, _) => Term(TextOf(w), if q == "" then "+" else q, Lower(name), ValueOf(w), false)
    case Modifier(name, value) => Term(TextOf(w), "", Lower(name), value, true)
  }

  function Texts(ws: seq<Written>): seq<string> {
    seq(|ws|, i requires 0 <= i < |ws| => TextOf(ws[i]))
  }

  function Terms(ws: seq<Written>): seq<Term> {
    seq(|ws|, i requires 0 <= i < |ws| => TermOf(ws[i]))
  }

  lemma {:induction false} WrittenReads(w: Written)
    requires WellFormed(w)
    ensures TextOf(w) != "" && ParseTerm(TextOf(w)) == TermOf(w)
  {
    hide Lower, ParseTerm, Solid;
    match w
    case Mechanism(q, name, rest) => WrittenMechanism(q, name, rest);
    case Modifier(name, value) => ModifierRoundTrip(name, value);
  }

  lemma {:induction false} WrittenRecordReads(ws: seq<Written>)
    requires forall w :: w in ws ==> WellFormed(w)
    ensures Parse(RecordOf(Texts(ws))) == Terms(ws)
    ensures Classify([RecordOf(Texts(ws))]) == One(RecordOf(Texts(ws)))
  {
    hide Lower, ParseTerm, Solid, Parse, Classify, RecordOf;
    forall i | 0 <= i < |ws| ensures Texts(ws)[i] != "" && Solid(Texts(ws)[i]) && ParseTerm(Texts(ws)[i]) == Terms(ws)[i] {
      WrittenReads(ws[i]);
      WellFormedIsSolid(ws[i]);
    }
    RecordReads(Texts(ws));
    assert ParseAll(Texts(ws)) == Terms(ws);
  }

  lemma WellFormedIsSolid(w: Written)
    requires WellFormed(w)
    ensures Solid(TextOf(w))
  {
    hide Lower;
  }

  // -------------------------------------------------------- what is paid for

  // A looking-up mechanism counts unless "all" stands before it. A redirect counts
  // if it is the last and there is no "all" anywhere. Nothing else counts.
  ghost predicate IsPaidFor(ws: seq<Written>, i: nat)
    requires i < |ws|
  {
    if ws[i].Mechanism? then LooksUp(ws[i]) && forall j :: 0 <= j < i ==> !Is(ws[j], "all")
    else IsRedirect(ws[i]) && (forall j :: 0 <= j < |ws| ==> !Is(ws[j], "all")) && forall j :: i < j < |ws| ==> !IsRedirect(ws[j])
  }

  predicate Leads(w: Written) {
    w.Modifier? || Is(w, "include")
  }

  ghost predicate PaidTargetsIn(names: set<string>, ws: seq<Written>) {
    forall i :: 0 <= i < |ws| && IsPaidFor(ws, i) && Leads(ws[i]) ==> Normalize(ValueOf(ws[i])) in names
  }

  // One for a term paid for, and what its target costs if it leads to one.
  ghost function Price(r: Resolver, names: set<string>, path: seq<string>, ws: seq<Written>, i: nat): nat
    requires Closed(r, names) && PaidTargetsIn(names, ws) && i < |ws|
  {
    if !IsPaidFor(ws, i) then 0
    else if Leads(ws[i]) then 1 + CostBelow(r, names, path, Normalize(ValueOf(ws[i])))
    else 1
  }

  // The prices from position i on, added up.
  ghost function Total(r: Resolver, names: set<string>, path: seq<string>, ws: seq<Written>, i: nat): nat
    requires Closed(r, names) && PaidTargetsIn(names, ws) && i <= |ws|
    decreases |ws| - i
  {
    if i == |ws| then 0 else Price(r, names, path, ws, i) + Total(r, names, path, ws, i + 1)
  }

  // How the scan classifies a written term.
  lemma TermOfWritten(w: Written)
    ensures var t := TermOf(w);
            && t.modifier == w.Modifier? && t.value == ValueOf(w) && (Follows(t) <==> Leads(w))
            && (t.modifier && t.name == "redirect" <==> IsRedirect(w))
            && (!t.modifier && t.name == "all" <==> Is(w, "all"))
            && (!t.modifier && CostsLookup(t) <==> LooksUp(w))
            && (CostsLookup(t) <==> LooksUp(w) || IsRedirect(w))
  {
    hide Lower;
  }

  lemma {:induction false} TermsFrom(ws: seq<Written>, i: nat)
    requires i < |ws|
    ensures Terms(ws)[i..] != [] && Terms(ws)[i..][0] == TermOf(ws[i]) && Terms(ws)[i..][1..] == Terms(ws)[i + 1..]
  {
    hide Lower;
  }

  // A term paid for is among those the scan spends.
  lemma {:induction false} PaidIsCounted(ws: seq<Written>, i: nat, pending: Option<Term>, k: nat)
    requires i <= k < |ws| && IsPaidFor(ws, k)
    ensures TermOf(ws[k]) in Counted(Terms(ws)[i..], pending)
    decreases |ws| - i
  {
    hide Lower, CostsLookup, IsPaidFor, Is, IsRedirect, LooksUp;
    TermsFrom(ws, i);
    TermOfWritten(ws[i]);
    var t := TermOf(ws[i]);
    var next := if t.modifier && t.name == "redirect" then Some(t) else pending;
    PaidFacts(ws, i, k);
    CountedStep(Terms(ws)[i..], pending);
    if i < k {
      PaidIsCounted(ws, i + 1, next, k);
    } else if ws[k].Modifier? {
      PendingIsCounted(ws, k + 1, t);
    }
  }

  lemma CountedStep(terms: seq<Term>, pending: Option<Term>)
    requires terms != []
    ensures var t := terms[0];
            var next := if t.modifier && t.name == "redirect" then Some(t) else pending;
            Counted(terms, pending) ==
              if !t.modifier && t.name == "all" then []
              else (if !t.modifier && CostsLookup(t) then [t] else []) + Counted(terms[1..], next)
  {
    hide CostsLookup;
    var t := terms[0];
    var next := if t.modifier && t.name == "redirect" then Some(t) else pending;
    assert [] + Counted(terms[1..], next) == Counted(terms[1..], next);
  }

  lemma PaidFacts(ws: seq<Written>, i: nat, k: nat)
    requires i <= k < |ws| && IsPaidFor(ws, k)
    ensures !(ws[i].Mechanism? && Is(ws[i], "all"))
    ensures ws[k].Mechanism? ==> LooksUp(ws[k])
    ensures ws[k].Modifier? ==> IsRedirect(ws[k]) && forall j :: k < j < |ws| ==> !Is(ws[j], "all") && !IsRedirect(ws[j])
  {
    hide Lower;
  }

  lemma {:induction false} PendingIsCounted(ws: seq<Written>, i: nat, t: Term)
    requires i <= |ws| && forall j :: i <= j < |ws| ==> !Is(ws[j], "all") && !IsRedirect(ws[j])
    ensures t in Counted(Terms(ws)[i..], Some(t))
    decreases |ws| - i
  {
    hide Lower, CostsLookup, Is, IsRedirect, LooksUp;
    if i == |ws| {
      assert Terms(ws)[i..] == [];
    } else {
      TermsFrom(ws, i);
      TermOfWritten(ws[i]);
      CountedStep(Terms(ws)[i..], Some(t));
      PendingIsCounted(ws, i + 1, t);
    }
  }

  // No "all" and no redirect from position i on.
  predicate Clear(ws: seq<Written>, i: nat) {
    forall j :: i <= j < |ws| ==> !Is(ws[j], "all") && !IsRedirect(ws[j])
  }

  // What the scan spends from position i on, no "all" before it, comes to the
  // prices from there on, and that of the redirect found so far if it is used.
  lemma {:induction false} ScanIsTotal(r: Resolver, names: set<string>, path: seq<string>, ws: seq<Written>, i: nat, pending: Option<Term>)
    requires Closed(r, names) && PaidTargetsIn(names, ws) && i <= |ws|
    requires forall j :: 0 <= j < i ==> !Is(ws[j], "all")
    requires pending.Some? ==> pending.value.modifier && (Clear(ws, i) ==> Normalize(pending.value.value) in names)
    ensures TargetsIn(names, Counted(Terms(ws)[i..], pending))
    ensures Cost(r, names, path, Counted(Terms(ws)[i..], pending)) ==
              Total(r, names, path, ws, i) +
              if pending.Some? && Clear(ws, i) then 1 + CostBelow(r, names, path, Normalize(pending.value.value)) else 0
    decreases |ws| - i, 1
  {
    hide Lower, CostsLookup, Normalize, CostBelow, IsPaidFor, Closed, PaidTargetsIn, Is, IsRedirect, LooksUp, TermOf;
    if i == |ws| {
      assert Terms(ws)[i..] == [];
      CostOfPending(r, names, path, pending);
    } else if Is(ws[i], "all") {
      TermsFrom(ws, i);
      TermOfWritten(ws[i]);
      CountedStep(Terms(ws)[i..], pending);
      NothingAfterAll(r, names, path, ws, i, i);
      CostOfNone(r, names, path);
    } else {
      ScanGoesOn(r, names, path, ws, i, pending);
    }
  }

  lemma CostOfNone(r: Resolver, names: set<string>, path: seq<string>)
    requires Closed(r, names)
    ensures TargetsIn(names, []) && Cost(r, names, path, []) == 0
  {
    hide Closed;
  }

  lemma CostOfPending(r: Resolver, names: set<string>, path: seq<string>, pending: Option<Term>)
    requires Closed(r, names) && (pending.Some? ==> pending.value.modifier && Normalize(pending.value.value) in names)
    ensures TargetsIn(names, Counted([], pending))
    ensures Cost(r, names, path, Counted([], pending)) ==
            if pending.Some? then 1 + CostBelow(r, names, path, Normalize(pending.value.value)) else 0
  {
    hide Closed, Normalize, CostBelow;
    CostOfNone(r, names, path);
    if pending.Some? {
      assert [pending.value][1..] == [];
      assert pending.value in [pending.value];
    }
  }

  lemma {:induction false} NothingAfterAll(r: Resolver, names: set<string>, path: seq<string>, ws: seq<Written>, k: nat, i: nat)
    requires Closed(r, names) && PaidTargetsIn(names, ws) && k <= i <= |ws| && k < |ws| && Is(ws[k], "all")
    ensures Total(r, names, path, ws, i) == 0
    decreases |ws| - i
  {
    hide Closed, PaidTargetsIn, Lower, CostBelow, Normalize;
    if i < |ws| {
      NothingAfterAll(r, names, path, ws, k, i + 1);
    }
  }

  lemma PriceIs(r: Resolver, names: set<string>, path: seq<string>, ws: seq<Written>, i: nat)
    requires Closed(r, names) && PaidTargetsIn(names, ws) && i < |ws| && forall j :: 0 <= j <= i ==> !Is(ws[j], "all")
    ensures LooksUp(ws[i]) || (IsRedirect(ws[i]) && Clear(ws, i + 1)) ==>
              (Leads(ws[i]) ==> Normalize(ValueOf(ws[i])) in names) &&
              Price(r, names, path, ws, i) == 1 + if Leads(ws[i]) then CostBelow(r, names, path, Normalize(ValueOf(ws[i]))) else 0
    ensures !LooksUp(ws[i]) && !(IsRedirect(ws[i]) && Clear(ws, i + 1)) ==> Price(r, names, path, ws, i) == 0
    ensures Clear(ws, i) <==> !IsRedirect(ws[i]) && Clear(ws, i + 1)
    ensures LooksUp(ws[i]) ==> ws[i].Mechanism?
    ensures IsRedirect(ws[i]) ==> ws[i].Modifier? && Leads(ws[i])
  {
    hide Lower, CostBelow, Normalize, Closed;
    assert LooksUp(ws[i]) || (IsRedirect(ws[i]) && Clear(ws, i + 1)) <==> IsPaidFor(ws, i);
  }

  lemma CostOfFirst(r: Resolver, names: set<string>, path: seq<string>, t: Term, ts: seq<Term>)
    requires Closed(r, names) && TargetsIn(names, ts) && (Follows(t) ==> Normalize(t.value) in names)
    ensures TargetsIn(names, [t] + ts)
    ensures Cost(r, names, path, [t] + ts) ==
              1 + (if Follows(t) then CostBelow(r, names, path, Normalize(t.value)) else 0) + Cost(r, names, path, ts)
  {
    hide Closed, Normalize, CostBelow;
    var all := [t] + ts;
    assert all[0] == t && all[1..] == ts;
    assert forall x :: x in all ==> x == t || x in ts;
  }

  // One step of the scan past a term that does not end the record.
  lemma {:induction false} ScanGoesOn(r: Resolver, names: set<string>, path: seq<string>, ws: seq<Written>, i: nat, pending: Option<Term>)
    requires Closed(r, names) && PaidTargetsIn(names, ws) && i < |ws|
    requires forall j :: 0 <= j <= i ==> !Is(ws[j], "all")
    requires pending.Some? ==> pending.value.modifier && (Clear(ws, i) ==> Normalize(pending.value.value) in names)
    ensures TargetsIn(names, Counted(Terms(ws)[i..], pending))
    ensures Cost(r, names, path, Counted(Terms(ws)[i..], pending)) ==
              Total(r, names, path, ws, i) +
              if pending.Some? && Clear(ws, i) then 1 + CostBelow(r, names, path, Normalize(pending.value.value)) else 0
    decreases |ws| - i, 0
  {
    hide Lower, CostsLookup, Normalize, CostBelow, IsPaidFor, Closed, PaidTargetsIn, Is, IsRedirect, LooksUp, TermOf, Counted;
    hide Clear, Price, Follows, Leads, TargetsIn, Cost;
    TermsFrom(ws, i);
    TermOfWritten(ws[i]);
    CountedStep(Terms(ws)[i..], pending);
    var t := TermOf(ws[i]);
    PriceIs(r, names, path, ws, i);
    var next := if t.modifier && t.name == "redirect" then Some(t) else pending;
    ScanIsTotal(r, names, path, ws, i + 1, next);
    var rest := Counted(Terms(ws)[i + 1..], next);
    if LooksUp(ws[i]) {
      CostOfFirst(r, names, path, t, rest);
    } else {
      assert [] + rest == rest;
    }
  }

  // A name that publishes a record costs what the terms written in it come to.
  lemma {:induction false} WrittenRecordCosts(r: Resolver, names: set<string>, domain: string, ws: seq<Written>)
    requires Closed(r, names) && domain in names && (forall w :: w in ws ==> WellFormed(w))
    requires PublishedAt(r, domain) == One(RecordOf(Texts(ws)))
    ensures PaidTargetsIn(names, ws)
    ensures TreeCost(r, names, domain) == Total(r, names, [domain], ws, 0)
  {
    hide Lower, CostsLookup, Normalize, CostBelow, IsPaidFor, Is, IsRedirect, LooksUp, TermOf, Counted, PublishedAt, RecordOf, Parse;
    hide Costed, Cost, Leads, Follows;
    WrittenRecordReads(ws);
    CountedIsCosted(Terms(ws));
    assert Terms(ws)[0..] == Terms(ws);
    assert TargetsIn(names, Counted(Terms(ws), None));
    forall i | 0 <= i < |ws| && IsPaidFor(ws, i) && Leads(ws[i]) ensures Normalize(ValueOf(ws[i])) in names {
      PaidIsCounted(ws, 0, None, i);
      TermOfWritten(ws[i]);
    }
    ScanIsTotal(r, names, [domain], ws, 0, None);
  }

  predicate IsFirstAll(ws: seq<Written>, i: nat, k: int) {
    i <= k < |ws| && ws[k].Mechanism? && Is(ws[k], "all") && forall j :: i <= j < k ==> !Is(ws[j], "all")
  }

  // The qualifier reported for a record is that of its first "all", "+" when none is
  // written.
  lemma {:induction false} WrittenAll(ws: seq<Written>, i: nat)
    requires i <= |ws|
    ensures match AllQualifier(Terms(ws)[i..])
            case None => forall j :: i <= j < |ws| ==> !Is(ws[j], "all")
            case Some(q) => exists k :: IsFirstAll(ws, i, k) && q == if ws[k].qualifier == "" then "+" else ws[k].qualifier
    decreases |ws| - i
  {
    hide Lower, CostsLookup, Is, TermOf, AllQualifier;
    if i == |ws| {
      NoneIsAll(ws);
    } else {
      AllStep(ws, i);
      if Is(ws[i], "all") {
        assert IsFirstAll(ws, i, i);
      } else {
        WrittenAll(ws, i + 1);
        if AllQualifier(Terms(ws)[i + 1..]).Some? {
          var k :| IsFirstAll(ws, i + 1, k) &&
            AllQualifier(Terms(ws)[i + 1..]).value == if ws[k].qualifier == "" then "+" else ws[k].qualifier;
          assert IsFirstAll(ws, i, k);
        }
      }
    }
  }

  lemma NoneIsAll(ws: seq<Written>)
    ensures AllQualifier(Terms(ws)[|ws|..]) == None
  {
    hide TermOf;
  }

  lemma AllStep(ws: seq<Written>, i: nat)
    requires i < |ws|
    ensures AllQualifier(Terms(ws)[i..]) ==
              if Is(ws[i], "all") then Some(if ws[i].qualifier == "" then "+" else ws[i].qualifier)
              else AllQualifier(Terms(ws)[i + 1..])
    ensures Is(ws[i], "all") ==> ws[i].Mechanism?
  {
    hide Lower, CostsLookup;
    TermsFrom(ws, i);
    TermOfWritten(ws[i]);
  }

  // In particular a record with a single term.
  lemma {:induction false} OneTermCosts(r: Resolver, names: set<string>, domain: string, w: Written)
    requires Closed(r, names) && domain in names && WellFormed(w)
    requires PublishedAt(r, domain) == One(RecordOf([TextOf(w)]))
    ensures Is(w, "include") || IsRedirect(w) ==>
              Normalize(ValueOf(w)) in names &&
              TreeCost(r, names, domain) == 1 + CostBelow(r, names, [domain], Normalize(ValueOf(w)))
    ensures w.Mechanism? && Lower(w.name) in {"a", "mx", "ptr", "exists"} ==> TreeCost(r, names, domain) == 1
    ensures w.Mechanism? && Lower(w.name) !in {"include", "a", "mx", "ptr", "exists"} ==> TreeCost(r, names, domain) == 0
    ensures w.Modifier? && Lower(w.name) != "redirect" ==> TreeCost(r, names, domain) == 0
  {
    hide Lower, Normalize, CostBelow, PublishedAt, RecordOf, Closed, TreeCost, WellFormed, ValueOf;
    assert Texts([w]) == [TextOf(w)];
    WrittenRecordCosts(r, names, domain, [w]);
    var ws := [w];
    assert ws[0] == w;
    assert IsPaidFor(ws, 0) <==> LooksUp(w) || IsRedirect(w);
    assert Total(r, names, [domain], ws, 0) == Price(r, names, [domain], ws, 0) + Total(r, names, [domain], ws, 1);
    assert Total(r, names, [domain], ws, 1) == 0;
  }

  // ------------------------------------------------------------ what is published

  lemma {:induction false} LowerIs(s: string)
    ensures forall i :: 0 <= i < |s| ==>
              Lower(s)[i] == if 'A' <= s[i] <= 'Z' then 'a' + (s[i] - 'A') else s[i]
  {
  }

  lemma {:induction false} TrimRightKeeps(w: string, rest: string)
    requires w != "" && Solid(w) && (rest == "" || IsSpace(rest[0]))
    ensures exists k :: 0 <= k <= |rest| && TrimRight(w + rest) == w + rest[..k]
    decreases |rest|
  {
    var s := w + rest;
    if rest == "" {
      assert s == w && w[|w| - 1] in w;
      assert TrimRight(s) == w + rest[..0];
    } else if IsSpace(s[|s| - 1]) {
      assert s[..|s| - 1] == w + rest[..|rest| - 1];
      TrimRightKeeps(w, rest[..|rest| - 1]);
      var k :| 0 <= k <= |rest| - 1 && TrimRight(w + rest[..|rest| - 1]) == w + rest[..|rest| - 1][..k];
      assert rest[..|rest| - 1][..k] == rest[..k];
    } else {
      assert rest[..|rest|] == rest;
    }
  }

  // A string is an SPF record exactly when its first word is the version token, in
  // any case: v=spf10 or v=spf1;a is not.
  lemma {:induction false} SpfStringExactly(blank: string, w: string, rest: string)
    requires AllBlank(blank)
    requires w != "" && Solid(w) && (rest == "" || IsSpace(rest[0]))
    ensures IsSpf(blank + w + rest) <==> Lower(w) == "v=spf1"
  {
    hide Lower, Word;
    var s := w + rest;
    assert blank + w + rest == blank + s && s[0] == w[0] && w[0] in w;
    TrimLeftOff(blank, s);
    TrimRightKeeps(w, rest);
    var k :| 0 <= k <= |rest| && TrimRight(w + rest) == w + rest[..k];
    WordOfPrefix(w, rest[..k]);
    assert Fields(Trim(blank + s))[0] == w;
    TrimSolid(w);
  }

  // What a name publishes, by the reply: nothing for a name that does not exist, and
  // otherwise none, one or several SPF strings.
  lemma {:induction false} PublishedByReply(r: Resolver, name: string)
    ensures var p := PublishedAt(r, name); var q := Question(name, TXT);
            match r
            case Tracing(query) =>
              (match query(q)
               case Failed(err) => p == Unanswered(err)
               case Missing => p == Absent(NXDomain, [])
               case Answered(a) => if a.rcode == 3 then p == Absent(NXDomain, []) else IsCounted(a.txt, p))
            case Plain(lookup) =>
              (match lookup(q)
               case Broke(err) => p == Unanswered(err)
               case NoSuchName => p == Absent(NXDomain, [])
               case Found(txts) => IsCounted(txts, p))
  {
    hide Records, Picks;
    forall txts: seq<string> ensures IsCounted(txts, Classify(txts)) {
      RecordsAreTheSpfStrings(txts);
      var at :| Picks(txts, at, Records(txts));
      PicksAlike(txts, at, Records(txts));
    }
  }

  lemma PicksAlike(txts: seq<string>, at: seq<nat>, recs: seq<string>)
    requires Picks(txts, at, recs)
    ensures |at| == |recs|
  {
  }

  ghost predicate IsCounted(txts: seq<string>, p: Published) {
    exists at, recs ::
      Picks(txts, at, recs) &&
      p == if |at| == 0 then Absent(NoRecord, []) else if |at| == 1 then One(recs[0]) else Absent(Multiple, recs)
  }

  // --------------------------------------------------------- what a term leaves

  predicate SaysVoid(a: Answer) {
    a.rcode == 3 || (a.rcode == 0 && a.txt == [] && a.mx == [] && a.hosts == [])
  }

  // What came back for an address question: an error, nothing, or something.
  datatype Heard = Error(err: ErrText) | Silence | Something

  function Hears(r: Resolver, q: Question): Heard {
    match r
    case Tracing(query) =>
      (match query(q)
       case Failed(err) => Error(err)
       case Missing => Silence
       case Answered(a) => if SaysVoid(a) then Silence else Something)
    case Plain(lookup) =>
      (match lookup(q)
       case Broke(err) => Error(err)
       case NoSuchName => Silence
       case Found(values) => if values == [] then Silence else Something)
  }

  function Deeper(out: Result, depth: nat): nat {
    if depth > out.maxDepth then depth else out.maxDepth
  }

  function NodeFor(s: Run, path: seq<string>, target: string, via: Via, raw: string, outcome: Outcome): Node
    requires path != []
  {
    Node(|s.out.nodes|, path[|path| - 1], target, via, |path|, s.out.terms + 1, raw, outcome)
  }

  // A mechanism named a, mx, ptr or exists, within the limit: the whole state it
  // leaves. mx has an MX question asked and a and exists an A question, about the
  // value if there is one and the record's own name if not; ptr and a value with a
  // macro ask nothing.
  lemma {:induction false} AddressTermLeaves(r: Resolver, lim: Limits, path: seq<string>, w: Written, s: Run)
    requires path != [] && WellFormed(w) && w.Mechanism? && Lower(w.name) in {"a", "mx", "ptr", "exists"}
    requires !s.halted && s.out.terms + 1 <= lim.maxTerms
    ensures var s' := Step(lim, SpendOf(r, lim.maxDepth, path, ParseTerm(TextOf(w))), s);
            var value, name := ValueOf(w), Lower(w.name);
            var target := if Trim(value) != "" then Normalize(Trim(value)) else path[|path| - 1];
            var q := Question(target, if name == "mx" then MX else A);
            var via := if name == "a" then ViaA else if name == "mx" then ViaMX else if name == "ptr" then ViaPTR else ViaExists;
            var out := s.out.(terms := s.out.terms + 1, maxDepth := Deeper(s.out, |path|));
            if '%' in value then
              s' == s.(out := out.(nodes := s.out.nodes + [NodeFor(s, path, value, via, "", Macro)]))
            else if name == "ptr" then
              s' == s.(out := out.(nodes := s.out.nodes + [NodeFor(s, path, target, via, "", Macro)]))
            else
              match Hears(r, q)
              case Something =>
                s' == s.(out := out.(nodes := s.out.nodes + [NodeFor(s, path, target, via, "", OK)]), asked := s.asked + [q])
              case Silence =>
                s' == s.(out := out.(nodes := s.out.nodes + [NodeFor(s, path, target, via, "", Void)],
                                     void := s.out.void + 1,
                                     permError := if s.out.void + 1 > lim.maxVoid && s.out.permError == NoError then OverVoidLimit
                                                  else s.out.permError),
                         asked := s.asked + [q])
              case Error(err) =>
                s' == s.(out := out.(nodes := s.out.nodes + [NodeFor(s, path, target, via, "", TempError)],
                                     tempError := err, termsExact := false),
                         asked := s.asked + [q], halted := true)
  {
    hide Lower, Normalize, Trim, ParseTerm, TextOf, WellFormed, Step, Applied, Hears, TerminalEffect, FollowEffect;
    WrittenReads(w);
    TermFields(w);
    var e := SpendOf(r, lim.maxDepth, path, ParseTerm(TextOf(w)));
    AddressEffect(r, path[|path| - 1], ParseTerm(TextOf(w)));
    WithinLimit(lim, e, s);
    AppliedAddress(lim, path, e, s);
  }

  // What an effect that leads nowhere further leaves.
  lemma {:induction false} AppliedAddress(lim: Limits, path: seq<string>, e: Event, s: Run)
    requires path != [] && e.Spend? && e.owner == path[|path| - 1] && e.depth == |path| && !s.halted
    requires e.effect.Unexpanded? || e.effect.AddressFound? || e.effect.AddressVoid? || e.effect.AddressUnanswered?
    ensures var s' := Applied(lim, e, Counting(s)); var target := e.effect.target;
            var out := s.out.(terms := s.out.terms + 1, maxDepth := Deeper(s.out, |path|));
            match e.effect
            case Unexpanded(_) => s' == s.(out := out.(nodes := s.out.nodes + [NodeFor(s, path, target, e.via, "", Macro)]))
            case AddressFound(_, qtype) =>
              s' == s.(out := out.(nodes := s.out.nodes + [NodeFor(s, path, target, e.via, "", OK)]),
                       asked := s.asked + [Question(target, qtype)])
            case AddressVoid(_, qtype) =>
              s' == s.(out := out.(nodes := s.out.nodes + [NodeFor(s, path, target, e.via, "", Void)],
                                   void := s.out.void + 1,
                                   permError := if s.out.void + 1 > lim.maxVoid && s.out.permError == NoError then OverVoidLimit
                                                else s.out.permError),
                       asked := s.asked + [Question(target, qtype)])
            case AddressUnanswered(_, qtype, err) =>
              s' == s.(out := out.(nodes := s.out.nodes + [NodeFor(s, path, target, e.via, "", TempError)],
                                   tempError := err, termsExact := false),
                       asked := s.asked + [Question(target, qtype)], halted := true)
            case _ => true
  {
    assert s.asked + [] == s.asked;
  }

  lemma TermFields(w: Written)
    ensures TermOf(w).modifier == w.Modifier? && TermOf(w).name == Lower(w.name) && TermOf(w).value == ValueOf(w)
  {
  }

  lemma WithinLimit(lim: Limits, e: Event, s: Run)
    requires e.Spend? && s.out.terms + 1 <= lim.maxTerms
    ensures Step(lim, e, s) == Applied(lim, e, Counting(s))
  {
  }

  lemma AddressEffect(r: Resolver, domain: string, t: Term)
    requires !t.modifier && t.name in {"a", "mx", "ptr", "exists"}
    ensures var target := if Trim(t.value) != "" then Normalize(Trim(t.value)) else domain;
            var qtype := if t.name == "mx" then MX else A;
            TerminalEffect(r, domain, t) ==
              if '%' in t.value then Unexpanded(t.value)
              else if t.name == "ptr" then Unexpanded(target)
              else match Hears(r, Question(target, qtype))
                   case Something => AddressFound(target, qtype)
                   case Silence => AddressVoid(target, qtype)
                   case Error(err) => AddressUnanswered(target, qtype, err)
  {
    hide Normalize, Trim;
  }

  // An include or a redirect within the limit: the whole state it leaves, apart from
  // what lies below a record it leads to.
  lemma {:induction false} FollowedTermLeaves(r: Resolver, lim: Limits, path: seq<string>, w: Written, s: Run)
    requires path != [] && WellFormed(w) && (Is(w, "include") || IsRedirect(w))
    requires !s.halted && s.out.terms + 1 <= lim.maxTerms
    ensures var s' := Step(lim, SpendOf(r, lim.maxDepth, path, ParseTerm(TextOf(w))), s);
            var target, via := Normalize(ValueOf(w)), if w.Modifier? then ViaRedirect else ViaInclude;
            var out := s.out.(terms := s.out.terms + 1, maxDepth := Deeper(s.out, |path|),
                              includes := if target in s.seen then s.out.includes else s.out.includes + [target]);
            var seen := s.seen + {target};
            if target == "" then s' == s.(out := s.out.(terms := s.out.terms + 1, permError := Syntax))
            else if target in path then
              s' == s.(seen := seen, out := out.(nodes := s.out.nodes + [NodeFor(s, path, target, via, "", Cyclic)],
                                                 cycles := s.out.cycles + [path + [target]]))
            else if |path| > lim.maxDepth then
              s' == s.(seen := seen, halted := true,
                       out := out.(nodes := s.out.nodes + [NodeFor(s, path, target, via, "", Limit)], termsExact := false))
            else
              match PublishedAt(r, target)
              case One(record) =>
                s' == s.(seen := seen, asked := s.asked + [Question(target, TXT)],
                         out := out.(nodes := s.out.nodes + [NodeFor(s, path, target, via, record, OK)]))
              case Absent(reason, _) =>
                s' == s.(seen := seen, asked := s.asked + [Question(target, TXT)],
                         out := out.(nodes := s.out.nodes + [NodeFor(s, path, target, via, "", reason)],
                                     broken := s.out.broken + [Broken(path[|path| - 1], target, via, reason)],
                                     permError := if s.out.permError == NoError then IncludeNoRecord else s.out.permError))
              case Unanswered(err) =>
                s' == s.(seen := seen, asked := s.asked + [Question(target, TXT)], halted := true,
                         out := out.(nodes := s.out.nodes + [NodeFor(s, path, target, via, "", TempError)],
                                     tempError := err, termsExact := false))
  {
    hide Lower, Normalize, Trim, ParseTerm, TextOf, WellFormed, Step, Applied, PublishedAt, TerminalEffect, ValueOrDomain;
    WrittenReads(w);
    TermFields(w);
    var e := SpendOf(r, lim.maxDepth, path, ParseTerm(TextOf(w)));
    WithinLimit(lim, e, s);
    if e.effect.NoTarget? {
      AppliedNowhere(lim, e, s);
    } else if e.effect.Cycle? || e.effect.TooDeep? {
      AppliedUnasked(lim, path, e, s);
    } else {
      AppliedAsked(lim, path, e, s);
    }
  }

  // What following a target leaves, before anything below it: without a question ...
  lemma {:induction false} AppliedUnasked(lim: Limits, path: seq<string>, e: Event, s: Run)
    requires path != [] && e.Spend? && e.owner == path[|path| - 1] && e.depth == |path| && !s.halted
    requires e.effect.Cycle? || e.effect.TooDeep?
    ensures var s' := Applied(lim, e, Counting(s));
            var target := e.effect.target;
            var out := s.out.(terms := s.out.terms + 1, maxDepth := Deeper(s.out, |path|),
                              includes := if target in s.seen then s.out.includes else s.out.includes + [target]);
            var seen := s.seen + {target};
            match e.effect
            case Cycle(_, cycle) =>
              s' == s.(seen := seen, out := out.(nodes := s.out.nodes + [NodeFor(s, path, target, e.via, "", Cyclic)],
                                                 cycles := s.out.cycles + [cycle]))
            case TooDeep(_) =>
              s' == s.(seen := seen, halted := true,
                       out := out.(nodes := s.out.nodes + [NodeFor(s, path, target, e.via, "", Limit)], termsExact := false))
            case _ => true
  {
    assert s.asked + [] == s.asked;
    if e.effect.target in s.seen {
      assert s.seen + {e.effect.target} == s.seen;
    }
  }

  // ... and with one.
  lemma {:induction false} AppliedAsked(lim: Limits, path: seq<string>, e: Event, s: Run)
    requires path != [] && e.Spend? && e.owner == path[|path| - 1] && e.depth == |path| && !s.halted
    requires e.effect.RecordUnanswered? || e.effect.Unusable? || e.effect.Entered?
    ensures var s' := Applied(lim, e, Counting(s));
            var target := e.effect.target;
            var out := s.out.(terms := s.out.terms + 1, maxDepth := Deeper(s.out, |path|),
                              includes := if target in s.seen then s.out.includes else s.out.includes + [target]);
            var seen := s.seen + {target};
            match e.effect
            case Entered(_, record) =>
              s' == s.(seen := seen, asked := s.asked + [Question(target, TXT)],
                       out := out.(nodes := s.out.nodes + [NodeFor(s, path, target, e.via, record, OK)]))
            case Unusable(_, reason) =>
              s' == s.(seen := seen, asked := s.asked + [Question(target, TXT)],
                       out := out.(nodes := s.out.nodes + [NodeFor(s, path, target, e.via, "", reason)],
                                   broken := s.out.broken + [Broken(path[|path| - 1], target, e.via, reason)],
                                   permError := if s.out.permError == NoError then IncludeNoRecord else s.out.permError))
            case RecordUnanswered(_, err) =>
              s' == s.(seen := seen, asked := s.asked + [Question(target, TXT)], halted := true,
                       out := out.(nodes := s.out.nodes + [NodeFor(s, path, target, e.via, "", TempError)],
                                   tempError := err, termsExact := false))
            case _ => true
  {
    assert s.asked + [] == s.asked;
    if e.effect.target in s.seen {
      assert s.seen + {e.effect.target} == s.seen;
    }
  }

  lemma AppliedNowhere(lim: Limits, e: Event, s: Run)
    requires e.Spend? && e.effect.NoTarget? && !s.halted
    ensures Applied(lim, e, Counting(s)) == s.(out := s.out.(terms := s.out.terms + 1, permError := Syntax))
  {
    assert s.asked + [] == s.asked;
  }

  // A term over the limit: the evaluation ends, nothing is asked, and a redirect
  // leaves not even a node.
  lemma {:induction false} TermOverTheLimit(r: Resolver, lim: Limits, path: seq<string>, w: Written, s: Run)
    requires path != [] && WellFormed(w) && (LooksUp(w) || IsRedirect(w))
    requires !s.halted && s.out.terms + 1 > lim.maxTerms
    ensures var s' := Step(lim, SpendOf(r, lim.maxDepth, path, ParseTerm(TextOf(w))), s);
            var name := Lower(w.name);
            var out := s.out.(terms := s.out.terms + 1, permError := OverTermLimit, termsExact := false);
            if w.Modifier? then s' == s.(halted := true, out := out)
            else
              var named := if Trim(ValueOf(w)) != "" then Normalize(Trim(ValueOf(w))) else path[|path| - 1];
              var via := if name == "include" then ViaInclude else if name == "a" then ViaA else if name == "mx" then ViaMX
                         else if name == "ptr" then ViaPTR else ViaExists;
              s' == s.(halted := true, out := out.(maxDepth := Deeper(s.out, |path|),
                                                   nodes := s.out.nodes + [NodeFor(s, path, named, via, "", Limit)]))
  {
    hide Lower, Normalize, Trim, ParseTerm, TextOf, WellFormed, TerminalEffect, FollowEffect, Applied;
    WrittenReads(w);
    TermFields(w);
  }

  // ------------------------------------------------------------------ the root

  // What no term changes: the domain, its own record, and whether void lookups can
  // be told exactly.
  predicate SameHead(a: Result, b: Result) {
    a.domain == b.domain && a.records == b.records && a.raw == b.raw && a.found == b.found && a.voidExact == b.voidExact
  }

  lemma RecordedHead(lim: Limits, e: Event, out: Result)
    requires e.Spend?
    ensures SameHead(out, Recorded(lim, e, out))
  {
  }

  lemma {:induction false} StepKeepsHead(lim: Limits, e: Event, s: Run)
    ensures SameHead(s.out, Step(lim, e, s).out)
  {
    hide Recorded, OutcomeOf, AskedBy, Halts;
    if e.Spend? {
      var c := Counting(s);
      RecordedHead(lim, e, (if IsListed(e.effect) then Noted(c, e.effect.target) else c).out);
    }
  }

  lemma {:induction false} ReplayKeepsHead(lim: Limits, es: seq<Event>, s: Run)
    ensures SameHead(s.out, Replay(lim, es, s).out)
    decreases |es|
  {
    hide Step;
    if es != [] && !s.halted {
      StepKeepsHead(lim, es[0], s);
      ReplayKeepsHead(lim, es[1..], Step(lim, es[0], s));
    }
  }

  // What a domain's own answer leaves: the whole result when there is no one record,
  // and otherwise the first node and the fields that hold the record.
  lemma {:induction false} RootLeaves(r: Resolver, lim: Limits, domain: string)
    ensures var d := Normalize(domain); var run := Evaluation(r, lim, domain); var out := run.out;
            var none := Result(d, [], "", false, "", 0, true, 0, r.Tracing?, 0, [], [], [], [], NoError, "");
            match PublishedAt(r, d)
            case Unanswered(err) => run == Run(none.(tempError := err, termsExact := false), {}, false, [Question(d, TXT)])
            case Absent(reason, found) =>
              run == Run(none.(nodes := [Node(0, "", d, ViaRoot, 0, 0, "", reason)],
                               records := if reason == Multiple then found else [],
                               permError := if reason == Multiple then MultipleRecords else NoError),
                         {}, false, [Question(d, TXT)])
            case One(record) =>
              && out.domain == d && out.found && out.records == [record] && out.raw == record && out.voidExact == r.Tracing?
              && out.nodes != [] && out.nodes[0] == Node(0, "", d, ViaRoot, 0, 0, record, OK)
              && run.asked != [] && run.asked[0] == Question(d, TXT)
  {
    hide Normalize, Parse, Replay, RecordEvents, PublishedAt;
    var d := Normalize(domain);
    var p := PublishedAt(r, d);
    if p.One? {
      var start := Entry(Run(Fresh(d, r.Tracing?), {}, false, [Question(d, TXT)]), p.record);
      var es := RecordEvents(r, lim.maxDepth, [d], Parse(p.record));
      ReplayKeepsHead(lim, es, start);
      ReplayExtends(lim, es, start);
    }
  }

  // From the record as written to the count reported.
  lemma {:induction false} WrittenRecordIsCounted(r: Resolver, names: set<string>, lim: Limits, domain: string, ws: seq<Written>)
    requires Closed(r, names) && Normalize(domain) in names && 0 <= lim.maxTerms <= lim.maxDepth
    requires (forall w :: w in ws ==> WellFormed(w)) && PublishedAt(r, Normalize(domain)) == One(RecordOf(Texts(ws)))
    ensures PaidTargetsIn(names, ws)
    ensures var out := Evaluation(r, lim, domain).out; var total := Total(r, names, [Normalize(domain)], ws, 0);
            && (out.tempError == "" ==> out.terms == Min(lim.maxTerms + 1, total) && (out.termsExact <==> total <= lim.maxTerms))
            && (out.tempError != "" ==> out.terms <= Min(lim.maxTerms + 1, total) && !out.termsExact)
  {
    hide Normalize, Evaluation, TreeCost, Total, PublishedAt, Closed, WellFormed, RecordOf;
    WrittenRecordCosts(r, names, Normalize(domain), ws);
    BudgetRefinement(r, names, lim, domain);
  }
}

// From the text of a v=spf1 policy to terms and back (spf/terms.go).
module SpfTerms {
  import opened Text

  datatype Term = Term(raw: string, qualifier: string, name: string, value: string, modifier: bool)

  const COSTING_MECHANISMS: set<string> := {"include", "a", "mx", "ptr", "exists"}

  // Whether the term is one of those section 4.6.4 of RFC 7208 limits.
  predicate CostsLookup(t: Term) {
    if t.modifier then t.name == "redirect" else t.name in COSTING_MECHANISMS
  }

  predicate HasMacro(t: Term) {
    '%' in t.value
  }

  predicate IsVersion(s: string) {
    Lower(Trim(s)) == "v=spf1"
  }

  predicate IsQualifier(c: char) {
    c in {'+', '-', '~', '?'}
  }

  function ParseMechanism(raw: string, qualifier: string, rest: string): Term {
    var colon := Index(rest, ':');
    var slash := Index(rest, '/');
    if colon >= 0 then Term(raw, qualifier, Lower(rest[..colon]), rest[colon + 1..], false)
    else if slash >= 0 then Term(raw, qualifier, Lower(rest[..slash]), "", false)
    else Term(raw, qualifier, Lower(rest), "", false)
  }

  function ParseTerm(f: string): Term
    requires f != ""
  {
    var colon := Index(f, ':');
    var eq := Index(f, '=');
    if eq > 0 && (colon < 0 || eq < colon) then Term(f, "", Lower(f[..eq]), f[eq + 1..], true)
    else if IsQualifier(f[0]) then ParseMechanism(f, f[..1], f[1..])
    else ParseMechanism(f, "+", f)
  }

  function ParseAll(fields: seq<string>): (ts: seq<Term>)
    requires forall i :: 0 <= i < |fields| ==> fields[i] != ""
    ensures |ts| == |fields|
    ensures forall i :: 0 <= i < |ts| ==> ts[i] == ParseTerm(fields[i])
  {
    if fields == [] then [] else ParseAll(fields[..|fields| - 1]) + [ParseTerm(fields[|fields| - 1])]
  }

  // One term per field after the version token, and none without that token.
  function Parse(record: string): seq<Term> {
    var fields := Fields(Trim(record));
    if fields == [] || !IsVersion(fields[0]) then [] else ParseAll(fields[1..])
  }

  method ParseRecord(record: string) returns (terms: seq<Term>)
    ensures terms == Parse(record)
  {
    hide IsVersion, Trim, ParseTerm;
    terms := [];
    var fields := Fields(Trim(record));
    if fields == [] || !IsVersion(fields[0]) {
      return;
    }
    for i := 1 to |fields|
      invariant terms == ParseAll(fields[1..i])
    {
      assert fields[1..i + 1][..i - 1] == fields[1..i];
      terms := terms + [ParseTerm(fields[i])];
    }
    assert fields[1..] == fields[1..|fields|];
  }

  function FirstField(s: string): string {
    var f := Fields(Trim(s));
    if f == [] then "" else f[0]
  }

  predicate IsSpf(txt: string) {
    IsVersion(FirstField(txt))
  }

  // The strings with the version token in front, trimmed, last one last.
  function Records(txts: seq<string>): (recs: seq<string>) {
    if txts == [] then []
    else
      var t := txts[|txts| - 1];
      Records(txts[..|txts| - 1]) + (if IsSpf(t) then [Trim(t)] else [])
  }

  // The positions in at are those of the SPF strings, in order, and recs is what
  // stands there.
  ghost predicate Picks(txts: seq<string>, at: seq<nat>, recs: seq<string>) {
    && |at| == |recs|
    && (forall k :: 0 <= k < |at| ==> at[k] < |txts| && IsSpf(txts[at[k]]) && recs[k] == Trim(txts[at[k]]))
    && (forall k, m :: 0 <= k < m < |at| ==> at[k] < at[m])
    && (forall i :: 0 <= i < |txts| && IsSpf(txts[i]) ==> i in at)
  }

  lemma {:induction false} RecordsAreTheSpfStrings(txts: seq<string>)
    ensures exists at :: Picks(txts, at, Records(txts))
  {
    hide IsSpf, Picks, Trim;
    if txts == [] {
      NothingPicked();
      assert Picks(txts, [], Records(txts));
    } else {
      var n := |txts| - 1;
      RecordsAreTheSpfStrings(txts[..n]);
      var at :| Picks(txts[..n], at, Records(txts[..n]));
      assert txts == txts[..n] + [txts[n]];
      PicksOneMore(txts[..n], txts[n], at, Records(txts[..n]));
      assert Records(txts) == Records(txts[..n]) + if IsSpf(txts[n]) then [Trim(txts[n])] else [];
      if IsSpf(txts[n]) {
        assert Picks(txts, at + [n], Records(txts[..n]) + [Trim(txts[n])]);
      } else {
        assert Records(txts) == Records(txts[..n]);
        assert Picks(txts, at, Records(txts));
      }
    }
  }

  lemma NothingPicked()
    ensures Picks([], [], [])
  {
  }

  lemma {:induction false} PicksOneMore(txts: seq<string>, t: string, at: seq<nat>, recs: seq<string>)
    requires Picks(txts, at, recs)
    ensures IsSpf(t) ==> Picks(txts + [t], at + [|txts|], recs + [Trim(t)])
    ensures !IsSpf(t) ==> Picks(txts + [t], at, recs)
  {
    hide IsSpf, Trim;
    var more := txts + [t];
    assert forall i :: 0 <= i < |txts| ==> more[i] == txts[i];
    assert (at + [|txts|])[|at|] == |txts|;
    assert forall i :: i in at ==> i in at + [|txts|];
  }

  method SelectRecords(txts: seq<string>) returns (recs: seq<string>)
    ensures recs == Records(txts)
    ensures exists at :: Picks(txts, at, recs)
  {
    hide Picks, IsSpf;
    recs := [];
    for i := 0 to |txts|
      invariant recs == Records(txts[..i])
    {
      assert txts[..i + 1][..i] == txts[..i];
      if IsSpf(txts[i]) {
        recs := recs + [Trim(txts[i])];
      }
    }
    assert txts[..|txts|] == txts;
    RecordsAreTheSpfStrings(txts);
  }

  lemma {:induction false} IndexFirst(s: string, c: char, i: nat)
    requires i < |s| && s[i] == c && c !in s[..i]
    ensures Index(s, c) == i
  {
  }

  lemma {:induction false} IndexPast(s: string, c: char, i: nat)
    requires i <= |s| && c !in s[..i]
    ensures Index(s, c) < 0 || Index(s, c) >= i
  {
  }

  lemma {:induction false} MechanismSplit(raw: string, q: string, name: string, value: string)
    requires ':' !in name
    ensures ParseMechanism(raw, q, name + ":" + value) == Term(raw, q, Lower(name), value, false)
  {
    var rest := name + ":" + value;
    assert rest[..|name|] == name && rest[|name| + 1..] == value;
    IndexFirst(rest, ':', |name|);
  }

  // A mechanism keeps its value verbatim, "=" included: the colon binds first.
  // This is what makes exists:%{i}=x.example a mechanism.
  lemma {:induction false} MechanismRoundTrip(name: string, value: string)
    requires name != "" && ':' !in name && '=' !in name && !IsQualifier(name[0])
    ensures var f := name + ":" + value;
            f != "" && ParseTerm(f) == Term(f, "+", Lower(name), value, false)
  {
    var f := name + ":" + value;
    IndexFirst(f, ':', |name|);
    assert f[..|name|] == name;
    IndexPast(f, '=', |name|);
    MechanismSplit(f, "+", name, value);
  }

  lemma {:induction false} QualifiedRoundTrip(q: char, name: string, value: string)
    requires IsQualifier(q) && ':' !in name && '=' !in name
    ensures var f := [q] + (name + ":" + value);
            f != "" && ParseTerm(f) == Term(f, [q], Lower(name), value, false)
  {
    var rest := name + ":" + value;
    var f := [q] + rest;
    var head := [q] + name;
    assert f == head + ":" + value;
    assert f[..|head|] == head;
    IndexFirst(f, ':', |head|);
    IndexPast(f, '=', |head|);
    assert f[..1] == [q] && f[1..] == rest;
    MechanismSplit(f, [q], name, value);
  }

  // What may follow a mechanism's name: nothing, a value, or a prefix length.
  predicate IsRest(rest: string) {
    rest == "" || rest[0] == ':' || (rest[0] == '/' && ':' !in rest && '=' !in rest)
  }

  // Any mechanism as written: a qualifier or none, the name, and what follows it.
  // No qualifier is "+", the name is not case-sensitive, and only a colon brings a
  // value.
  lemma {:induction false} WrittenMechanism(q: string, name: string, rest: string)
    requires q in {"", "+", "-", "~", "?"} && name != "" && !IsQualifier(name[0]) && IsRest(rest)
    requires ':' !in name && '=' !in name && '/' !in name
    ensures var f := q + name + rest;
            f != "" && ParseTerm(f) == Term(f, if q == "" then "+" else q, Lower(name),
                                            if rest != "" && rest[0] == ':' then rest[1..] else "", false)
  {
    hide Lower, Index;
    var f, body := q + name + rest, name + rest;
    if rest != "" && rest[0] == ':' {
      assert body == name + ":" + rest[1..];
      if q == "" {
        assert f == body;
        MechanismRoundTrip(name, rest[1..]);
      } else {
        assert f == [q[0]] + (name + ":" + rest[1..]);
        QualifiedRoundTrip(q[0], name, rest[1..]);
      }
    } else {
      NoColonReads(f, q, name, rest);
    }
  }

  lemma {:induction false} NoColonReads(f: string, q: string, name: string, rest: string)
    requires q in {"", "+", "-", "~", "?"} && name != "" && !IsQualifier(name[0]) && IsRest(rest) && f == q + name + rest
    requires ':' !in name && '=' !in name && '/' !in name && (rest == "" || rest[0] == '/')
    ensures ParseTerm(f) == Term(f, if q == "" then "+" else q, Lower(name), "", false)
  {
    hide Lower;
    var body := name + rest;
    assert ':' !in f && '=' !in f && ':' !in body;
    assert Index(f, ':') < 0 && Index(f, '=') < 0 && Index(body, ':') < 0;
    if q == "" {
      assert f == body && f[0] == name[0];
    } else {
      assert f[0] == q[0] && f[..1] == q && f[1..] == body;
    }
    if rest == "" {
      assert body == name && Index(body, '/') < 0;
    } else {
      IndexFirst(body, '/', |name|);
      assert body[..|name|] == name;
    }
  }

  // A modifier is a name and everything after the first "=", colons included.
  lemma {:induction false} ModifierRoundTrip(name: string, value: string)
    requires name != "" && ':' !in name && '=' !in name
    ensures name + "=" + value != ""
    ensures var f := name + "=" + value; ParseTerm(f) == Term(f, "", Lower(name), value, true)
  {
    var f := name + "=" + value;
    IndexFirst(f, '=', |name|);
    assert f[..|name|] == name && f[|name| + 1..] == value;
    IndexPast(f, ':', |name|);
  }

  // Reading back a record written as "v=spf1" and the raw terms, one blank
  // before each, gives exactly those terms.
  lemma {:induction false} ParseRoundTrip(raws: seq<string>)
    requires forall i :: 0 <= i < |raws| ==> raws[i] != "" && Solid(raws[i])
    ensures Parse(Spaced(["v=spf1"] + raws)[1..]) == ParseAll(raws)
  {
    hide Word, Index, ParseTerm;
    var fs := ["v=spf1"] + raws;
    var joined := Spaced(fs);
    var s := joined[1..];
    assert fs[0] == "v=spf1" && fs[1..] == raws;
    assert joined == " " + ("v=spf1" + Spaced(raws));
    FieldsOfSpaced(fs);
    assert Fields(s) == fs;
    SpacedEndsSolid(fs);
    assert s[0] == 'v' && s[|s| - 1] == joined[|joined| - 1];
    assert TrimLeft(s) == s && TrimRight(s) == s;
    assert IsVersion(fs[0]) by {
      VersionIsVersion();
    }
  }

  lemma VersionIsVersion()
    ensures IsVersion("v=spf1")
  {
  }

  lemma {:induction false} SpacedEndsSolid(fs: seq<string>)
    requires fs != [] && forall i :: 0 <= i < |fs| ==> fs[i] != "" && Solid(fs[i])
    ensures Spaced(fs) != "" && !IsSpace(Spaced(fs)[|Spaced(fs)| - 1])
    ensures |Spaced(fs)| > 1
  {
    var last := fs[0];
    if |fs| == 1 {
      assert last[|last| - 1] in last;
      assert Spaced(fs[1..]) == "";
    } else {
      SpacedEndsSolid(fs[1..]);
    }
  }
}

// Loading the provider table and matching names against it
// (provider/provider.go).
module Providers {
  import opened Text
  import opened Dnsx

  datatype MailFromRule = MailFromRule(subdomain: string, on: string)

  datatype Provider = Provider(
    id: string, name: string, category: string,
    mx: seq<string>, spf: seq<string>, dkim: seq<string>, cname: seq<string>,
    selectors: seq<string>, keys: seq<string>, mailFrom: seq<MailFromRule>)

  const CATEGORIES: set<string> :=
    {"mailbox", "esp", "crm", "support", "forwarding", "security_gateway", "authentication"}

  const KEY_HASH_LEN := 16

  // The seven maps of a matcher, told apart by kind.
  datatype Kind = ForMX | ForSPF | ForDKIM | ForCNAME | ForSelector | ForKey | ForMailFrom

  datatype Slot = Slot(kind: Kind, key: string)

  type Table = map<Slot, Provider>

  // One thing a provider lays claim to; None when the entry is unusable.
  type Claim = Option<Slot>

  function SuffixClaim(kind: Kind, suffix: string): Claim {
    var s := Normalize(suffix);
    if s == "" || '.' !in s then None else Some(Slot(kind, s))
  }

  function SelectorClaim(selector: string): Claim {
    var s := Lower(Trim(selector));
    if s == "" || '.' in s then None else Some(Slot(ForSelector, s))
  }

  predicate IsHex(c: char) {
    '0' <= c <= '9' || 'a' <= c <= 'f'
  }

  function KeyClaim(key: string): Claim {
    var k := Lower(Trim(key));
    if |k| != KEY_HASH_LEN || exists c :: c in k && !IsHex(c) then None else Some(Slot(ForKey, k))
  }

  function MailFromKey(subdomain: string, on: string): string {
    subdomain + "|" + on
  }

  function MailFromClaim(rule: MailFromRule): Claim {
    var subdomain := Lower(Trim(rule.subdomain));
    if subdomain == "" || '.' in subdomain then None else Some(Slot(ForMailFrom, MailFromKey(subdomain, Lower(Trim(rule.on)))))
  }

  function SuffixClaims(kind: Kind, suffixes: seq<string>): seq<Claim> {
    seq(|suffixes|, i requires 0 <= i < |suffixes| => SuffixClaim(kind, suffixes[i]))
  }

  function SelectorClaims(v: Provider): seq<Claim> {
    seq(|v.selectors|, i requires 0 <= i < |v.selectors| => SelectorClaim(v.selectors[i]))
  }

  function KeyClaims(v: Provider): seq<Claim> {
    seq(|v.keys|, i requires 0 <= i < |v.keys| => KeyClaim(v.keys[i]))
  }

  function RuleClaims(v: Provider): seq<Claim> {
    seq(|v.mailFrom|, i requires 0 <= i < |v.mailFrom| => MailFromClaim(v.mailFrom[i]))
  }

  // Everything a provider claims, in the order the table is read.
  function Claims(v: Provider): seq<Claim> {
    SuffixClaims(ForMX, v.mx) + SuffixClaims(ForSPF, v.spf) + SuffixClaims(ForDKIM, v.dkim) + SuffixClaims(ForCNAME, v.cname) +
    SelectorClaims(v) + KeyClaims(v) + RuleClaims(v)
  }

  predicate Identified(v: Provider) {
    v.id != "" && v.name != "" && v.category in CATEGORIES
  }

  ghost predicate Claimed(vs: seq<Provider>, slot: Slot, v: Provider) {
    v in vs && Some(slot) in Claims(v)
  }

  // No two providers with different IDs claim the same slot.
  ghost predicate Undisputed(vs: seq<Provider>) {
    forall slot, v, w :: Claimed(vs, slot, v) && Claimed(vs, slot, w) ==> v.id == w.id
  }

  ghost predicate Loadable(vs: seq<Provider>) {
    (forall v :: v in vs ==> Identified(v) && None !in Claims(v)) && Undisputed(vs)
  }

  // The table holds exactly the claimed slots, each under a claimant's ID.
  ghost predicate Represents(table: Table, vs: seq<Provider>) {
    && (forall slot :: slot in table ==> Claimed(vs, slot, table[slot]))
    && (forall slot, v :: Claimed(vs, slot, v) ==> slot in table && table[slot].id == v.id)
  }

  // The table once v has been entered under the slots mine.
  ghost predicate Entered(table: Table, after: Table, v: Provider, mine: set<Slot>) {
    && after.Keys == table.Keys + mine
    && (forall slot :: slot in after ==> after[slot] == if slot in mine then v else table[slot])
    && (forall slot :: slot in mine && slot in table ==> table[slot].id == v.id)
  }

  // One provider's claims, entered one at a time.
  method Enter(table: Table, v: Provider, ghost vs: seq<Provider>) returns (ok: bool, after: Table)
    requires Represents(table, vs)
    ensures ok <==> None !in Claims(v) && forall slot, w :: Claimed(vs, slot, w) && Some(slot) in Claims(v) ==> w.id == v.id
    ensures ok ==> Represents(after, vs + [v])
  {
    hide Claims, Represents, Claimed;
    var claims := Claims(v);
    ghost var mine: set<Slot> := {};
    after := table;
    for k := 0 to |claims|
      invariant None !in claims[..k]
      invariant forall slot :: slot in mine <==> Some(slot) in claims[..k]
      invariant Entered(table, after, v, mine)
    {
      assert claims[..k + 1] == claims[..k] + [claims[k]];
      if claims[k].None? {
        return false, table;
      }
      var slot := claims[k].value;
      if slot in after && after[slot].id != v.id {
        assert Some(slot) in claims && slot in table;
        DisputedSlot(table, vs, slot);
        return false, table;
      }
      after := after[slot := v];
      mine := mine + {slot};
    }
    assert claims[..|claims|] == claims;
    EnteredRepresents(table, after, v, vs, mine);
    return true, after;
  }

  lemma DisputedSlot(table: Table, vs: seq<Provider>, slot: Slot)
    requires Represents(table, vs) && slot in table
    ensures Claimed(vs, slot, table[slot])
  {
    hide Claims;
  }

  lemma EnteredRepresents(table: Table, after: Table, v: Provider, vs: seq<Provider>, mine: set<Slot>)
    requires Represents(table, vs) && Entered(table, after, v, mine)
    requires forall slot :: slot in mine <==> Some(slot) in Claims(v)
    ensures Represents(after, vs + [v])
    ensures forall slot, w :: Claimed(vs, slot, w) && Some(slot) in Claims(v) ==> w.id == v.id
  {
    hide Claims;
    var more := vs + [v];
    forall slot, w | Claimed(more, slot, w) ensures slot in after && after[slot].id == w.id {
      if w in vs {
        assert Claimed(vs, slot, w);
      }
    }
    forall slot | slot in after ensures Claimed(more, slot, after[slot]) {
      if slot !in mine {
        assert Claimed(vs, slot, table[slot]);
      }
    }
  }

  // Builds the table, or finds the fault in it.
  method Load(vs: seq<Provider>) returns (ok: bool, table: Table)
    ensures ok <==> Loadable(vs)
    ensures ok ==> Represents(table, vs)
  {
    hide Claims, Identified, Loadable, Represents;
    table := map[];
    NothingLoads();
    for i := 0 to |vs|
      invariant Represents(table, vs[..i]) && Loadable(vs[..i])
    {
      var v := vs[i];
      assert vs[..i + 1] == vs[..i] + [v];
      LoadableOneMore(vs[..i], v);
      if Loadable(vs) {
        LoadablePrefix(vs, i + 1);
      }
      if !Identified(v) {
        return false, table;
      }
      var entered, after := Enter(table, v, vs[..i]);
      if !entered {
        return false, table;
      }
      table := after;
    }
    assert vs[..|vs|] == vs;
    return true, table;
  }

  lemma NothingLoads()
    ensures Loadable([]) && Represents(map[], [])
  {
    hide Claims;
  }

  lemma LoadablePrefix(vs: seq<Provider>, n: nat)
    requires n <= |vs| && Loadable(vs)
    ensures Loadable(vs[..n])
  {
    hide Claims, Identified;
    var some := vs[..n];
    assert forall v :: v in some ==> v in vs;
    assert forall slot, v :: Claimed(some, slot, v) ==> Claimed(vs, slot, v);
  }

  lemma LoadableOneMore(vs: seq<Provider>, v: Provider)
    requires Loadable(vs)
    ensures Loadable(vs + [v]) <==>
              Identified(v) && None !in Claims(v) &&
              forall slot, w :: Claimed(vs, slot, w) && Some(slot) in Claims(v) ==> w.id == v.id
  {
    hide Claims, Identified;
    var more := vs + [v];
    if Loadable(more) {
      assert v in more;
      forall slot, w | Claimed(vs, slot, w) && Some(slot) in Claims(v) ensures w.id == v.id {
        assert Claimed(more, slot, w) && Claimed(more, slot, v);
      }
    }
    if forall slot, w :: Claimed(vs, slot, w) && Some(slot) in Claims(v) ==> w.id == v.id {
      forall slot, a, b | Claimed(more, slot, a) && Claimed(more, slot, b) ensures a.id == b.id {
        assert a == v || Claimed(vs, slot, a);
        assert b == v || Claimed(vs, slot, b);
      }
    }
  }

  // Two orders of one table load alike, and hold the same IDs in the same slots.
  lemma {:induction false} OrderDoesNotMatter(vs: seq<Provider>, ws: seq<Provider>, t: Table, u: Table)
    requires multiset(vs) == multiset(ws)
    ensures Loadable(vs) <==> Loadable(ws)
    ensures Represents(t, vs) && Represents(u, ws) ==>
              t.Keys == u.Keys && forall slot :: slot in t ==> t[slot].id == u[slot].id
  {
    hide Claims, Identified;
    assert forall v :: v in vs <==> v in multiset(vs);
    assert forall v :: v in ws <==> v in multiset(ws);
    assert forall slot, v :: Claimed(vs, slot, v) <==> Claimed(ws, slot, v);
  }

  // ------------------------------------------------- what a table says it lists

  predicate UsableSuffix(suffix: string) {
    '.' in Normalize(suffix)
  }

  predicate UsableLabel(name: string) {
    Lower(Trim(name)) != "" && '.' !in Lower(Trim(name))
  }

  predicate UsableHash(hash: string) {
    |Lower(Trim(hash))| == 16 && forall c :: c in Lower(Trim(hash)) ==> '0' <= c <= '9' || 'a' <= c <= 'f'
  }

  // The provider has something usable written down for this kind that comes to
  // this key.
  ghost predicate WritesDown(v: Provider, kind: Kind, key: string) {
    match kind
    case ForMX => exists x :: x in v.mx && Normalize(x) == key && UsableSuffix(x)
    case ForSPF => exists x :: x in v.spf && Normalize(x) == key && UsableSuffix(x)
    case ForDKIM => exists x :: x in v.dkim && Normalize(x) == key && UsableSuffix(x)
    case ForCNAME => exists x :: x in v.cname && Normalize(x) == key && UsableSuffix(x)
    case ForSelector => exists x :: x in v.selectors && Lower(Trim(x)) == key && UsableLabel(x)
    case ForKey => exists x :: x in v.keys && Lower(Trim(x)) == key && UsableHash(x)
    case ForMailFrom =>
      exists x :: x in v.mailFrom && Lower(Trim(x.subdomain)) + "|" + Lower(Trim(x.on)) == key && UsableLabel(x.subdomain)
  }

  // Everything the provider has written down can be used.
  ghost predicate AllUsable(v: Provider) {
    && (forall x :: x in v.mx + v.spf + v.dkim + v.cname ==> UsableSuffix(x))
    && (forall x :: x in v.selectors ==> UsableLabel(x))
    && (forall x :: x in v.keys ==> UsableHash(x))
    && (forall x :: x in v.mailFrom ==> UsableLabel(x.subdomain))
  }

  lemma {:induction false} SuffixClaimsAre(kind: Kind, suffixes: seq<string>, claim: Claim)
    ensures claim in SuffixClaims(kind, suffixes) <==>
              exists x :: x in suffixes && claim == if UsableSuffix(x) then Some(Slot(kind, Normalize(x))) else None
  {
    hide Normalize;
    var claims := SuffixClaims(kind, suffixes);
    if exists x :: x in suffixes && claim == if UsableSuffix(x) then Some(Slot(kind, Normalize(x))) else None {
      var x :| x in suffixes && claim == if UsableSuffix(x) then Some(Slot(kind, Normalize(x))) else None;
      var i :| 0 <= i < |suffixes| && suffixes[i] == x;
      assert claims[i] == claim;
    }
  }

  lemma {:induction false} LabelClaimsAre(v: Provider, claim: Claim)
    ensures claim in SelectorClaims(v) <==>
              exists x :: x in v.selectors && claim == if UsableLabel(x) then Some(Slot(ForSelector, Lower(Trim(x)))) else None
  {
    hide Lower, Trim;
    var claims := SelectorClaims(v);
    if exists x :: x in v.selectors && claim == if UsableLabel(x) then Some(Slot(ForSelector, Lower(Trim(x)))) else None {
      var x :| x in v.selectors && claim == if UsableLabel(x) then Some(Slot(ForSelector, Lower(Trim(x)))) else None;
      var i :| 0 <= i < |v.selectors| && v.selectors[i] == x;
      assert claims[i] == claim;
    }
  }

  lemma {:induction false} HashClaimsAre(v: Provider, claim: Claim)
    ensures claim in KeyClaims(v) <==>
              exists x :: x in v.keys && claim == if UsableHash(x) then Some(Slot(ForKey, Lower(Trim(x)))) else None
  {
    hide Lower, Trim;
    var claims := KeyClaims(v);
    if exists x :: x in v.keys && claim == if UsableHash(x) then Some(Slot(ForKey, Lower(Trim(x)))) else None {
      var x :| x in v.keys && claim == if UsableHash(x) then Some(Slot(ForKey, Lower(Trim(x)))) else None;
      var i :| 0 <= i < |v.keys| && v.keys[i] == x;
      assert claims[i] == claim;
    }
  }

  lemma {:induction false} RuleClaimsAre(v: Provider, claim: Claim)
    ensures claim in RuleClaims(v) <==>
              exists x :: x in v.mailFrom &&
                claim == if UsableLabel(x.subdomain) then Some(Slot(ForMailFrom, Lower(Trim(x.subdomain)) + "|" + Lower(Trim(x.on)))) else None
  {
    hide Lower, Trim;
    var claims := RuleClaims(v);
    if exists x :: x in v.mailFrom &&
         claim == if UsableLabel(x.subdomain) then Some(Slot(ForMailFrom, Lower(Trim(x.subdomain)) + "|" + Lower(Trim(x.on)))) else None {
      var x :| x in v.mailFrom &&
        claim == if UsableLabel(x.subdomain) then Some(Slot(ForMailFrom, Lower(Trim(x.subdomain)) + "|" + Lower(Trim(x.on)))) else None;
      var i :| 0 <= i < |v.mailFrom| && v.mailFrom[i] == x;
      assert claims[i] == claim;
    }
  }

  // Claims are what is written down, kind by kind.
  lemma {:induction false} ClaimsAreWritten(v: Provider, kind: Kind, key: string)
    ensures Some(Slot(kind, key)) in Claims(v) <==> WritesDown(v, kind, key)
    ensures None !in Claims(v) <==> AllUsable(v)
  {
    hide SuffixClaims, SelectorClaims, KeyClaims, RuleClaims, Normalize, Lower, Trim, UsableSuffix, UsableLabel, UsableHash;
    forall claim | claim in {Some(Slot(kind, key)), None}
      ensures claim in Claims(v) <==>
                claim in SuffixClaims(ForMX, v.mx) || claim in SuffixClaims(ForSPF, v.spf) || claim in SuffixClaims(ForDKIM, v.dkim) ||
                claim in SuffixClaims(ForCNAME, v.cname) || claim in SelectorClaims(v) || claim in KeyClaims(v) || claim in RuleClaims(v)
    {
    }
    SuffixClaimsAre(ForMX, v.mx, Some(Slot(kind, key)));
    SuffixClaimsAre(ForSPF, v.spf, Some(Slot(kind, key)));
    SuffixClaimsAre(ForDKIM, v.dkim, Some(Slot(kind, key)));
    SuffixClaimsAre(ForCNAME, v.cname, Some(Slot(kind, key)));
    LabelClaimsAre(v, Some(Slot(kind, key)));
    HashClaimsAre(v, Some(Slot(kind, key)));
    RuleClaimsAre(v, Some(Slot(kind, key)));
    SuffixClaimsAre(ForMX, v.mx, None);
    SuffixClaimsAre(ForSPF, v.spf, None);
    SuffixClaimsAre(ForDKIM, v.dkim, None);
    SuffixClaimsAre(ForCNAME, v.cname, None);
    LabelClaimsAre(v, None);
    HashClaimsAre(v, None);
    RuleClaimsAre(v, None);
  }

  // A loaded table has a slot exactly when some provider writes it down for that
  // kind, and then under the ID of each that does.
  lemma {:induction false} TableIsWhatIsWritten(table: Table, vs: seq<Provider>, kind: Kind, key: string)
    requires Represents(table, vs)
    ensures Slot(kind, key) in table <==> exists v :: v in vs && WritesDown(v, kind, key)
    ensures forall v :: v in vs && WritesDown(v, kind, key) ==> Slot(kind, key) in table && table[Slot(kind, key)].id == v.id
  {
    hide Claims, WritesDown;
    var slot := Slot(kind, key);
    forall v ensures Claimed(vs, slot, v) <==> v in vs && WritesDown(v, kind, key) {
      ClaimsAreWritten(v, kind, key);
    }
    assert slot in table ==> Claimed(vs, slot, table[slot]);
  }

  // A table loads exactly when every entry has an ID, a name, a known category and
  // only usable entries, and nobody writes down what another ID does.
  lemma {:induction false} LoadsExactly(vs: seq<Provider>)
    ensures Loadable(vs) <==>
              (forall v :: v in vs ==>
                 && v.id != "" && v.name != "" && AllUsable(v)
                 && v.category in {"mailbox", "esp", "crm", "support", "forwarding", "security_gateway", "authentication"}) &&
              forall kind, key, v, w :: v in vs && w in vs && WritesDown(v, kind, key) && WritesDown(w, kind, key) ==> v.id == w.id
  {
    hide Claims, WritesDown, AllUsable;
    forall v ensures None !in Claims(v) <==> AllUsable(v) {
      ClaimsAreWritten(v, ForMX, "");
    }
    forall slot, v ensures Claimed(vs, slot, v) <==> v in vs && WritesDown(v, slot.kind, slot.key) {
      ClaimsAreWritten(v, slot.kind, slot.key);
      assert slot == Slot(slot.kind, slot.key);
    }
    if forall kind, key, v, w :: v in vs && w in vs && WritesDown(v, kind, key) && WritesDown(w, kind, key) ==> v.id == w.id {
      assert Undisputed(vs);
    }
    if Undisputed(vs) {
      forall kind, key, v, w | v in vs && w in vs && WritesDown(v, kind, key) && WritesDown(w, kind, key) ensures v.id == w.id {
        assert Claimed(vs, Slot(kind, key), v) && Claimed(vs, Slot(kind, key), w);
      }
    }
  }

  // ---------------------------------------------------------------- matching

  // Dropping labels from the left, one dot at a time.
  function Shortenings(n: string): (s: seq<string>)
    decreases |n|
  {
    var i := Index(n, '.');
    [n] + if i < 0 then [] else Shortenings(n[i + 1..])
  }

  // What shortening at dots visits is exactly the label-boundary suffixes.
  lemma {:induction false} ShorteningsAreSuffixes(n: string, k: string)
    ensures k in Shortenings(n) <==> Within(n, k)
    decreases |n|
  {
    var i := Index(n, '.');
    if i >= 0 {
      ShorteningsAreSuffixes(n[i + 1..], k);
      ShorterWithin(n, i, k);
    }
  }

  lemma {:induction false} ShorterWithin(n: string, i: nat, k: string)
    requires i < |n| && n[i] == '.' && forall j :: 0 <= j < i ==> n[j] != '.'
    ensures Within(n, k) <==> k == n || Within(n[i + 1..], k)
  {
  }

  // k is the longest label-boundary suffix of n that the table has.
  ghost predicate Longest(table: Table, kind: Kind, n: string, k: string) {
    Within(n, k) && Slot(kind, k) in table && forall m :: Within(n, m) && |k| < |m| ==> Slot(kind, m) !in table
  }

  method Lookup(table: Table, kind: Kind, name: string) returns (found: Option<Provider>)
    ensures found.Some? ==>
              exists k :: Longest(table, kind, Normalize(name), k) && found.value == table[Slot(kind, k)]
    ensures found.None? <==>
              Normalize(name) == "" || forall k :: Within(Normalize(name), k) ==> Slot(kind, k) !in table
  {
    hide Normalize;
    var n := Normalize(name);
    ghost var full := n;
    if n == "" {
      return None;
    }
    while true
      invariant Within(full, n)
      invariant forall m :: Within(full, m) && |n| < |m| ==> Slot(kind, m) !in table
      decreases |n|
    {
      if Slot(kind, n) in table {
        assert Longest(table, kind, full, n);
        return Some(table[Slot(kind, n)]);
      }
      var i := Index(n, '.');
      forall m | Within(full, m) && |m| <= |n| ensures Within(n, m) {
        WithinLinear(full, n, m);
      }
      if i < 0 {
        return None;
      }
      forall m | Within(full, m) && |n[i + 1..]| < |m| ensures Slot(kind, m) !in table {
        if |m| <= |n| {
          ShorterWithin(n, i, m);
        }
      }
      ShorterWithin(n, i, n[i + 1..]);
      WithinTransitive(full, n, n[i + 1..]);
      n := n[i + 1..];
    }
  }

  // ------------------------------------------------------ bounce subdomains

  // One of the provider's rules is for this label, where this vendor is underneath.
  predicate HasRule(v: Provider, subdomain: string, on: string) {
    subdomain != "" && '.' !in subdomain &&
    exists rule :: rule in v.mailFrom && Lower(Trim(rule.subdomain)) == subdomain && Lower(Trim(rule.on)) == on
  }

  ghost predicate Ruled(vs: seq<Provider>, v: Provider, subdomain: string, on: string) {
    v in vs && HasRule(v, subdomain, on)
  }

  // A label and a vendor as a loaded rule has them.
  predicate IsRule(subdomain: string, on: string) {
    subdomain != "" && '.' !in subdomain && Lower(Trim(subdomain)) == subdomain && Lower(Trim(on)) == on
  }

  // Label and vendor are joined with a bar, and nothing keeps bars out of either:
  // the key can read as another rule's when it is split at another bar.
  predicate Clashes(subdomain: string, on: string) {
    var key := MailFromKey(subdomain, on);
    exists i :: 0 <= i < |key| && key[i] == '|' && i != |subdomain| && IsRule(key[..i], key[i + 1..])
  }

  // No rule but those for this label and vendor has their key.
  ghost predicate KeyIsTheirs(subdomain: string, on: string) {
    forall rule :: MailFromClaim(rule) == Some(Slot(ForMailFrom, MailFromKey(subdomain, on))) ==>
      Lower(Trim(rule.subdomain)) == subdomain && Lower(Trim(rule.on)) == on
  }

  lemma {:induction false} TrimEnds(s: string)
    ensures var t := Trim(s); t != "" ==> !IsSpace(t[0]) && !IsSpace(t[|t| - 1])
  {
    TrimLeftEnds(s);
    TrimRightEnds(TrimLeft(s));
  }

  lemma TrimLeftEnds(s: string)
    ensures TrimLeft(s) != "" ==> !IsSpace(TrimLeft(s)[0])
  {
  }

  lemma TrimRightEnds(s: string)
    ensures TrimRight(s) <= s && (TrimRight(s) != "" ==> !IsSpace(TrimRight(s)[|TrimRight(s)| - 1]))
  {
  }

  lemma {:induction false} FormIsFinal(s: string)
    ensures Lower(Trim(Lower(Trim(s)))) == Lower(Trim(s))
  {
    TrimEnds(s);
    var t := Lower(Trim(s));
    assert TrimLeft(t) == t && TrimRight(t) == t;
    assert Lower(t) == t;
  }

  // A rule in loaded form with the key is one the key can be split into.
  lemma {:induction false} SplitIsRule(subdomain: string, on: string, a: string, b: string)
    requires IsRule(a, b) && MailFromKey(a, b) == MailFromKey(subdomain, on) && !Clashes(subdomain, on)
    ensures a == subdomain && b == on
  {
    hide IsRule;
    var key := MailFromKey(subdomain, on);
    BarIsAt(a, b, key);
    BarIsAt(subdomain, on, key);
  }

  lemma RuleInForm(rule: MailFromRule, key: string)
    requires MailFromClaim(rule) == Some(Slot(ForMailFrom, key))
    ensures var a, b := Lower(Trim(rule.subdomain)), Lower(Trim(rule.on)); IsRule(a, b) && MailFromKey(a, b) == key
  {
    hide Lower, Trim;
    FormIsFinal(rule.subdomain);
    FormIsFinal(rule.on);
  }

  lemma FormIsRule(a: string, b: string)
    requires IsRule(a, b)
    ensures MailFromClaim(MailFromRule(a, b)) == Some(Slot(ForMailFrom, MailFromKey(a, b)))
  {
    hide Lower, Trim, MailFromKey;
  }

  lemma {:induction false} KeyIsTheirsExactly(subdomain: string, on: string)
    ensures KeyIsTheirs(subdomain, on) <==> !Clashes(subdomain, on)
  {
    hide Lower, Trim, IsRule, MailFromClaim, MailFromKey, Clashes;
    var key := MailFromKey(subdomain, on);
    if Clashes(subdomain, on) {
      var a, b := OtherReading(subdomain, on);
      FormIsRule(a, b);
      RuleInFormIs(a, b);
      assert MailFromClaim(MailFromRule(a, b)) == Some(Slot(ForMailFrom, key));
    } else {
      forall rule | MailFromClaim(rule) == Some(Slot(ForMailFrom, key))
        ensures Lower(Trim(rule.subdomain)) == subdomain && Lower(Trim(rule.on)) == on
      {
        RuleInForm(rule, key);
        SplitIsRule(subdomain, on, Lower(Trim(rule.subdomain)), Lower(Trim(rule.on)));
      }
    }
  }

  lemma RuleInFormIs(a: string, b: string)
    requires IsRule(a, b)
    ensures Lower(Trim(a)) == a && Lower(Trim(b)) == b
  {
    hide Lower, Trim;
  }

  lemma BarIsAt(a: string, b: string, key: string)
    requires MailFromKey(a, b) == key
    ensures |key| == |a| + 1 + |b| && key[|a|] == '|' && key[..|a|] == a && key[|a| + 1..] == b
  {
  }

  // Where nobody writes a bar nothing clashes.
  lemma {:induction false} NoBarNoClash(subdomain: string, on: string)
    requires '|' !in subdomain && '|' !in on
    ensures !Clashes(subdomain, on)
  {
    var key := MailFromKey(subdomain, on);
    forall i | 0 <= i < |key| && i != |subdomain| ensures key[i] != '|' {
      assert key[i] == if i < |subdomain| then subdomain[i] else on[i - |subdomain| - 1];
    }
  }

  // What a table of these providers holds under an unambiguous key.
  lemma {:induction false} SlotIsRule(table: Table, vs: seq<Provider>, subdomain: string, on: string)
    requires Represents(table, vs) && KeyIsTheirs(subdomain, on)
    ensures var slot := Slot(ForMailFrom, MailFromKey(subdomain, on));
            && (slot in table <==> exists v :: Ruled(vs, v, subdomain, on))
            && (forall v :: Ruled(vs, v, subdomain, on) ==> slot in table && table[slot].id == v.id)
  {
    hide Claims, Trim, Lower, MailFromKey, HasRule, KeyIsTheirs;
    var slot := Slot(ForMailFrom, MailFromKey(subdomain, on));
    forall v ensures Claimed(vs, slot, v) <==> Ruled(vs, v, subdomain, on) {
      RuleIsClaim(v, subdomain, on);
    }
    assert slot in table ==> Claimed(vs, slot, table[slot]);
  }

  lemma {:induction false} RuleIsClaim(v: Provider, subdomain: string, on: string)
    requires KeyIsTheirs(subdomain, on)
    ensures Some(Slot(ForMailFrom, MailFromKey(subdomain, on))) in Claims(v) <==> HasRule(v, subdomain, on)
  {
    hide Claims, Trim, Lower;
    ClaimsAreWritten(v, ForMailFrom, MailFromKey(subdomain, on));
    forall x | x in v.mailFrom && UsableLabel(x.subdomain) && Lower(Trim(x.subdomain)) + "|" + Lower(Trim(x.on)) == MailFromKey(subdomain, on)
      ensures Lower(Trim(x.subdomain)) == subdomain && Lower(Trim(x.on)) == on
    {
      assert MailFromClaim(x) == Some(Slot(ForMailFrom, MailFromKey(subdomain, on)));
    }
  }

  // The answer due: a provider with a rule for the underlying vendor when there is
  // one, and otherwise one with a rule for any vendor. The ID is the one every
  // such provider has.
  ghost predicate IsDue(vs: seq<Provider>, subdomain: string, underlying: string, found: Option<Provider>) {
    if exists v :: Ruled(vs, v, subdomain, underlying) then
      found.Some? && forall v :: Ruled(vs, v, subdomain, underlying) ==> found.value.id == v.id
    else if exists v :: Ruled(vs, v, subdomain, "") then
      found.Some? && forall v :: Ruled(vs, v, subdomain, "") ==> found.value.id == v.id
    else found.None?
  }

  function MailFromAnswer(table: Table, subdomain: string, underlying: string): Option<Provider> {
    var exact, open := Slot(ForMailFrom, MailFromKey(subdomain, underlying)), Slot(ForMailFrom, MailFromKey(subdomain, ""));
    if exact in table then Some(table[exact]) else if open in table then Some(table[open]) else None
  }

  lemma {:induction false} AnswerIsDue(table: Table, vs: seq<Provider>, subdomain: string, underlying: string)
    requires Represents(table, vs) && !Clashes(subdomain, underlying) && !Clashes(subdomain, "")
    ensures IsDue(vs, subdomain, underlying, MailFromAnswer(table, subdomain, underlying))
  {
    hide Represents, Ruled, MailFromKey, Clashes;
    KeyIsTheirsExactly(subdomain, underlying);
    KeyIsTheirsExactly(subdomain, "");
    SlotIsRule(table, vs, subdomain, underlying);
    SlotIsRule(table, vs, subdomain, "");
  }

  method MatchMailFrom(table: Table, ghost vs: seq<Provider>, subdomain: string, underlying: string) returns (found: Option<Provider>)
    requires Represents(table, vs)
    ensures var l, u := Lower(Trim(subdomain)), Lower(underlying);
            && found == MailFromAnswer(table, l, u)
            && (!Clashes(l, u) && !Clashes(l, "") ==> IsDue(vs, l, u, found))
  {
    hide Represents, Trim, Lower, Ruled, MailFromKey, Clashes;
    var l := Lower(Trim(subdomain));
    ghost var u := Lower(underlying);
    if !Clashes(l, u) && !Clashes(l, "") {
      AnswerIsDue(table, vs, l, u);
    }
    var exact := Slot(ForMailFrom, MailFromKey(l, Lower(underlying)));
    if exact in table {
      return Some(table[exact]);
    }
    var open := Slot(ForMailFrom, MailFromKey(l, ""));
    if open in table {
      return Some(table[open]);
    }
    return None;
  }

  // A provider with one rule and nothing else.
  function OnlyRule(subdomain: string, on: string): Provider {
    Provider("x", "x", "esp", [], [], [], [], [], [], [MailFromRule(subdomain, on)])
  }

  lemma {:induction false} OnlyRuleLoads(subdomain: string, on: string)
    requires IsRule(subdomain, on)
    ensures var v := OnlyRule(subdomain, on); var slot := Slot(ForMailFrom, MailFromKey(subdomain, on));
            Loadable([v]) && Represents(map[slot := v], [v])
  {
    hide Lower, Trim, MailFromKey;
    var v, slot := OnlyRule(subdomain, on), Slot(ForMailFrom, MailFromKey(subdomain, on));
    assert SuffixClaims(ForMX, []) == [] && SelectorClaims(v) == [] && KeyClaims(v) == [] && RuleClaims(v) == [Some(slot)];
    assert Claims(v) == [Some(slot)];
    OneClaimLoads(v, slot);
  }

  lemma OneClaimLoads(v: Provider, slot: Slot)
    requires Claims(v) == [Some(slot)] && Identified(v)
    ensures Loadable([v]) && Represents(map[slot := v], [v])
  {
    hide Claims, Identified;
    assert v in [v];
  }

  // A table with one rule, for another label, is due to answer nothing.
  lemma NothingIsDue(subdomain: string, underlying: string, other: string, on: string)
    requires other != subdomain && Lower(Trim(other)) == other
    ensures IsDue([OnlyRule(other, on)], subdomain, underlying, None)
    ensures !IsDue([OnlyRule(other, on)], subdomain, underlying, Some(OnlyRule(other, on)))
  {
    hide Lower, Trim;
    assert forall v, o :: !Ruled([OnlyRule(other, on)], v, subdomain, o);
  }

  lemma OneSlotAnswers(v: Provider, subdomain: string, underlying: string, on: string)
    requires on in {underlying, ""}
    ensures MailFromAnswer(map[Slot(ForMailFrom, MailFromKey(subdomain, on)) := v], subdomain, underlying) == Some(v)
  {
    hide MailFromKey;
  }

  lemma OtherReading(subdomain: string, on: string) returns (a: string, b: string)
    requires Clashes(subdomain, on)
    ensures IsRule(a, b) && a != subdomain && MailFromKey(a, b) == MailFromKey(subdomain, on)
  {
    hide IsRule;
    var key := MailFromKey(subdomain, on);
    var i :| 0 <= i < |key| && key[i] == '|' && i != |subdomain| && IsRule(key[..i], key[i + 1..]);
    a, b := key[..i], key[i + 1..];
    assert |a| != |subdomain|;
  }

  // One rule can answer for a label and vendor that are not its own.
  lemma {:induction false} ClashMisleads(subdomain: string, underlying: string, on: string)
    requires Clashes(subdomain, on) && on in {underlying, ""}
    ensures exists vs, table :: Loadable(vs) && Represents(table, vs) &&
              !IsDue(vs, subdomain, underlying, MailFromAnswer(table, subdomain, underlying))
  {
    hide Lower, Trim, Loadable, Represents, IsDue, OnlyRule, MailFromAnswer, IsRule, MailFromKey;
    var a, b := OtherReading(subdomain, on);
    var v, slot := OnlyRule(a, b), Slot(ForMailFrom, MailFromKey(subdomain, on));
    OnlyRuleLoads(a, b);
    RuleInFormIs(a, b);
    NothingIsDue(subdomain, underlying, a, b);
    OneSlotAnswers(v, subdomain, underlying, on);
    assert !IsDue([v], subdomain, underlying, MailFromAnswer(map[slot := v], subdomain, underlying));
  }

  // There are such keys: a rule for a on b|c has that of the label a|b on c.
  lemma BarsCanClash()
    ensures Clashes("a|b", "c")
  {
    var key := MailFromKey("a|b", "c");
    assert key == "a|b|c" && key[..1] == "a" && key[2..] == "b|c";
    assert key[1] == '|' && IsRule(key[..1], key[1 + 1..]);
  }

  // Every table that loads gives the answer due if and only if the key made of
  // label and vendor, and the one of the label alone, read as no other rule's.
  lemma {:induction false} MailFromIsDueExactly(subdomain: string, underlying: string)
    ensures (forall vs, table :: Loadable(vs) && Represents(table, vs) ==>
               IsDue(vs, subdomain, underlying, MailFromAnswer(table, subdomain, underlying)))
            <==> !Clashes(subdomain, underlying) && !Clashes(subdomain, "")
  {
    hide Loadable, Represents, Clashes, IsDue, MailFromAnswer;
    if Clashes(subdomain, underlying) {
      ClashMisleads(subdomain, underlying, underlying);
    } else if Clashes(subdomain, "") {
      ClashMisleads(subdomain, underlying, "");
    } else {
      forall vs, table | Loadable(vs) && Represents(table, vs)
        ensures IsDue(vs, subdomain, underlying, MailFromAnswer(table, subdomain, underlying))
      {
        AnswerIsDue(table, vs, subdomain, underlying);
      }
    }
  }

  // The answer due is one ID, the same in any order of the table.
  lemma {:induction false} DueInAnyOrder(vs: seq<Provider>, ws: seq<Provider>, subdomain: string, underlying: string,
                                         a: Option<Provider>, b: Option<Provider>)
    requires multiset(vs) == multiset(ws) && IsDue(vs, subdomain, underlying, a) && IsDue(ws, subdomain, underlying, b)
    ensures a.Some? <==> b.Some?
    ensures a.Some? ==> a.value.id == b.value.id
  {
    hide HasRule;
    assert forall v :: v in vs <==> v in multiset(vs);
    assert forall v :: v in ws <==> v in multiset(ws);
    assert forall v, on :: Ruled(vs, v, subdomain, on) <==> Ruled(ws, v, subdomain, on);
  }

  // The longest match is one string, so two orders of one table name the same
  // provider for every name, or neither names any.
  lemma {:induction false} MatchesDoNotDependOnOrder(vs: seq<Provider>, ws: seq<Provider>, t: Table, u: Table, kind: Kind, n: string, k: string)
    requires multiset(vs) == multiset(ws) && Represents(t, vs) && Represents(u, ws)
    requires Longest(t, kind, n, k)
    ensures Longest(u, kind, n, k) && t[Slot(kind, k)].id == u[Slot(kind, k)].id
    ensures forall m :: Longest(u, kind, n, m) ==> m == k
  {
    hide Claims;
    OrderDoesNotMatter(vs, ws, t, u);
    assert forall m :: Slot(kind, m) in t <==> Slot(kind, m) in u;
    forall m | Longest(u, kind, n, m) ensures m == k {
      assert |m| == |k|;
    }
  }
}

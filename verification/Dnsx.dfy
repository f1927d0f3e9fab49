// Names, answers and the two resolver interfaces (dnsx/dnsx.go, dnsx/errors.go).
module Dnsx {
  import opened Text

  datatype Qtype = A | MX | TXT

  const RCODE_SUCCESS := 0
  const RCODE_NAME_ERROR := 3

  datatype Answer = Answer(rcode: int, ttl: nat, txt: seq<string>, mx: seq<string>, hosts: seq<string>) {
    // Void, as section 4.6.4 of RFC 7208 has it.
    predicate Empty() {
      rcode == RCODE_NAME_ERROR || (rcode == RCODE_SUCCESS && txt == [] && mx == [] && hosts == [])
    }
  }

  // The text of an error value, which is never empty.
  type ErrText = s: string | |s| > 0 witness "e"

  // One reply of a resolver that reports response codes. An error for which
  // NotFound holds is an answer; any other error is a lookup that failed.
  datatype Reply = Answered(answer: Answer) | Missing | Failed(err: ErrText)

  // One reply of a resolver with the standard library's signatures.
  datatype Strings = Found(values: seq<string>) | NoSuchName | Broke(err: ErrText)

  datatype Question = Question(name: string, qtype: Qtype)

  // What a caller can be handed: a resolver that traces, or one that does not.
  datatype Resolver =
    | Tracing(query: Question -> Reply)
    | Plain(lookup: Question -> Strings)

  function StripScheme(d: string): string {
    var i := IndexScheme(d);
    if i >= 0 then d[i + 3..] else d
  }

  function StripPath(d: string): string {
    var i := IndexAny(d, {'/', '?', '#'});
    if i >= 0 then d[..i] else d
  }

  function StripUser(d: string): string {
    d[LastIndex(d, '@') + 1..]
  }

  function StripPort(d: string): string {
    var i := LastIndex(d, ':');
    if i >= 0 && ']' !in d then d[..i] else d
  }

  function StripWww(d: string): string {
    if "www." <= d then d[4..] else d
  }

  function Normalize(domain: string): string {
    var d := StripPort(StripUser(StripPath(StripScheme(Trim(domain)))));
    StripWww(Lower(TrimSuffixDot(Trim(d))))
  }

  // ------------------------------------------------- what normalizing undoes

  // Blanks, tabs, line and form feeds, vertical tabs and carriage returns.
  predicate AllBlank(s: string) {
    forall c :: c in s ==> c as int in {9, 10, 11, 12, 13, 32}
  }

  lemma BlankExactly(c: char)
    ensures IsSpace(c) <==> AllBlank([c])
  {
    var n := c as int;
    assert IsSpace(c) <==> n in {9, 10, 11, 12, 13, 32};
    assert c in [c] && forall x :: x in [c] ==> x == c;
  }

  lemma {:induction false} TrimLeftOff(blank: string, s: string)
    requires AllBlank(blank) && s != "" && !IsSpace(s[0])
    ensures TrimLeft(blank + s) == s
  {
    if blank == "" {
      assert blank + s == s;
    } else {
      assert blank[0] in blank && (blank + s)[1..] == blank[1..] + s;
      assert forall c :: c in blank[1..] ==> c in blank;
      TrimLeftOff(blank[1..], s);
    }
  }

  lemma {:induction false} TrimRightOff(s: string, blank: string)
    requires AllBlank(blank) && s != "" && !IsSpace(s[|s| - 1])
    ensures TrimRight(s + blank) == s
    decreases |blank|
  {
    if blank == "" {
      assert s + blank == s;
    } else {
      assert blank[|blank| - 1] in blank && (s + blank)[..|s + blank| - 1] == s + blank[..|blank| - 1];
      var most := blank[..|blank| - 1];
      assert AllBlank(most) by {
        assert forall c :: c in most ==> c in blank;
      }
      TrimRightOff(s, most);
    }
  }

  lemma {:induction false} TrimOff(before: string, s: string, after: string)
    requires AllBlank(before) && AllBlank(after) && s != "" && !IsSpace(s[0]) && !IsSpace(s[|s| - 1])
    ensures Trim(before + s + after) == s
  {
    assert before + s + after == before + (s + after);
    TrimLeftOff(before, s + after);
    TrimRightOff(s, after);
  }

  lemma {:induction false} SchemeOff(scheme: string, s: string)
    requires ':' !in scheme
    ensures StripScheme(scheme + "://" + s) == s
    ensures IndexScheme(scheme + "://" + s) == |scheme|
  {
    var d := scheme + "://" + s;
    if scheme == "" {
      assert d == "://" + s && d[..3] == "://";
    } else {
      assert d[1..] == scheme[1..] + "://" + s && d[0] == scheme[0] && scheme[0] in scheme;
      assert d[..3][0] == d[0];
      SchemeOff(scheme[1..], s);
    }
  }

  predicate SchemeAt(d: string, i: int) {
    0 <= i <= |d| - 3 && d[i] == ':' && d[i + 1] == '/' && d[i + 2] == '/'
  }

  lemma {:induction false} NoSchemeHere(d: string)
    requires forall i :: !SchemeAt(d, i)
    ensures IndexScheme(d) == -1
  {
    if |d| >= 3 {
      assert !SchemeAt(d, 0);
      forall i ensures !SchemeAt(d[1..], i) {
        assert !SchemeAt(d, i + 1);
      }
      NoSchemeHere(d[1..]);
    }
  }

  // What may stand around a host name: a user before it; a port and then a path, a
  // query or a fragment after it.
  predicate IsUser(user: string) {
    user == "" || (user[|user| - 1] == '@' && forall c :: c in user ==> c !in {'/', '?', '#'})
  }

  predicate IsPort(port: string) {
    port == "" || (port[0] == ':' && forall c :: c in port[1..] ==> c !in {'/', '?', '#', '@', ':', ']'})
  }

  predicate IsTail(tail: string) {
    tail == "" || tail[0] in {'/', '?', '#'}
  }

  predicate IsHost(host: string) {
    host != "" && !IsSpace(host[0]) && !IsSpace(host[|host| - 1]) && forall c :: c in host ==> c !in {'/', '?', '#', '@', ':', ']'}
  }

  lemma {:induction false} TailOff(s: string, tail: string)
    requires IsTail(tail) && forall c :: c in s ==> c !in {'/', '?', '#'}
    ensures StripPath(s + tail) == s
  {
    var d := s + tail;
    var i := IndexAny(d, {'/', '?', '#'});
    assert forall k :: 0 <= k < |s| ==> d[k] == s[k] && s[k] in s;
    if tail != "" {
      assert d[|s|] == tail[0];
    }
    assert d[..|s|] == s;
  }

  lemma {:induction false} UserOff(user: string, s: string)
    requires IsUser(user) && '@' !in s
    ensures StripUser(user + s) == s
  {
    var d := user + s;
    assert forall k :: |user| <= k < |d| ==> d[k] == s[k - |user|] && d[k] in s;
    if user != "" {
      assert d[|user| - 1] == '@';
    }
    assert LastIndex(d, '@') == |user| - 1;
  }

  lemma {:induction false} PortOff(s: string, port: string)
    requires IsPort(port) && ':' !in s && ']' !in s
    ensures StripPort(s + port) == s
  {
    var d := s + port;
    assert forall k :: 0 <= k < |s| ==> d[k] == s[k] && d[k] in s;
    if port != "" {
      assert d[|s|] == ':';
      assert forall k :: |s| < k < |d| ==> d[k] == port[1..][k - |s| - 1] && d[k] in port[1..];
      assert LastIndex(d, ':') == |s|;
    }
    assert forall k :: 0 <= k < |d| ==> d[k] != ']';
    assert d[..|s|] == s;
  }

  // Normalizing takes a host name out of whatever stands around it: blanks, a
  // scheme, a user, a port, a path, a trailing dot and one leading "www." go, and
  // letters come out in lower case. Without a scheme in front, no "://" may follow.
  lemma {:induction false} NormalizeUndoes(before: string, scheme: string, user: string, host: string, dot: string,
                                           port: string, tail: string, after: string)
    requires AllBlank(before) && AllBlank(after) && dot in {"", "."}
    requires IsUser(user) && IsPort(port) && IsTail(tail) && IsHost(host) && (dot == "" ==> host[|host| - 1] != '.')
    requires var d := user + (host + dot) + port + tail;
             && !IsSpace((scheme + d)[0]) && !IsSpace((scheme + d)[|scheme + d| - 1])
             && (if scheme == "" then forall i :: !SchemeAt(d, i)
                 else |scheme| >= 3 && scheme[|scheme| - 3..] == "://" && ':' !in scheme[..|scheme| - 3])
    ensures var n := Lower(host);
            Normalize(before + (scheme + (user + (host + dot) + port + tail)) + after) == if "www." <= n then n[4..] else n
  {
    hide Trim, StripScheme, StripPath, StripUser, StripPort, Lower, IsUser, IsPort, IsTail, AllBlank, SchemeAt;
    var name := host + dot;
    var d := user + name + port + tail;
    TrimOff(before, scheme + d, after);
    SchemeGone(scheme, d);
    HostOut(user, name, port, tail);
    NameIsTrim(host, dot);
    DotOff(host, dot);
  }

  lemma NameIsTrim(host: string, dot: string)
    requires dot in {"", "."} && IsHost(host)
    ensures Trim(host + dot) == host + dot
    ensures forall c :: c in host + dot ==> c !in {'/', '?', '#', '@', ':', ']'}
  {
    hide Trim;
    var name := host + dot;
    assert "" + name + "" == name;
    TrimOff("", name, "");
  }

  lemma SchemeGone(scheme: string, d: string)
    requires if scheme == "" then forall i :: !SchemeAt(d, i)
             else |scheme| >= 3 && scheme[|scheme| - 3..] == "://" && ':' !in scheme[..|scheme| - 3]
    ensures StripScheme(scheme + d) == d
  {
    if scheme == "" {
      NoSchemeHere(d);
      assert scheme + d == d;
    } else {
      var s := scheme[..|scheme| - 3];
      assert scheme == s + "://";
      SchemeOff(s, d);
    }
  }

  // A bracketed address keeps its colons.
  lemma {:induction false} BracketsStay(d: string)
    requires ']' in d && Solid(d) && d[|d| - 1] != '.' && (forall i :: !SchemeAt(d, i))
    requires forall c :: c in d ==> c !in {'/', '?', '#', '@'}
    ensures Normalize(d) == if "www." <= Lower(d) then Lower(d)[4..] else Lower(d)
  {
    hide Trim, Lower, StripScheme, StripPath, StripUser, StripPort, SchemeAt, Solid;
    assert d + "" == d && "" + d == d;
    TrimSolid(d);
    SchemeGone("", d);
    TailOff(d, "");
    UserOff("", d);
    BracketHasNoPort(d);
    DotOff(d, "");
  }

  lemma BracketHasNoPort(d: string)
    requires ']' in d
    ensures StripPort(d) == d
  {
  }

  lemma {:induction false} HostOut(user: string, name: string, port: string, tail: string)
    requires IsUser(user) && IsPort(port) && IsTail(tail)
    requires forall c :: c in name ==> c !in {'/', '?', '#', '@', ':', ']'}
    ensures StripPort(StripUser(StripPath(user + name + port + tail))) == name
  {
    hide StripPath, StripUser, StripPort;
    assert forall c :: c in user + name + port ==> c in user || c in name || c in port;
    assert port != "" ==> forall c :: c in port ==> c == ':' || c in port[1..];
    TailOff(user + name + port, tail);
    assert user + name + port == user + (name + port);
    UserOff(user, name + port);
    PortOff(name, port);
  }

  lemma DotOff(host: string, dot: string)
    requires dot in {"", "."} && host != "" && (dot == "" ==> host[|host| - 1] != '.')
    ensures TrimSuffixDot(host + dot) == host
  {
  }

  // name is a suffix of host that begins at a label boundary.
  predicate Within(host: string, name: string) {
    host == name ||
    (|name| < |host| && host[|host| - |name| - 1] == '.' && host[|host| - |name|..] == name)
  }

  lemma {:induction false} WithinTransitive(a: string, b: string, c: string)
    requires Within(a, b) && Within(b, c)
    ensures Within(a, c)
  {
  }

  // Two names that both contain a third lie one within the other.
  lemma {:induction false} WithinLinear(a: string, b: string, c: string)
    requires Within(a, b) && Within(a, c) && |c| <= |b|
    ensures Within(b, c)
  {
  }
}

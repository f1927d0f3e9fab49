// The string operations the Go sources take from package strings, on ASCII
// text: trimming, lower-casing, splitting on white space, and searching.
module Text {

  datatype Option<+T> = None | Some(value: T) {
    function GetOr(default: T): T {
      if Some? then value else default
    }
  }

  predicate IsSpace(c: char) {
    c == ' ' || '\t' <= c <= '\r'
  }

  function Lower(s: string): (r: string)
    ensures |r| == |s|
  {
    seq(|s|, i requires 0 <= i < |s| => if 'A' <= s[i] <= 'Z' then (s[i] as int + 32) as char else s[i])
  }

  function TrimLeft(s: string): string {
    if s != "" && IsSpace(s[0]) then TrimLeft(s[1..]) else s
  }

  function TrimRight(s: string): string {
    if s != "" && IsSpace(s[|s| - 1]) then TrimRight(s[..|s| - 1]) else s
  }

  function Trim(s: string): string {
    TrimRight(TrimLeft(s))
  }

  function TrimSuffixDot(s: string): string {
    if s != "" && s[|s| - 1] == '.' then s[..|s| - 1] else s
  }

  // Position of the first byte of s satisfying the set, or -1.
  function IndexAny(s: string, set_: set<char>): (i: int)
    ensures -1 <= i < |s|
    ensures i >= 0 ==> s[i] in set_
    ensures forall k :: 0 <= k < (if i >= 0 then i else |s|) ==> s[k] !in set_
  {
    if s == "" then -1
    else if s[0] in set_ then 0
    else var i := IndexAny(s[1..], set_); if i < 0 then -1 else i + 1
  }

  function Index(s: string, c: char): (i: int)
    ensures -1 <= i < |s|
    ensures i >= 0 ==> s[i] == c
    ensures forall k :: 0 <= k < (if i >= 0 then i else |s|) ==> s[k] != c
  {
    IndexAny(s, {c})
  }

  function LastIndex(s: string, c: char): (i: int)
    ensures -1 <= i < |s|
    ensures i >= 0 ==> s[i] == c
    ensures forall k :: i < k < |s| ==> s[k] != c
  {
    if s == "" then -1
    else if s[|s| - 1] == c then |s| - 1
    else LastIndex(s[..|s| - 1], c)
  }

  // Position of the first "://" in s, or -1.
  function IndexScheme(s: string): (i: int)
    ensures i == -1 || 0 <= i <= |s| - 3
  {
    if |s| < 3 then -1
    else if s[..3] == "://" then 0
    else var i := IndexScheme(s[1..]); if i < 0 then -1 else i + 1
  }

  predicate Solid(s: string) {
    forall c :: c in s ==> !IsSpace(c)
  }

  lemma TrimSolid(s: string)
    requires Solid(s)
    ensures Trim(s) == s
  {
  }

  // The longest prefix of s without white space.
  function Word(s: string): (w: string)
    ensures w <= s
    ensures Solid(w)
    ensures |w| < |s| ==> IsSpace(s[|w|])
  {
    if s == "" || IsSpace(s[0]) then "" else [s[0]] + Word(s[1..])
  }

  // strings.Fields: the maximal runs of s without white space, in order.
  function Fields(s: string): (fs: seq<string>)
    ensures forall i :: 0 <= i < |fs| ==> fs[i] != "" && Solid(fs[i])
    decreases |s|
  {
    if s == "" then []
    else if IsSpace(s[0]) then Fields(s[1..])
    else [Word(s)] + Fields(s[|Word(s)|..])
  }

  // Fields joined by single blanks, each preceded by one.
  function Spaced(fs: seq<string>): string {
    if fs == [] then "" else " " + fs[0] + Spaced(fs[1..])
  }

  lemma {:induction false} WordOfPrefix(w: string, rest: string)
    requires Solid(w)
    requires rest == "" || IsSpace(rest[0])
    ensures Word(w + rest) == w
  {
    if w == "" {
      assert w + rest == rest;
    } else {
      assert (w + rest)[1..] == w[1..] + rest;
      WordOfPrefix(w[1..], rest);
    }
  }

  // Splitting undoes joining.
  lemma {:induction false} FieldsOfSpaced(fs: seq<string>)
    requires forall i :: 0 <= i < |fs| ==> fs[i] != "" && Solid(fs[i])
    ensures Fields(Spaced(fs)) == fs
  {
    if fs != [] {
      var rest := Spaced(fs[1..]);
      var s := fs[0] + rest;
      assert Spaced(fs)[1..] == s;
      assert s[0] == fs[0][0] && s[0] in fs[0];
      WordOfPrefix(fs[0], rest);
      assert s[|fs[0]|..] == rest;
      FieldsOfSpaced(fs[1..]);
    }
  }
}

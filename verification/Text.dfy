/** The string operations the decisions depend on, for ASCII text. */
module Text {

  function LowerChar(c: char): (l: char) {
    if 'A' <= c <= 'Z' then (c as int + 32) as char else c
  }

  function Lower(s: string): (l: string)
    ensures |l| == |s|
    ensures forall i | 0 <= i < |s| :: l[i] == LowerChar(s[i])
  {
    seq(|s|, i requires 0 <= i < |s| => LowerChar(s[i]))
  }

  predicate IsSpace(c: char) {
    c == ' ' || '\t' <= c <= '\r'
  }

  function UpperChar(c: char): char {
    if 'a' <= c <= 'z' then (c as int - 32) as char else c
  }

  function Upper(s: string): (u: string)
    ensures |u| == |s|
    ensures forall i | 0 <= i < |s| :: u[i] == UpperChar(s[i])
  {
    seq(|s|, i requires 0 <= i < |s| => UpperChar(s[i]))
  }

  /** Lower-casing leaves no capital letter, changes nothing else, and forgets exactly the case. */
  lemma LowerMeaning(s: string)
    ensures forall c | c in Lower(s) :: !('A' <= c <= 'Z')
    ensures (forall c | c in s :: !('A' <= c <= 'Z')) ==> Lower(s) == s
    ensures Lower(Upper(s)) == Lower(s)
    ensures forall i | 0 <= i < |s| :: 'A' <= s[i] <= 'Z' ==> Lower(s)[i] as int - 'a' as int == s[i] as int - 'A' as int
    ensures forall c | c in Upper(s) :: !('a' <= c <= 'z')
  {
    forall c | c in Upper(s) ensures !('a' <= c <= 'z') {
      var i :| 0 <= i < |s| && Upper(s)[i] == c;
    }
    forall c | c in Lower(s) ensures !('A' <= c <= 'Z') {
      var i :| 0 <= i < |s| && Lower(s)[i] == c;
    }
    assert forall i | 0 <= i < |s| :: Lower(Upper(s))[i] == Lower(s)[i];
    if forall c | c in s :: !('A' <= c <= 'Z') {
      forall i | 0 <= i < |s| ensures Lower(s)[i] == s[i] {
        assert s[i] in s;
      }
    }
  }

  function TrimLeft(s: string): string {
    if s != "" && IsSpace(s[0]) then TrimLeft(s[1..]) else s
  }

  function TrimRight(s: string): string {
    if s != "" && IsSpace(s[|s| - 1]) then TrimRight(s[..|s| - 1]) else s
  }

  function Trim(s: string): string {
    TrimRight(TrimLeft(s))
  }

  /** Lower-cased and trimmed, the form addresses are compared in. */
  function Normal(s: string): string {
    Lower(Trim(s))
  }

  predicate PartAt(s: string, part: string, i: int) {
    0 <= i <= |s| - |part| && s[i..i + |part|] == part
  }

  predicate Contains(s: string, part: string) {
    exists i | 0 <= i <= |s| - |part| :: PartAt(s, part, i)
  }

  lemma LowerIdempotent(s: string)
    ensures Lower(Lower(s)) == Lower(s)
  {
    assert forall i | 0 <= i < |s| :: Lower(Lower(s))[i] == Lower(s)[i];
  }

  lemma {:induction false} LowerTrimLeft(s: string)
    ensures TrimLeft(Lower(s)) == Lower(TrimLeft(s))
  {
    if s != "" && IsSpace(s[0]) {
      assert Lower(s)[1..] == Lower(s[1..]);
      LowerTrimLeft(s[1..]);
    }
  }

  lemma {:induction false} LowerTrimRight(s: string)
    ensures TrimRight(Lower(s)) == Lower(TrimRight(s))
  {
    if s != "" && IsSpace(s[|s| - 1]) {
      assert Lower(s)[..|s| - 1] == Lower(s[..|s| - 1]);
      LowerTrimRight(s[..|s| - 1]);
    }
  }

  lemma {:induction false} TrimRightTrimmed(s: string)
    ensures TrimRight(TrimRight(s)) == TrimRight(s)
    ensures TrimRight(s) <= s
  {
    if s != "" && IsSpace(s[|s| - 1]) { TrimRightTrimmed(s[..|s| - 1]); }
  }

  lemma {:induction false} TrimLeftTrimmed(s: string)
    ensures var t := TrimLeft(s); t == "" || !IsSpace(t[0])
  {
    if s != "" && IsSpace(s[0]) { TrimLeftTrimmed(s[1..]); }
  }

  lemma SplitFirst(a: string, b: string, x: string, y: string, ch: char)
    requires ch !in a && ch !in b && a + [ch] + x == b + [ch] + y
    ensures a == b && x == y
  {
    var s, t := a + [ch] + x, b + [ch] + y;
    assert s[|a|] == ch && t[|b|] == ch;
    assert forall i | 0 <= i < |a| :: s[i] == a[i];
    assert forall i | 0 <= i < |b| :: t[i] == b[i];
    assert a == s[..|a|] && b == t[..|b|] && x == s[|a| + 1..] && y == t[|b| + 1..];
  }

  predicate Blank(s: string) {
    forall c | c in s :: c in {' ', '\t', '\n', '\r', 11 as char, 12 as char}
  }

  lemma {:induction false} TrimLeftMeaning(s: string) returns (left: string)
    ensures s == left + TrimLeft(s) && Blank(left)
  {
    left := "";
    if s != "" && IsSpace(s[0]) {
      left := TrimLeftMeaning(s[1..]);
      left := [s[0]] + left;
    }
  }

  lemma {:induction false} TrimRightMeaning(s: string) returns (right: string)
    ensures s == TrimRight(s) + right && Blank(right)
    ensures TrimRight(s) == "" || !IsSpace(TrimRight(s)[|TrimRight(s)| - 1])
  {
    right := "";
    if s != "" && IsSpace(s[|s| - 1]) {
      right := TrimRightMeaning(s[..|s| - 1]);
      right := right + [s[|s| - 1]];
    }
  }

  /** Trimming takes the blanks off both ends and nothing else. */
  lemma TrimMeaning(s: string) returns (left: string, right: string)
    ensures s == left + Trim(s) + right && Blank(left) && Blank(right)
    ensures Trim(s) != "" ==> !Blank(Trim(s)[..1]) && !Blank(Trim(s)[|Trim(s)| - 1..])
  {
    left := TrimLeftMeaning(s);
    right := TrimRightMeaning(TrimLeft(s));
    TrimLeftTrimmed(s);
    if Trim(s) != "" {
      SharedStart(TrimLeft(s), Trim(s), right);
      BlankEnds(Trim(s));
    }
  }

  lemma SharedStart(whole: string, start: string, rest: string)
    requires whole == start + rest && start != ""
    ensures whole != "" && whole[0] == start[0]
  {}

  lemma BlankEnds(t: string)
    requires t != "" && !IsSpace(t[0]) && !IsSpace(t[|t| - 1])
    ensures !Blank(t[..1]) && !Blank(t[|t| - 1..])
  {
    assert t[..1][0] == t[0] && t[|t| - 1..][0] == t[|t| - 1];
    assert t[0] in t[..1] && t[|t| - 1] in t[|t| - 1..];
  }

  lemma TrimIdempotent(s: string)
    ensures Trim(Trim(s)) == Trim(s)
  {
    TrimLeftTrimmed(s);
    TrimRightTrimmed(TrimLeft(s));
    assert TrimLeft(Trim(s)) == Trim(s);
  }

  lemma NormalOfLower(s: string)
    ensures Normal(Lower(s)) == Normal(s)
  {
    LowerTrimLeft(s);
    LowerTrimRight(TrimLeft(s));
    LowerIdempotent(Trim(s));
  }

  lemma NormalIdempotent(s: string)
    ensures Normal(Normal(s)) == Normal(s)
    ensures Lower(Normal(s)) == Normal(s)
  {
    LowerTrimLeft(Trim(s));
    LowerTrimRight(TrimLeft(Trim(s)));
    TrimIdempotent(s);
    LowerIdempotent(Trim(s));
  }
}

/** Which addresses may receive anything. Address syntax is a parameter: it says of a text whether
    the mail parser accepts it and gives it back unchanged. */
module Addresses {
  import opened Base
  import opened Text

  type Syntax = string -> bool

  predicate WellFormed(syntax: Syntax, value: string) {
    value != "" && '@' in value && syntax(value)
  }

  predicate Placeholder(value: string) {
    value == "" || value == "[redacted]" || Contains(value, "noreply")
  }

  /** The store's view of an address: empty when it cannot be used. */
  function UsableEmail(syntax: Syntax, value: string): string {
    var email := Normal(value);
    if Placeholder(email) || !WellFormed(syntax, email) then "" else email
  }

  /** The router's view of an address. */
  function EmailAddress(syntax: Syntax, value: string): Option<string> {
    var email := Normal(value);
    if Placeholder(email) || !WellFormed(syntax, email) then None else Some(email)
  }

  function NormalizeRecipient(syntax: Syntax, value: string): string {
    var email := Normal(value);
    if WellFormed(syntax, email) then email else ""
  }

  datatype Policy = Policy(allowAll: bool, allowed: set<string>)

  /** The allowlist: no entries at all means everyone, malformed entries allow no one. */
  function NewPolicy(syntax: Syntax, emails: seq<string>): (p: Policy)
    ensures p.allowAll <==> emails == []
    ensures forall a :: a in p.allowed <==> a != "" && exists e | e in emails :: NormalizeRecipient(syntax, e) == a
  {
    Policy(|emails| == 0, set e | e in emails && NormalizeRecipient(syntax, e) != "" :: NormalizeRecipient(syntax, e))
  }

  predicate Allows(syntax: Syntax, policy: Policy, address: string) {
    policy.allowAll || NormalizeRecipient(syntax, address) in policy.allowed
  }

  function AfterAt(address: string): Option<string> {
    if address == "" then None
    else if address[0] == '@' then Some(address[1..])
    else AfterAt(address[1..])
  }

  /** The domain filter: everything after the first '@' must be a configured domain. */
  predicate DomainAllowed(domains: set<string>, address: string) {
    domains == {} || (AfterAt(address).Some? && Lower(AfterAt(address).value) in domains)
  }

  lemma {:induction false} AfterAtMeaning(local: string, domain: string)
    requires '@' !in local
    ensures AfterAt(local) == None && AfterAt(local + "@" + domain) == Some(domain)
  {
    var address := local + "@" + domain;
    if local == "" {
      assert address == "@" + domain && address[1..] == domain;
    } else {
      AfterAtMeaning(local[1..], domain);
      assert address[1..] == local[1..] + "@" + domain;
    }
  }

  /** The domain filter: without a list everything passes; with one, exactly what stands after the first '@',
      whatever its letter case, decides. */
  lemma DomainAllowedExactly(domains: set<string>, local: string, domain: string)
    requires '@' !in local
    ensures DomainAllowed(domains, local + "@" + domain) <==> domains == {} || Lower(domain) in domains
    ensures DomainAllowed(domains, local) <==> domains == {}
  {
    AfterAtMeaning(local, domain);
  }

  /** The allowlist: without entries everyone may receive; with entries, exactly those whose normalised
      address is a well-formed entry. */
  lemma AllowsExactly(syntax: Syntax, emails: seq<string>, address: string)
    ensures Allows(syntax, NewPolicy(syntax, emails), address) <==>
              || emails == []
              || (Normal(address) != "" && '@' in Normal(address) && syntax(Normal(address))
                  && exists e | e in emails :: Normal(e) == Normal(address))
  {}

  /** No part of the text says "noreply". */
  ghost predicate NoReplyFree(value: string) {
    forall before, after :: before + "noreply" + after != value
  }

  /** Holding a part is having something before it and something after it. */
  lemma ContainsMeaning(value: string, part: string)
    ensures Contains(value, part) <==> exists before, after :: before + part + after == value
  {
    if Contains(value, part) {
      var i :| 0 <= i <= |value| - |part| && PartAt(value, part, i);
      assert value[..i] + part + value[i + |part|..] == value;
    }
    if before, after :| before + part + after == value {
      assert PartAt(value, part, |before|);
    }
  }

  /** Usable is exactly what is well-formed once normalised and no placeholder. */
  lemma UsableExactly(syntax: Syntax, value: string)
    ensures UsableEmail(syntax, value) != "" <==>
              var u := Normal(value); u != "" && '@' in u && syntax(u) && u != "[redacted]" && NoReplyFree(u)
    ensures UsableEmail(syntax, value) in {"", Normal(value)}
  {
    var u := Normal(value);
    ContainsMeaning(u, "noreply");
  }

  /** A usable address is a fixed point of normalisation and passes the router's own test. */
  lemma UsableIsStable(syntax: Syntax, value: string)
    ensures var u := UsableEmail(syntax, value);
            && EmailAddress(syntax, value) == (if u == "" then None else Some(u))
            && (u != "" ==> Normal(u) == u && Lower(u) == u && UsableEmail(syntax, u) == u && NormalizeRecipient(syntax, u) == u)
  {
    NormalIdempotent(value);
  }
}

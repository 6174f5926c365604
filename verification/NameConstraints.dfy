/**
 X.509 name constraints: parsing, matching (section 4.2.1.10 of RFC 5280) and the
 walk up the issuing chain of app/services/name_constraints.py.
 */
module NameConstraints {
  import opened Prelude

  // ---------------------------------------------------------------------------
  // Strings
  // ---------------------------------------------------------------------------

  function LowerChar(c: char): char {
    if 'A' <= c <= 'Z' then c - 'A' + 'a' else c
  }

  function Lower(s: string): string {
    seq(|s|, i requires 0 <= i < |s| => LowerChar(s[i]))
  }

  predicate Blank(c: char) {
    c == ' ' || '\t' <= c <= '\r'
  }

  /** `strip()`. */
  function Strip(s: string): string {
    if s == "" then s
    else if Blank(s[0]) then Strip(s[1..])
    else if Blank(s[|s| - 1]) then Strip(s[..|s| - 1])
    else s
  }

  /** `rstrip(".")` and `lstrip(".")`. */
  function RStripDots(s: string): string {
    if s != "" && s[|s| - 1] == '.' then RStripDots(s[..|s| - 1]) else s
  }

  function LStripDots(s: string): string {
    if s != "" && s[0] == '.' then LStripDots(s[1..]) else s
  }

  predicate StartsWith(s: string, t: string) {
    |t| <= |s| && s[..|t|] == t
  }

  predicate EndsWith(s: string, t: string) {
    |t| <= |s| && s[|s| - |t|..] == t
  }

  function Normal(s: string): string {
    RStripDots(Lower(s))
  }

  /** The place of the first `c`, the length when there is none. */
  function Find(s: string, c: char): (i: nat)
    ensures i <= |s| && (i < |s| ==> s[i] == c) && forall j :: 0 <= j < i ==> s[j] != c
  {
    if s == "" || s[0] == c then 0 else 1 + Find(s[1..], c)
  }

  /** What follows the last `c`; everything when there is none. */
  function AfterLast(s: string, c: char): string {
    if Find(s, c) == |s| then s else AfterLast(s[Find(s, c) + 1..], c)
  }

  // ---------------------------------------------------------------------------
  // Matching
  // ---------------------------------------------------------------------------

  datatype Kind = Dns | Ip | Email | Uri | Other

  datatype Name = Name(kind: Kind, value: string)

  /** Address arithmetic and URL parsing. */
  datatype Outside = Outside(network: string -> Option<string>, inNetwork: (string, string) -> bool, host: string -> string)

  predicate DnsWithin(name: string, constraint: string) {
    var n, c := Normal(name), Normal(constraint);
    if StartsWith(n, "*.") then n[2..] == LStripDots(c) || EndsWith(n[2..], "." + LStripDots(c))
    else if StartsWith(c, ".") then EndsWith(n, c)
    else n == c || EndsWith(n, "." + c)
  }

  predicate EmailWithin(name: string, constraint: string) {
    var n, c := Lower(name), Lower(constraint);
    if '@' in c then n == c
    else if StartsWith(c, ".") then EndsWith(AfterLast(n, '@'), c)
    else AfterLast(n, '@') == c
  }

  predicate UriWithin(o: Outside, name: string, constraint: string) {
    var host, c := Normal(o.host(name)), Normal(constraint);
    host != "" && if StartsWith(c, ".") then EndsWith(host, c) else host == c
  }

  predicate Within(o: Outside, kind: Kind, name: string, constraint: string) {
    match kind
    case Dns => DnsWithin(name, constraint)
    case Ip => o.inNetwork(name, constraint)
    case Email => EmailWithin(name, constraint)
    case Uri => UriWithin(o, name, constraint)
    case Other => false
  }

  // ---------------------------------------------------------------------------
  // Wildcards
  // ---------------------------------------------------------------------------

  /** A label that is not itself a wildcard. */
  predicate Label(l: string) {
    l != "" && '.' !in l && l != "*"
  }

  /** The wildcard of `b` is inside the constraint exactly when all its one-label
      instances are. */
  ghost predicate Faithful(b: string, constraint: string) {
    DnsWithin("*." + b, constraint) <==> forall l :: Label(l) ==> DnsWithin(l + "." + b, constraint)
  }

  /** `n` is the domain `d` or a name below it. */
  predicate AtOrBelow(n: string, d: string) {
    n == d || EndsWith(n, "." + d)
  }

  lemma {:induction false} RStripAfter(a: string, b: string)
    requires RStripDots(b) != ""
    ensures RStripDots(a + b) == a + RStripDots(b)
    decreases |b|
  {
    var s := a + b;
    assert s[|s| - 1] == b[|b| - 1];
    if b[|b| - 1] == '.' {
      assert s[..|s| - 1] == a + b[..|b| - 1];
      RStripAfter(a, b[..|b| - 1]);
    }
  }

  lemma LowerConcat(a: string, b: string)
    ensures Lower(a + b) == Lower(a) + Lower(b)
  {
  }

  lemma NormalOfPrefixed(a: string, b: string)
    requires Normal(b) != ""
    ensures Normal(a + "." + b) == Lower(a) + "." + Normal(b)
  {
    LowerConcat(a + ".", b);
    LowerConcat(a, ".");
    RStripAfter(Lower(a + "."), Lower(b));
  }

  lemma NormalOfWildcard(b: string)
    requires Normal(b) != ""
    ensures Normal("*." + b) == "*." + Normal(b)
  {
    NormalOfPrefixed("*", b);
    assert "*" + "." == "*." && Lower("*") == "*";
  }

  lemma LowerLabel(l: string)
    requires Label(l)
    ensures Label(Lower(l))
  {
    var m := Lower(l);
    forall i | 0 <= i < |m|
      ensures m[i] != '.'
    {
      assert l[i] in l;
    }
    assert m[0] == LowerChar(l[0]);
    assert |l| == 1 ==> l == [l[0]];
  }

  /** Nor is a name that starts with such a label. */
  lemma NotAWildcard(l: string, b: string)
    requires Label(l)
    ensures !StartsWith(l + "." + b, "*.")
  {
    var n := l + "." + b;
    assert |l| > 1 ==> n[1] == l[1] && l[1] in l;
    assert |l| == 1 ==> l == [l[0]];
    assert n[0] == l[0] && n[..2][0] == n[0] && n[..2][1] == n[1];
  }

  /** A suffix that starts with a dot cannot start inside a label. */
  lemma SuffixOfInstance(l: string, b: string, d: string)
    requires '.' !in l
    ensures EndsWith(l + "." + b, "." + d) <==> AtOrBelow(b, d)
  {
    var n, t := l + "." + b, "." + d;
    if |d| < |b| {
      assert n[|n| - |t|..] == b[|b| - |t|..];
    } else if |d| == |b| {
      assert n[|n| - |t|..] == "." + b;
      assert d == t[1..] && b == ("." + b)[1..];
    } else if |t| <= |n| {
      assert n[|n| - |t|..][0] == l[|n| - |t|];
      assert l[|n| - |t|] in l;
    }
  }

  lemma InstanceWithin(l: string, b: string, constraint: string)
    requires Label(l) && Normal(b) != ""
    ensures var c := Normal(constraint); DnsWithin(l + "." + b, constraint) <==>
      if StartsWith(c, ".") then AtOrBelow(Normal(b), c[1..])
      else Lower(l) + "." + Normal(b) == c || AtOrBelow(Normal(b), c)
  {
    var c, n := Normal(constraint), Lower(l) + "." + Normal(b);
    NormalOfPrefixed(l, b);
    LowerLabel(l);
    NotAWildcard(Lower(l), Normal(b));
    if StartsWith(c, ".") {
      assert c == "." + c[1..];
      SuffixOfInstance(Lower(l), Normal(b), c[1..]);
    } else {
      SuffixOfInstance(Lower(l), Normal(b), c);
    }
  }

  /** Outside the dotted forms: one label may complete the name to the constraint
      itself, two different labels cannot both. */
  lemma PlainFaithful(b: string, constraint: string)
    requires Normal(b) != "" && !StartsWith(Normal(constraint), ".")
    ensures Faithful(b, constraint)
  {
    var c := Normal(constraint);
    assert LStripDots(c) == c;
    NormalOfWildcard(b);
    assert DnsWithin("*." + b, constraint) <==> AtOrBelow(Normal(b), c);
    forall l | Label(l)
      ensures AtOrBelow(Normal(b), c) ==> DnsWithin(l + "." + b, constraint)
    {
      InstanceWithin(l, b, constraint);
    }
    InstanceWithin("a", b, constraint);
    InstanceWithin("b", b, constraint);
    assert Lower("a")[0] == 'a' && Lower("b")[0] == 'b';
    assert (Lower("a") + "." + Normal(b))[0] != (Lower("b") + "." + Normal(b))[0];
    assert Label("a") && Label("b");
  }

  lemma DottedFaithful(b: string, constraint: string)
    requires Normal(b) != "" && StartsWith(Normal(constraint), ".") && !StartsWith(Normal(constraint), "..")
    ensures Faithful(b, constraint)
  {
    var c := Normal(constraint);
    assert LStripDots(c) == LStripDots(c[1..]) == c[1..] by {
      assert |c| > 1 ==> c[..2] == [c[0], c[1]] && c[..1] == [c[0]];
    }
    NormalOfWildcard(b);
    assert DnsWithin("*." + b, constraint) <==> AtOrBelow(Normal(b), c[1..]);
    forall l | Label(l)
      ensures AtOrBelow(Normal(b), c[1..]) <==> DnsWithin(l + "." + b, constraint)
    {
      InstanceWithin(l, b, constraint);
    }
    assert Label("a");
  }

  lemma {:induction false} RStripIsNormal(s: string)
    ensures var r := RStripDots(s); r <= s && (r != "" ==> r[|r| - 1] != '.')
  {
    if s != "" && s[|s| - 1] == '.' {
      RStripIsNormal(s[..|s| - 1]);
    }
  }

  lemma {:induction false} LStripIsSuffix(s: string)
    requires s != "" && s[|s| - 1] != '.'
    ensures var r := LStripDots(s); r != "" && EndsWith(s, r) && r[0] != '.'
  {
    if s[0] == '.' {
      LStripIsSuffix(s[1..]);
      assert s[1..][|s| - 2] == s[|s| - 1];
      var r := LStripDots(s);
      assert s[|s| - |r|..] == s[1..][|s| - 1 - |r|..];
    }
  }

  /** What is left of a constraint with two leading dots when all of them are stripped. */
  lemma BareDomain(constraint: string)
    requires StartsWith(Normal(constraint), "..")
    ensures var c := Normal(constraint); var b := LStripDots(c);
      b != "" && Normal(b) == b && |b| + 2 <= |c| && c[0] == '.'
  {
    var c := Normal(constraint);
    var b := LStripDots(c);
    RStripIsNormal(Lower(constraint));
    assert c[..2][0] == c[0] && c[..2][1] == c[1];
    LStripShorter(c[2..]);
    assert c[1..][1..] == c[2..];
    LStripIsSuffix(c);
    NormalOfSuffix(Lower(constraint), c, b);
  }

  lemma NormalOfSuffix(s: string, c: string, b: string)
    requires Lower(s) == s && c <= s && EndsWith(c, b) && b != "" && c[|c| - 1] != '.'
    ensures Normal(b) == b
  {
    forall i | 0 <= i < |b|
      ensures Lower(b)[i] == b[i]
    {
      assert b[i] == c[|c| - |b| + i] == s[|c| - |b| + i] == Lower(s)[|c| - |b| + i];
    }
    assert Lower(b) == b && b[|b| - 1] == c[|c| - 1];
  }

  /** With two leading dots the wildcard of the bare domain is let in, its instances are not. */
  lemma DoubleDotsUnfaithful(constraint: string)
    requires StartsWith(Normal(constraint), "..")
    ensures var b := LStripDots(Normal(constraint));
      Normal(b) != "" && DnsWithin("*." + b, constraint) && !DnsWithin("a." + b, constraint)
  {
    var c := Normal(constraint);
    var b := LStripDots(c);
    BareDomain(constraint);
    NormalOfWildcard(b);
    InstanceWithin("a", b, constraint);
    assert "a" + "." + b == "a." + b;
    assert c[..1] == [c[0]];
    assert !AtOrBelow(b, c[1..]);
  }

  lemma {:induction false} LStripShorter(s: string)
    ensures |LStripDots(s)| <= |s|
  {
    if s != "" && s[0] == '.' {
      LStripShorter(s[1..]);
    }
  }

  /** A constraint treats every wildcard like the names it stands for exactly when it
      does not start with two dots. */
  lemma WildcardsStandForTheirInstances(constraint: string)
    ensures (forall b :: Normal(b) != "" ==> Faithful(b, constraint)) <==> !StartsWith(Normal(constraint), "..")
  {
    if StartsWith(Normal(constraint), "..") {
      DoubleDotsUnfaithful(constraint);
      var b := LStripDots(Normal(constraint));
      assert Label("a") && "a" + "." + b == "a." + b;
      assert !Faithful(b, constraint);
    } else {
      forall b | Normal(b) != ""
        ensures Faithful(b, constraint)
      {
        if StartsWith(Normal(constraint), ".") {
          DottedFaithful(b, constraint);
        } else {
          PlainFaithful(b, constraint);
        }
      }
    }
  }

  // ---------------------------------------------------------------------------
  // Parsing
  // ---------------------------------------------------------------------------

  datatype ParseProblem = UnsupportedPrefix | NoValue | IsWildcard | NotADomain | NotANetwork

  function KindOf(word: string): Kind {
    if word == "dns" then Dns
    else if word == "ip" then Ip
    else if word == "email" then Email
    else if word == "uri" then Uri
    else Other
  }

  function Prefix(kind: Kind): string {
    match kind
    case Dns => "DNS"
    case Ip => "IP"
    case Email => "EMAIL"
    case Uri => "URI"
    case Other => "other"
  }

  /** A constraint as it is stored, and `_split`, which reads it again. */
  function Stored(n: Name): string {
    Prefix(n.kind) + ":" + n.value
  }

  function Split(entry: string): Name {
    var i := Find(entry, ':');
    Name(KindOf(Lower(entry[..i])), if i < |entry| then entry[i + 1..] else "")
  }

  predicate LabelChar(c: char) {
    'a' <= c <= 'z' || 'A' <= c <= 'Z' || '0' <= c <= '9' || c == '-'
  }

  predicate DomainLabel(l: string) {
    1 <= |l| <= 63 && l[0] != '-' && l[|l| - 1] != '-' && forall i :: 0 <= i < |l| ==> LabelChar(l[i])
  }

  predicate Labels(s: string) {
    var i := Find(s, '.');
    DomainLabel(s[..i]) && (i < |s| ==> Labels(s[i + 1..]))
  }

  predicate DottedLabels(s: string) {
    if StartsWith(s, ".") then Labels(s[1..]) else Labels(s)
  }

  /** The pattern of a domain; its end anchor lets one line feed through. */
  predicate DomainPattern(s: string) {
    DottedLabels(s) || (s != "" && s[|s| - 1] == '\n' && DottedLabels(s[..|s| - 1]))
  }

  function ParseValue(o: Outside, kind: Kind, value: string): Result<string, ParseProblem> {
    match kind
    case Dns =>
      var v := Normal(value);
      if StartsWith(v, "*") then Err(IsWildcard) else if !DomainPattern(v) then Err(NotADomain) else Ok(v)
    case Ip =>
      (match if '/' in value then o.network(value) else None
       case None => Err(NotANetwork)
       case Some(network) => Ok(network))
    case Email =>
      var v := Lower(value);
      if !DomainPattern(AfterLast(v, '@')) then Err(NotADomain) else Ok(v)
    case Uri =>
      var v := Normal(value);
      if '/' in v || ':' in v || !DomainPattern(v) then Err(NotADomain) else Ok(v)
    case Other => Err(UnsupportedPrefix)
  }

  /** `parse_entry`; None for a blank line. */
  function ParseEntry(o: Outside, entry: string): Result<Option<Name>, ParseProblem> {
    var raw := Strip(entry);
    if raw == "" then Ok(None)
    else
      var i := Find(raw, ':');
      var kind := if i < |raw| then KindOf(Lower(Strip(raw[..i]))) else Other;
      if kind.Other? then Err(UnsupportedPrefix)
      else
        var value := Strip(raw[i + 1..]);
        if value == "" then Err(NoValue)
        else match ParseValue(o, kind, value)
          case Err(p) => Err(p)
          case Ok(v) => Ok(Some(Name(kind, v)))
  }

  lemma FindAfterPrefix(p: string, c: char, rest: string)
    requires c !in p
    ensures Find(p + [c] + rest, c) == |p|
  {
    var s := p + [c] + rest;
    assert s[|p|] == c;
    assert forall i :: 0 <= i < |p| ==> s[i] == p[i] && p[i] in p;
  }

  /** A stored constraint reads back as what was parsed. */
  lemma StoredSplitsBack(n: Name)
    ensures Split(Stored(n)) == n
  {
    var p := Prefix(n.kind);
    var s := Stored(n);
    FindAfterPrefix(p, ':', n.value);
    assert s == p + [':'] + n.value;
    assert s[..|p|] == p && s[|p| + 1..] == n.value;
    assert Lower("DNS") == "dns" && Lower("IP") == "ip" && Lower("EMAIL") == "email" && Lower("URI") == "uri";
    assert Lower("other") == "other";
  }

  lemma {:induction false} RStripTwice(s: string)
    ensures RStripDots(RStripDots(s)) == RStripDots(s)
  {
    if s != "" && s[|s| - 1] == '.' {
      RStripTwice(s[..|s| - 1]);
    }
  }

  lemma NormalTwice(s: string)
    ensures Normal(Normal(s)) == Normal(s)
  {
    RStripIsNormal(Lower(s));
    RStripTwice(Lower(s));
    var n := Normal(s);
    assert forall i :: 0 <= i < |n| ==> n[i] == Lower(s)[i];
    assert Lower(n) == n;
  }

  lemma TwoDots(s: string)
    ensures StartsWith(s, "..") <==> |s| >= 2 && s[0] == '.' && s[1] == '.'
  {
    if |s| >= 2 {
      assert s[..2] == [s[0], s[1]];
    }
  }

  lemma DottedOnce(s: string)
    requires DottedLabels(s) && |s| >= 2
    ensures s[0] != '.' || s[1] != '.'
  {
    assert s[..1] == [s[0]];
    if s[0] == '.' {
      assert Labels(s[1..]) && Find(s[1..], '.') > 0;
      assert s[1..][0] == s[1];
    }
  }

  lemma PatternDottedOnce(s: string)
    requires DomainPattern(s)
    ensures !StartsWith(s, "..")
  {
    TwoDots(s);
    var init := if s == "" then s else s[..|s| - 1];
    if DottedLabels(s) && |s| >= 2 {
      DottedOnce(s);
    } else if |s| >= 3 {
      DottedOnce(init);
    }
  }

  /** What was accepted is the accepted value of a known kind. */
  lemma ParsedFrom(o: Outside, entry: string, n: Name) returns (value: string)
    requires ParseEntry(o, entry) == Ok(Some(n))
    ensures !n.kind.Other? && ParseValue(o, n.kind, value) == Ok(n.value)
  {
    var raw := Strip(entry);
    value := Strip(raw[Find(raw, ':') + 1..]);
  }

  /** Every constraint that was entered, rather than read from an imported certificate,
      treats wildcards like the names they stand for. */
  lemma EnteredConstraintsAreFaithful(o: Outside, entry: string, n: Name, b: string)
    requires ParseEntry(o, entry) == Ok(Some(n)) && n.kind.Dns? && Normal(b) != ""
    ensures Faithful(b, n.value)
  {
    var value := ParsedFrom(o, entry, n);
    NormalTwice(value);
    PatternDottedOnce(n.value);
    if StartsWith(Normal(n.value), ".") {
      DottedFaithful(b, n.value);
    } else {
      PlainFaithful(b, n.value);
    }
  }
}

/**
 What the matchers of app/services/name_constraints.py let through, in the spelling of
 names and constraints, and which entries are accepted.
 */
module NameMeaning {
  import opened Prelude
  import opened NameConstraints

  lemma SuffixIs(s: string, t: string)
    ensures EndsWith(s, t) <==> exists p: string :: s == p + t
  {
    if EndsWith(s, t) {
      assert s == s[..|s| - |t|] + t;
    }
    if p :| s == p + t {
      assert s[|s| - |t|..] == t;
    }
  }

  /** A name that is not a wildcard is inside a constraint without a leading dot if it is
      that domain or below it, and inside one with a leading dot if it is below. */
  lemma DnsConstraintCovers(name: string, constraint: string)
    requires !StartsWith(Normal(name), "*.")
    ensures var n, c := Normal(name), Normal(constraint);
      if StartsWith(c, ".") then DnsWithin(name, constraint) <==> exists p: string :: n == p + c
      else DnsWithin(name, constraint) <==> n == c || exists p: string :: n == p + ("." + c)
  {
    var n, c := Normal(name), Normal(constraint);
    SuffixIs(n, c);
    SuffixIs(n, "." + c);
  }

  lemma {:induction false} AfterTheAt(local: string, host: string)
    requires '@' !in host
    ensures AfterLast(local + "@" + host, '@') == host
    decreases |local|
  {
    var s := local + "@" + host;
    var i := Find(s, '@');
    assert s[|local|] == '@';
    var rest := s[i + 1..];
    if i < |local| {
      assert rest == local[i + 1..] + "@" + host;
      AfterTheAt(local[i + 1..], host);
    } else {
      assert rest == host;
      NoneToFind(host);
    }
  }

  lemma NoneToFind(host: string)
    requires '@' !in host
    ensures AfterLast(host, '@') == host
  {
  }

  lemma LowerKeepsAt(s: string)
    ensures '@' in Lower(s) <==> '@' in s
  {
    forall i | 0 <= i < |s|
      ensures Lower(s)[i] == '@' <==> s[i] == '@'
    {
    }
    if '@' in s {
      var i :| 0 <= i < |s| && s[i] == '@';
      assert Lower(s)[i] == '@';
    }
  }

  /** A mailbox constraint covers that mailbox; a host constraint the mailboxes on that host
      and on none below it; a constraint with a leading dot those on hosts below. */
  lemma EmailConstraintCovers(local: string, host: string, constraint: string)
    requires '@' !in host
    ensures var name, c := local + "@" + host, Lower(constraint);
      if '@' in constraint then EmailWithin(name, constraint) <==> Lower(name) == c
      else if StartsWith(c, ".") then EmailWithin(name, constraint) <==> exists p: string :: Lower(host) == p + c
      else EmailWithin(name, constraint) <==> Lower(host) == c
  {
    LowerKeepsAt(constraint);
    LowerKeepsAt(host);
    LowerConcat(local + "@", host);
    LowerConcat(local, "@");
    assert Lower("@") == "@";
    AfterTheAt(Lower(local), Lower(host));
    SuffixIs(Lower(host), Lower(constraint));
  }

  /** A URI counts by its host: that host, or with a leading dot a host below; without a
      host it is inside no constraint. */
  lemma UriConstraintCovers(o: Outside, name: string, constraint: string)
    ensures var host, c := Normal(o.host(name)), Normal(constraint);
      UriWithin(o, name, constraint) <==>
        host != "" && if StartsWith(c, ".") then exists p: string :: host == p + c else host == c
  {
    SuffixIs(Normal(o.host(name)), Normal(constraint));
  }

  /** Each kind of name is matched its own way; no other constraint is evaluated. */
  lemma KindsMatchTheirOwn(o: Outside, name: string, constraint: string)
    ensures Within(o, Dns, name, constraint) <==> DnsWithin(name, constraint)
    ensures Within(o, Ip, name, constraint) <==> o.inNetwork(name, constraint)
    ensures Within(o, Email, name, constraint) <==> EmailWithin(name, constraint)
    ensures Within(o, Uri, name, constraint) <==> UriWithin(o, name, constraint)
    ensures !Within(o, Other, name, constraint)
  {
  }

  // ---------------------------------------------------------------------------
  // Entries
  // ---------------------------------------------------------------------------

  /** No blanks at either end. */
  predicate Trimmed(s: string) {
    s != "" && !Blank(s[0]) && !Blank(s[|s| - 1])
  }

  lemma TrimmedStays(s: string)
    requires Trimmed(s)
    ensures Strip(s) == s
  {
  }

  /** A domain entered as a DNS constraint is accepted, and stored in its normal form. */
  lemma DomainsAreAccepted(o: Outside, domain: string)
    requires Trimmed(domain) && DottedLabels(Normal(domain)) && !StartsWith(Normal(domain), "*")
    ensures ParseEntry(o, "DNS:" + domain) == Ok(Some(Name(Dns, Normal(domain))))
  {
    var entry := "DNS:" + domain;
    assert entry[0] == 'D' && entry[|entry| - 1] == domain[|domain| - 1];
    TrimmedStays(entry);
    FindAfterPrefix("DNS", ':', domain);
    assert entry == "DNS" + [':'] + domain;
    assert entry[..3] == "DNS" && entry[4..] == domain;
    TrimmedStays("DNS");
    TrimmedStays(domain);
    assert Lower("DNS") == "dns";
  }

  /** A wildcard is not, in any spelling of the prefix. */
  lemma WildcardsAreRefused(o: Outside, value: string)
    requires StartsWith(Normal(value), "*")
    ensures ParseValue(o, Dns, value) == Err(IsWildcard)
  {
  }
}

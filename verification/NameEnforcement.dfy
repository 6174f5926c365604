/**
 Name constraints applied: the stored list of app/services/name_constraints.py, the
 check of a request against one CA and the walk up the issuing chain.
 */
module NameEnforcement {
  import opened Prelude
  import opened NameConstraints

  /** The first `n` lines parse. */
  ghost predicate AllParse(o: Outside, lines: seq<string>, n: int)
    requires 0 <= n <= |lines|
  {
    forall i :: 0 <= i < n ==> ParseEntry(o, lines[i]).Ok?
  }

  /** What is stored for a line. */
  function StoredLine(o: Outside, line: string): Option<string> {
    match ParseEntry(o, line)
    case Ok(Some(n)) => Some(Stored(n))
    case _ => None
  }

  ghost function StoredLines(o: Outside, lines: seq<string>): seq<Option<string>> {
    seq(|lines|, i requires 0 <= i < |lines| => StoredLine(o, lines[i]))
  }

  /** The list after the first `n` lines: what they store, each once. */
  ghost predicate Gathered(stored: seq<Option<string>>, n: int, out: seq<string>)
    requires 0 <= n <= |stored|
  {
    && (forall k :: 0 <= k < n && stored[k].Some? ==> stored[k].value in out)
    && (forall s :: s in out ==> exists k :: 0 <= k < n && stored[k] == Some(s))
    && (forall j, k :: 0 <= j < k < |out| ==> out[j] != out[k])
  }

  lemma GatherNext(stored: seq<Option<string>>, n: int, out: seq<string>)
    requires 0 <= n < |stored| && Gathered(stored, n, out)
    ensures var line := stored[n];
      Gathered(stored, n + 1, if line.Some? && line.value !in out then out + [line.value] else out)
  {
  }

  lemma ParsesNext(o: Outside, lines: seq<string>, i: int)
    requires 0 <= i < |lines| && AllParse(o, lines, i)
    ensures if ParseEntry(o, lines[i]).Ok? then AllParse(o, lines, i + 1) else !AllParse(o, lines, |lines|)
  {
  }

  /** The parsed line as it will be stored. */
  method ParseLine(o: Outside, line: string) returns (r: Result<Option<string>, ParseProblem>)
    ensures r.Ok? <==> ParseEntry(o, line).Ok?
    ensures r.Ok? ==> r.value == StoredLine(o, line)
    ensures r.Err? ==> ParseEntry(o, line) == Err(r.error)
  {
    var parsed := ParseEntry(o, line);
    if parsed.Err? {
      return Err(parsed.error);
    }
    r := Ok(if parsed.value.Some? then Some(Stored(parsed.value.value)) else None);
  }

  /** `parse_entries`: the stored forms of the lines that are not blank, each once; or
      the problem of the first line that has one. */
  method ParseEntries(o: Outside, lines: seq<string>) returns (r: Result<seq<string>, ParseProblem>)
    ensures r.Ok? <==> AllParse(o, lines, |lines|)
    ensures r.Err? ==> exists i :: 0 <= i < |lines| && AllParse(o, lines, i) && ParseEntry(o, lines[i]) == Err(r.error)
    ensures r.Ok? ==> Gathered(StoredLines(o, lines), |lines|, r.value)
  {
    var out: seq<string> := [];
    for i := 0 to |lines|
      invariant AllParse(o, lines, i) && Gathered(StoredLines(o, lines), i, out)
    {
      var parsed := ParseLine(o, lines[i]);
      ParsesNext(o, lines, i);
      if parsed.Err? {
        return Err(parsed.error);
      }
      var line := parsed.value;
      GatherNext(StoredLines(o, lines), i, out);
      if line.Some? && line.value !in out {
        out := out + [line.value];
      }
    }
    r := Ok(out);
  }

  // ---------------------------------------------------------------------------
  // Enforcement
  // ---------------------------------------------------------------------------

  datatype Constraints = Constraints(permitted: seq<string>, excluded: seq<string>)

  /** `e` is of the name's kind and contains it. */
  predicate Covers(o: Outside, e: string, n: Name) {
    Split(e).kind == n.kind && Within(o, n.kind, n.value, Split(e).value)
  }

  /** Not excluded, and inside a permitted subtree of its kind when there is any. */
  ghost predicate Allowed(o: Outside, c: Constraints, n: Name) {
    && (forall e :: e in c.excluded && Split(e).kind == n.kind ==> !Within(o, n.kind, n.value, Split(e).value))
    && ((forall e :: e in c.permitted ==> Split(e).kind != n.kind)
        || exists e :: e in c.permitted && Split(e).kind == n.kind && Within(o, n.kind, n.value, Split(e).value))
  }

  ghost predicate AllAllowed(o: Outside, c: Option<Constraints>, names: seq<Name>, n: int)
    requires 0 <= n <= |names|
  {
    c.Some? ==> forall i :: 0 <= i < n ==> Allowed(o, c.value, names[i])
  }

  method IsExcluded(o: Outside, excluded: seq<string>, n: Name) returns (b: bool)
    ensures b <==> exists e :: e in excluded && Covers(o, e, n)
  {
    for k := 0 to |excluded|
      invariant forall j :: 0 <= j < k ==> !Covers(o, excluded[j], n)
    {
      if Covers(o, excluded[k], n) {
        return true;
      }
    }
    b := false;
  }

  method Passes(o: Outside, c: Constraints, n: Name) returns (b: bool)
    ensures b <==> Allowed(o, c, n)
  {
    var excluded := IsExcluded(o, c.excluded, n);
    if excluded {
      return false;
    }
    var sameKind := exists e :: e in c.permitted && Split(e).kind == n.kind;
    b := !sameKind || exists e :: e in c.permitted && Covers(o, e, n);
  }

  lemma AllowedNext(o: Outside, c: Option<Constraints>, names: seq<Name>, i: int)
    requires c.Some? && 0 <= i < |names| && AllAllowed(o, c, names, i)
    ensures if Allowed(o, c.value, names[i]) then AllAllowed(o, c, names, i + 1)
            else !AllAllowed(o, c, names, |names|)
  {
  }

  /** `check_names`; an error names the first refused name. */
  method CheckNames(o: Outside, c: Option<Constraints>, names: seq<Name>) returns (r: Result<(), nat>)
    ensures r.Ok? <==> AllAllowed(o, c, names, |names|)
    ensures r.Err? ==> c.Some? && r.error < |names| && !Allowed(o, c.value, names[r.error])
                       && AllAllowed(o, c, names, r.error)
  {
    if c.None? {
      return Ok(());
    }
    for i := 0 to |names|
      invariant AllAllowed(o, c, names, i)
    {
      AllowedNext(o, c, names, i);
      var passes := Passes(o, c.value, names[i]);
      if !passes {
        return Err(i);
      }
    }
    r := Ok(());
  }

  /** A CA row: its parent and its constraints. */
  datatype Ca = Ca(parent: Option<nat>, constraints: Option<Constraints>)

  /** The CA `k` links above `c`. */
  ghost function Ancestor(cas: map<nat, Ca>, c: nat, k: nat): (x: Option<nat>)
    ensures x.Some? ==> x.value in cas
    decreases k
  {
    if c !in cas then None
    else if k == 0 then Some(c)
    else if cas[c].parent.None? then None
    else Ancestor(cas, cas[c].parent.value, k - 1)
  }

  /** Every name passes the rules of the CA and of every CA above it. */
  ghost predicate Accepts(o: Outside, cas: map<nat, Ca>, c: nat, names: seq<Name>) {
    forall k: nat :: Ancestor(cas, c, k).Some? ==>
      AllAllowed(o, cas[Ancestor(cas, c, k).value].constraints, names, |names|)
  }

  /** The CAs checked so far and the one to come: the walk goes on only to it. */
  ghost predicate Walked(o: Outside, cas: map<nat, Ca>, names: seq<Name>, seen: set<nat>, current: Option<nat>) {
    && (forall x :: x in seen ==> x in cas && AllAllowed(o, cas[x].constraints, names, |names|))
    && (forall x :: x in seen && cas[x].parent.Some? ==>
          var p := cas[x].parent.value; p in seen || p !in cas || current == Some(p))
  }

  /** All ancestors of a CA in a set that no link leaves are in the set. */
  lemma {:induction false} StaysSeen(cas: map<nat, Ca>, seen: set<nat>, c: nat, k: nat)
    requires c in seen && forall x :: x in seen ==> x in cas
    requires forall x :: x in seen && cas[x].parent.Some? ==> cas[x].parent.value in seen || cas[x].parent.value !in cas
    ensures Ancestor(cas, c, k).Some? ==> Ancestor(cas, c, k).value in seen
    decreases k
  {
    if k > 0 && cas[c].parent.Some? && cas[c].parent.value in seen {
      StaysSeen(cas, seen, cas[c].parent.value, k - 1);
    }
  }

  lemma {:induction false} AncestorUp(cas: map<nat, Ca>, c: nat, k: nat)
    requires Ancestor(cas, c, k).Some?
    ensures Ancestor(cas, c, k).value in cas
    ensures Ancestor(cas, c, k + 1) == (var p := cas[Ancestor(cas, c, k).value].parent;
                                        if p.Some? && p.value in cas then p else None)
    decreases k
  {
    if k > 0 {
      AncestorUp(cas, cas[c].parent.value, k - 1);
    }
  }

  /** `enforce`: accepts exactly when every name passes at every CA up the chain, also
      where the chain of parents should run in a circle. */
  method Enforce(o: Outside, cas: map<nat, Ca>, ca: nat, names: seq<Name>) returns (r: Result<(), (nat, nat)>)
    requires ca in cas
    ensures r.Ok? <==> Accepts(o, cas, ca, names)
    ensures r.Err? ==> var (x, i) := r.error;
      && (exists k: nat :: Ancestor(cas, ca, k) == Some(x)) && cas[x].constraints.Some?
      && i < |names| && !Allowed(o, cas[x].constraints.value, names[i])
  {
    if names == [] {
      return Ok(());
    }
    var current, seen := Some(ca), {};
    ghost var k: nat := 0;
    while current.Some? && current.value !in seen
      invariant Walked(o, cas, names, seen, current)
      invariant current.Some? ==> Ancestor(cas, ca, k) == current
      invariant seen == {} ==> current == Some(ca)
      invariant seen != {} ==> ca in seen
      decreases cas.Keys - seen
    {
      var x := current.value;
      AncestorUp(cas, ca, k);
      seen := seen + {x};
      var checked := CheckNames(o, cas[x].constraints, names);
      if checked.Err? {
        assert Ancestor(cas, ca, k) == Some(x);
        return Err((x, checked.error));
      }
      var p := cas[x].parent;
      current := if p.Some? && p.value in cas then p else None;
      k := k + 1;
    }
    forall k: nat | Ancestor(cas, ca, k).Some?
      ensures AllAllowed(o, cas[Ancestor(cas, ca, k).value].constraints, names, |names|)
    {
      StaysSeen(cas, seen, ca, k);
    }
    r := Ok(());
  }

  /** A CA accepts exactly what its own rules and its parent accept. */
  lemma ChildNarrowsParent(o: Outside, cas: map<nat, Ca>, c: nat, names: seq<Name>)
    requires c in cas && cas[c].parent.Some? && cas[c].parent.value in cas
    ensures Accepts(o, cas, c, names) <==>
            AllAllowed(o, cas[c].constraints, names, |names|) && Accepts(o, cas, cas[c].parent.value, names)
  {
    var p := cas[c].parent.value;
    assert Ancestor(cas, c, 0) == Some(c);
    forall k: nat
      ensures Ancestor(cas, c, k + 1) == Ancestor(cas, p, k)
    {
    }
    if Accepts(o, cas, c, names) {
      forall k: nat | Ancestor(cas, p, k).Some?
        ensures AllAllowed(o, cas[Ancestor(cas, p, k).value].constraints, names, |names|)
      {
        assert Ancestor(cas, c, k + 1) == Ancestor(cas, p, k);
      }
    }
    if AllAllowed(o, cas[c].constraints, names, |names|) && Accepts(o, cas, p, names) {
      forall k: nat | Ancestor(cas, c, k).Some?
        ensures AllAllowed(o, cas[Ancestor(cas, c, k).value].constraints, names, |names|)
      {
        if k > 0 {
          assert Ancestor(cas, c, k) == Ancestor(cas, p, k - 1);
        }
      }
    }
  }
}

/** channel_roster.build_source_index: the module-level string constants of the code base by name, with the
    places that declare them, and which names mean two different things, so that a reference to one
    cannot be followed. */
module SourceIndexing {

  /** One `NAME = <literal>` with the strings the literal holds; an empty set for any other value. */
  datatype Binding = Binding(name: string, strings: set<string>, site: string)

  predicate Declares(b: Binding, name: string) { b.name == name && b.strings != {} }

  /** Two declarations of the name that do not hold the same strings. */
  ghost predicate Disagree(bindings: seq<Binding>, name: string) {
    exists b, c :: b in bindings && c in bindings && Declares(b, name) && Declares(c, name) && b.strings != c.strings
  }

  ghost predicate Declared(bindings: seq<Binding>, name: string, value: string) {
    exists b :: b in bindings && Declares(b, name) && value in b.strings
  }

  function Sites(bindings: seq<Binding>, name: string): seq<string> {
    if bindings == [] then []
    else
      var last := bindings[|bindings| - 1];
      Sites(bindings[..|bindings| - 1], name) + if Declares(last, name) then [last.site] else []
  }

  function GetSet(m: map<string, set<string>>, key: string): set<string> { if key in m then m[key] else {} }

  function GetSeq(m: map<string, seq<string>>, key: string): seq<string> { if key in m then m[key] else [] }

  /** Every string a name is declared with. */
  ghost predicate StringsOf(strings: map<string, set<string>>, bindings: seq<Binding>) {
    && (forall n, v :: v in GetSet(strings, n) <==> Declared(bindings, n, v))
    && (forall n :: n in strings ==> strings[n] != {})
  }

  /** Every site of each name, in scan order. */
  ghost predicate SitesOf(sites: map<string, seq<string>>, bindings: seq<Binding>) {
    forall n :: GetSeq(sites, n) == Sites(bindings, n)
  }

  /** Exactly the names whose declarations disagree, each with all of its strings. */
  ghost predicate AmbiguousOf(ambiguous: map<string, set<string>>, strings: map<string, set<string>>, bindings: seq<Binding>) {
    && (forall n :: n in ambiguous <==> Disagree(bindings, n))
    && (forall n :: n in ambiguous ==> ambiguous[n] == GetSet(strings, n))
  }

  class SourceIndex {
    var strings: map<string, set<string>>
    var sites: map<string, seq<string>>
    var ambiguous: map<string, set<string>>

    ghost predicate Indexes(bindings: seq<Binding>)
      reads this
    {
      StringsOf(strings, bindings) && SitesOf(sites, bindings) && AmbiguousOf(ambiguous, strings, bindings)
    }

    constructor (bindings: seq<Binding>)
      ensures Indexes(bindings)
    {
      strings, sites, ambiguous := map[], map[], map[];
      new;
      for i := 0 to |bindings|
        invariant Indexes(bindings[..i])
      {
        assert bindings[..i + 1] == bindings[..i] + [bindings[i]];
        Add(bindings[..i], bindings[i]);
      }
      assert bindings[..|bindings|] == bindings;
    }

    /** The loop body. */
    method Add(ghost seen: seq<Binding>, b: Binding)
      requires Indexes(seen)
      modifies this
      ensures Indexes(seen + [b])
    {
      if b.strings == {} {
        SkippedBinding(seen, b);
        return;
      }
      var existing := GetSet(strings, b.name);
      StepAmbiguous(seen, b, strings, ambiguous);
      ghost var strings0, sites0 := strings, sites;
      if existing != {} && existing != b.strings {
        ambiguous := ambiguous[b.name := GetSet(ambiguous, b.name) + existing + b.strings];
      }
      strings := strings[b.name := existing + b.strings];
      sites := sites[b.name := GetSeq(sites, b.name) + [b.site]];
      StepStrings(seen, b, strings0, strings);
      StepSites(seen, b, sites0, sites);
    }
  }

  lemma StepStrings(seen: seq<Binding>, b: Binding, strings: map<string, set<string>>, strings': map<string, set<string>>)
    requires b.strings != {} && StringsOf(strings, seen)
    requires strings' == strings[b.name := GetSet(strings, b.name) + b.strings]
    ensures StringsOf(strings', seen + [b])
  {
    forall n, v ensures v in GetSet(strings', n) <==> Declared(seen + [b], n, v) { DeclaredStep(seen, b, n, v); }
  }

  lemma StepSites(seen: seq<Binding>, b: Binding, sites: map<string, seq<string>>, sites': map<string, seq<string>>)
    requires b.strings != {} && SitesOf(sites, seen)
    requires sites' == sites[b.name := GetSeq(sites, b.name) + [b.site]]
    ensures SitesOf(sites', seen + [b])
  {
    assert (seen + [b])[..|seen|] == seen;
    forall n ensures GetSeq(sites', n) == Sites(seen + [b], n) {
      assert GetSeq(sites, n) == Sites(seen, n);
    }
  }

  /** What one binding does to `ambiguous`. */
  function Flag(ambiguous: map<string, set<string>>, name: string, existing: set<string>, more: set<string>): map<string, set<string>> {
    if existing != {} && existing != more then ambiguous[name := GetSet(ambiguous, name) + existing + more] else ambiguous
  }

  lemma StepAmbiguous(seen: seq<Binding>, b: Binding, strings: map<string, set<string>>, ambiguous: map<string, set<string>>)
    requires b.strings != {} && StringsOf(strings, seen) && AmbiguousOf(ambiguous, strings, seen)
    ensures var existing := GetSet(strings, b.name);
            AmbiguousOf(Flag(ambiguous, b.name, existing, b.strings), strings[b.name := existing + b.strings], seen + [b])
  {
    FlaggedNames(seen, b, strings, ambiguous);
    FlaggedStrings(seen, b.name, strings, ambiguous, b.strings);
  }

  lemma FlaggedNames(seen: seq<Binding>, b: Binding, strings: map<string, set<string>>, ambiguous: map<string, set<string>>)
    requires b.strings != {} && StringsOf(strings, seen) && forall n :: n in ambiguous <==> Disagree(seen, n)
    ensures forall n :: n in Flag(ambiguous, b.name, GetSet(strings, b.name), b.strings) <==> Disagree(seen + [b], n)
  {
    var existing := GetSet(strings, b.name);
    forall n ensures n in Flag(ambiguous, b.name, existing, b.strings) <==> Disagree(seen + [b], n) {
      DisagreeStep(seen, b, existing, n);
    }
  }

  lemma FlaggedStrings(seen: seq<Binding>, name: string, strings: map<string, set<string>>, ambiguous: map<string, set<string>>, more: set<string>)
    requires StringsOf(strings, seen) && AmbiguousOf(ambiguous, strings, seen)
    ensures var existing := GetSet(strings, name);
            var flagged := Flag(ambiguous, name, existing, more);
            forall n :: n in flagged ==> flagged[n] == GetSet(strings[name := existing + more], n)
  {
    var existing := GetSet(strings, name);
    if name in ambiguous { DisagreementDeclares(seen, name, existing); }
    var flagged := Flag(ambiguous, name, existing, more);
    forall n | n in flagged ensures flagged[n] == GetSet(strings[name := existing + more], n) {
      assert n != name ==> n in ambiguous;
      FlaggedValue(strings, ambiguous, name, more, n);
    }
  }

  lemma FlaggedValue(strings: map<string, set<string>>, ambiguous: map<string, set<string>>, name: string, more: set<string>, n: string)
    requires n in ambiguous ==> ambiguous[n] == GetSet(strings, n) != {}
    requires n in Flag(ambiguous, name, GetSet(strings, name), more)
    ensures Flag(ambiguous, name, GetSet(strings, name), more)[n] == GetSet(strings[name := GetSet(strings, name) + more], n)
  {
    var existing := GetSet(strings, name);
    if n == name {
      assert GetSet(ambiguous, name) <= existing;
      assert GetSet(ambiguous, name) + existing == existing;
    }
  }

  lemma DisagreementDeclares(seen: seq<Binding>, name: string, existing: set<string>)
    requires Disagree(seen, name) && forall v :: v in existing <==> Declared(seen, name, v)
    ensures existing != {}
  {
    var x, y :| x in seen && y in seen && Declares(x, name) && Declares(y, name) && x.strings != y.strings;
    var v :| v in x.strings;
    assert Declared(seen, name, v);
  }

  lemma SkippedBinding(seen: seq<Binding>, b: Binding)
    requires b.strings == {}
    ensures forall n, v :: Declared(seen + [b], n, v) <==> Declared(seen, n, v)
    ensures forall n :: Disagree(seen + [b], n) <==> Disagree(seen, n)
    ensures forall n :: Sites(seen + [b], n) == Sites(seen, n)
  {
    assert (seen + [b])[..|seen|] == seen;
    forall n, v | Declared(seen, n, v) ensures Declared(seen + [b], n, v) {
      var x :| x in seen && Declares(x, n) && v in x.strings;
      assert x in seen + [b];
    }
    forall n | Disagree(seen, n) ensures Disagree(seen + [b], n) {
      var x, y :| x in seen && y in seen && Declares(x, n) && Declares(y, n) && x.strings != y.strings;
      assert x in seen + [b] && y in seen + [b];
    }
  }

  lemma DeclaredStep(seen: seq<Binding>, b: Binding, n: string, v: string)
    requires b.strings != {}
    ensures Declared(seen + [b], n, v) <==> Declared(seen, n, v) || (n == b.name && v in b.strings)
  {
    assert b in seen + [b];
    if Declared(seen, n, v) {
      var x :| x in seen && Declares(x, n) && v in x.strings;
      assert x in seen + [b];
    }
  }

  /** Comparing with the union of all earlier declarations finds a disagreement exactly when there is
      one with some earlier declaration, or there already was one among them. */
  lemma DisagreeStep(seen: seq<Binding>, b: Binding, existing: set<string>, n: string)
    requires b.strings != {} && forall v :: v in existing <==> Declared(seen, b.name, v)
    ensures Disagree(seen + [b], n) <==> Disagree(seen, n) || (n == b.name && existing != {} && existing != b.strings)
  {
    var now := seen + [b];
    if Disagree(seen, n) {
      var x, y :| x in seen && y in seen && Declares(x, n) && Declares(y, n) && x.strings != y.strings;
      assert x in now && y in now;
    } else if Disagree(now, n) {
      var x, y :| x in now && y in now && Declares(x, n) && Declares(y, n) && x.strings != y.strings;
      AgreeingDeclarations(seen, if x in seen then x else y, existing);
    }
    if n == b.name && existing != {} && existing != b.strings && !Disagree(seen, n) {
      var v :| v in existing;
      var x :| x in seen && Declares(x, n) && v in x.strings;
      AgreeingDeclarations(seen, x, existing);
      assert x in now && b in now;
    }
  }

  lemma AgreeingDeclarations(seen: seq<Binding>, x: Binding, existing: set<string>)
    requires x in seen && Declares(x, x.name) && !Disagree(seen, x.name)
    requires forall v :: v in existing <==> Declared(seen, x.name, v)
    ensures existing == x.strings
  {
    forall v ensures v in existing <==> v in x.strings {
      if v in existing {
        var y :| y in seen && Declares(y, x.name) && v in y.strings;
      }
      if v in x.strings {
        assert Declared(seen, x.name, v);
      }
    }
  }

  /** An ambiguous name is caught whatever order the files are scanned in. */
  lemma AmbiguityIgnoresOrder(bindings: seq<Binding>, other: seq<Binding>, name: string)
    requires multiset(bindings) == multiset(other)
    ensures Disagree(bindings, name) <==> Disagree(other, name)
  {
    forall b ensures b in bindings <==> b in other {
      assert b in bindings <==> b in multiset(bindings);
      assert b in other <==> b in multiset(other);
    }
  }
}

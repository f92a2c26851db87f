/** `BTreeSet<String>`, which is a `BTreeMap` without values, and the
    difference of two of them. */
module NameSets {
  import opened OrderedMap
  import opened Sequences
  import opened StringOrder

  type Names = Entries<string, ()>

  lemma StringsAreOrdered()
    ensures TotalOrder(AtMost)
  {
    AtMostIsTotalOrder();
  }

  predicate Has(names: Names, name: string) {
    Lookup(names, name).Some?
  }

  function Add(names: Names, name: string): Names {
    Upsert(AtMost, names, name, ())
  }

  function Key(): ((string, ())) -> string {
    (entry: (string, ())) => entry.0
  }

  function Lacks(names: Names): string -> bool {
    (name: string) => !Has(names, name)
  }

  /** What is in `a` and not in `b`, in ascending order: `a.difference(&b)`. */
  function Difference(a: Names, b: Names): seq<string> {
    Filter(Lacks(b), Map(Key(), a))
  }

  ghost function ToSet(names: Names): set<string> {
    set entry | entry in names :: entry.0
  }

  lemma HasIsMember(names: Names, name: string)
    ensures Has(names, name) <==> name in ToSet(names)
    ensures Has(names, name) <==> name in Map(Key(), names)
  {
    LookupMember(names, name);
    var keys := Map(Key(), names);
    if Has(names, name) {
      assert Lookup(names, name).value == ();
      assert (name, ()) in names;
      var i :| 0 <= i < |names| && names[i] == (name, ());
      assert keys[i] == name;
    }
    if name in keys {
      var i :| 0 <= i < |keys| && keys[i] == name;
      assert names[i].0 == name;
    }
  }

  lemma DifferenceIsDifference(a: Names, b: Names)
    ensures forall name :: name in Difference(a, b) <==> name in ToSet(a) && name !in ToSet(b)
  {
    FilterMembers(Lacks(b), Map(Key(), a));
    forall name ensures name in Difference(a, b) <==> name in ToSet(a) && name !in ToSet(b) {
      HasIsMember(a, name);
      HasIsMember(b, name);
    }
  }

  /** No name is listed twice, and the names come in ascending order. */
  lemma {:induction false} DifferenceAscends(a: Names, b: Names)
    requires Ascending(AtMost, a)
    ensures forall i, j | 0 <= i < j < |Difference(a, b)| :: Below(AtMost, Difference(a, b)[i], Difference(a, b)[j])
  {
    if a != [] {
      var init, l := DropLast(a), Last(a).0;
      DifferenceAscends(init, b);
      LastPutBack(a);
      MapSnoc(Key(), init, Last(a));
      FilterSnoc(Lacks(b), Map(Key(), init), l);
      forall name | name in Difference(init, b) ensures Below(AtMost, name, l) {
        DifferenceIsDifference(init, b);
        var i :| 0 <= i < |init| && init[i].0 == name;
        assert Below(AtMost, a[i].0, a[|a| - 1].0);
      }
    }
  }

  /** Taking away what went and adding what came turns one set into the other. */
  ghost function Apply(names: set<string>, removed: seq<string>, added: seq<string>): set<string> {
    (names - set x | x in removed) + set x | x in added
  }

  lemma DifferencesLeadOver(a: Names, b: Names)
    ensures Apply(ToSet(a), Difference(a, b), Difference(b, a)) == ToSet(b)
  {
    DifferenceIsDifference(a, b);
    DifferenceIsDifference(b, a);
  }

  /** Sets with the same members are the same. */
  lemma SameNames(a: Names, b: Names)
    requires Ascending(AtMost, a) && Ascending(AtMost, b)
    requires forall name :: Has(a, name) <==> Has(b, name)
    ensures a == b
  {
    StringsAreOrdered();
    forall name ensures Lookup(a, name) == Lookup(b, name) {
      assert Has(a, name) <==> Has(b, name);
      assert Has(a, name) ==> Lookup(a, name).value == Lookup(b, name).value == ();
    }
    SameEntries(AtMost, a, b);
  }
}

/** `sort_and_dedup_capabilities`. */
module CapabilityLists {
  import opened Neighbours
  import opened Ranks
  import opened Sequences
  import opened StableSort
  import opened StringOrder
  import opened VisibilityDiffs

  /** What makes two capabilities the same one. */
  datatype Identity = Identity(sessionId: string, eventId: string, capabilityType: string, capabilityName: string)

  function IdentityOf(): Capability -> Identity {
    (c: Capability) => Identity(c.sessionId, c.eventId, c.capabilityType, c.capabilityName)
  }

  function RankOf(c: Capability): Rank {
    Rank(c.observedAtMs, c.capabilityType, c.capabilityName, c.eventId)
  }

  predicate ByObservation(a: Capability, b: Capability) {
    RankAtMost(RankOf(a), RankOf(b))
  }

  lemma ObservationIsTotal()
    ensures TotalPreorder(ByObservation)
  {
    RanksAreOrdered();
  }

  function SortAndDedup(capabilities: seq<Capability>): seq<Capability> {
    Dedup(IdentityOf(), Sort(ByObservation, capabilities))
  }

  /** Every capability is kept once in some copy, and none twice exactly when
      the sort brings all copies together. */
  lemma KeptOnceExactlyWhen(capabilities: seq<Capability>)
    ensures forall c | c in SortAndDedup(capabilities) :: c in capabilities
    ensures forall id :: HasKey(IdentityOf(), id, SortAndDedup(capabilities)) <==>
                         HasKey(IdentityOf(), id, capabilities)
    ensures DistinctKeys(IdentityOf(), SortAndDedup(capabilities)) <==>
            AllSideBySide(IdentityOf(), Sort(ByObservation, capabilities))
  {
    ObservationIsTotal();
    SortKeeps(ByObservation, capabilities);
    forall id ensures HasKey(IdentityOf(), id, SortAndDedup(capabilities)) <==>
                      HasKey(IdentityOf(), id, capabilities) {
      DedupKeepsKeys(IdentityOf(), Sort(ByObservation, capabilities), id);
    }
    DedupKeepsKeys(IdentityOf(), Sort(ByObservation, capabilities), Identity("", "", "", ""));
    DedupDistinctExactlyWhen(IdentityOf(), Sort(ByObservation, capabilities));
  }

  /** An event id stands for one event: its session and its time. */
  ghost predicate EventsAreUnique(capabilities: seq<Capability>) {
    forall a, b | a in capabilities && b in capabilities && a.eventId == b.eventId ::
      a.sessionId == b.sessionId && a.observedAtMs == b.observedAtMs
  }

  lemma Between(a: Capability, b: Capability, c: Capability)
    requires ByObservation(a, b) && ByObservation(b, c)
    requires IdentityOf()(a) == IdentityOf()(c) && a.observedAtMs == c.observedAtMs
    ensures b.eventId == a.eventId && b.capabilityType == a.capabilityType && b.capabilityName == a.capabilityName
  {
    RanksAreOrdered();
    assert RankOf(a) == RankOf(c);
  }

  lemma CopiesSideBySide(s: seq<Capability>, key: Identity)
    requires Sorted(ByObservation, s) && EventsAreUnique(s)
    ensures SideBySide(IdentityOf(), key, s)
  {
    forall i, j, k | 0 <= i < j < k < |s| && IdentityOf()(s[i]) == key && IdentityOf()(s[k]) == key
      ensures IdentityOf()(s[j]) == key
    {
      assert s[i] in s && s[j] in s && s[k] in s;
      Between(s[i], s[j], s[k]);
    }
  }

  /** With unique events no capability is left twice. */
  lemma KeptOnce(capabilities: seq<Capability>)
    requires EventsAreUnique(capabilities)
    ensures DistinctKeys(IdentityOf(), SortAndDedup(capabilities))
  {
    ObservationIsTotal();
    SortKeeps(ByObservation, capabilities);
    KeptOnceExactlyWhen(capabilities);
    var s := Sort(ByObservation, capabilities);
    forall key ensures SideBySide(IdentityOf(), key, s) {
      CopiesSideBySide(s, key);
    }
  }

  // What both callers pass: the capabilities of one event.

  ghost predicate OfOneEvent(capabilities: seq<Capability>) {
    forall a, b | a in capabilities && b in capabilities ::
      a.sessionId == b.sessionId && a.eventId == b.eventId && a.observedAtMs == b.observedAtMs
  }

  lemma {:induction false} DedupStaysSorted(s: seq<Capability>)
    requires Sorted(ByObservation, s)
    ensures Sorted(ByObservation, Dedup(IdentityOf(), s))
  {
    if s != [] {
      var init, x := DropLast(s), Last(s);
      var kept := Dedup(IdentityOf(), init);
      DedupStaysSorted(init);
      DedupKeepsKeys(IdentityOf(), init, IdentityOf()(x));
      forall c | c in kept ensures ByObservation(c, x) {
        var i :| 0 <= i < |init| && init[i] == c;
        assert ByObservation(s[i], s[|s| - 1]);
      }
    }
  }

  /** What is left comes oldest first; within a moment by type, then by name, then by event. */
  lemma KeptInOrder(capabilities: seq<Capability>, i: nat, j: nat)
    requires i < j < |SortAndDedup(capabilities)|
    ensures var kept := SortAndDedup(capabilities);
            var a, b := kept[i], kept[j];
            && a.observedAtMs <= b.observedAtMs
            && (a.observedAtMs == b.observedAtMs ==>
                  && AtMost(a.capabilityType, b.capabilityType)
                  && (a.capabilityType == b.capabilityType ==>
                        && AtMost(a.capabilityName, b.capabilityName)
                        && (a.capabilityName == b.capabilityName ==> AtMost(a.eventId, b.eventId))))
  {
    var kept := SortAndDedup(capabilities);
    ObservationIsTotal();
    SortKeeps(ByObservation, capabilities);
    DedupStaysSorted(Sort(ByObservation, capabilities));
    AtMostIsTotalOrder();
    assert ByObservation(kept[i], kept[j]);
  }

  /** The capabilities of one event are left in order, each identity once and none lost. */
  lemma OneEventIsKeptOnce(capabilities: seq<Capability>)
    requires OfOneEvent(capabilities)
    ensures DistinctKeys(IdentityOf(), SortAndDedup(capabilities))
    ensures Sorted(ByObservation, SortAndDedup(capabilities))
    ensures forall c :: c in SortAndDedup(capabilities) <==> c in capabilities
  {
    KeptOnce(capabilities);
    KeptOnceExactlyWhen(capabilities);
    ObservationIsTotal();
    SortKeeps(ByObservation, capabilities);
    DedupStaysSorted(Sort(ByObservation, capabilities));
    var kept := SortAndDedup(capabilities);
    forall c | c in capabilities ensures c in kept {
      assert HasKey(IdentityOf(), IdentityOf()(c), capabilities);
      assert HasKey(IdentityOf(), IdentityOf()(c), kept);
      var k :| k in kept && IdentityOf()(k) == IdentityOf()(c);
      assert k in capabilities;
    }
  }

  lemma {:induction false} OnceAtMost(s: seq<Capability>, c: Capability)
    requires DistinctKeys(IdentityOf(), s)
    ensures multiset(s)[c] == if c in s then 1 else 0
  {
    if s != [] {
      LastPutBack(s);
      DistinctKeysSnoc(IdentityOf(), DropLast(s), Last(s));
      OnceAtMost(DropLast(s), c);
    }
  }

  /** So the list of one event depends only on which capabilities it has. */
  lemma OneEventIgnoresOrderAndRepetition(a: seq<Capability>, b: seq<Capability>)
    requires OfOneEvent(a) && forall c :: c in a <==> c in b
    ensures SortAndDedup(a) == SortAndDedup(b)
  {
    OneEventIsKeptOnce(a);
    OneEventIsKeptOnce(b);
    var x, y := SortAndDedup(a), SortAndDedup(b);
    forall c ensures multiset(x)[c] == multiset(y)[c] {
      OnceAtMost(x, c);
      OnceAtMost(y, c);
    }
    RanksAreOrdered();
    assert multiset(x) == multiset(y);
    SortedPermutationsAgree(ByObservation, x, y);
  }
}

/** The order of capabilities: time, type, name and an id, each settling what
    the ones before leave open. */
module Ranks {
  import opened StringOrder

  datatype Rank = Rank(observedAtMs: nat, capabilityType: string, capabilityName: string, id: string)

  predicate ByNameThenId(a: Rank, b: Rank) {
    if a.capabilityName == b.capabilityName then AtMost(a.id, b.id) else AtMost(a.capabilityName, b.capabilityName)
  }

  predicate ByTypeThenName(a: Rank, b: Rank) {
    if a.capabilityType == b.capabilityType then ByNameThenId(a, b) else AtMost(a.capabilityType, b.capabilityType)
  }

  predicate RankAtMost(a: Rank, b: Rank) {
    a.observedAtMs < b.observedAtMs || (a.observedAtMs == b.observedAtMs && ByTypeThenName(a, b))
  }

  lemma RanksAreOrdered()
    ensures forall a, b :: RankAtMost(a, b) || RankAtMost(b, a)
    ensures forall a, b :: RankAtMost(a, b) && RankAtMost(b, a) ==> a == b
    ensures forall a, b, c :: RankAtMost(a, b) && RankAtMost(b, c) ==> RankAtMost(a, c)
  {
    AtMostIsTotalOrder();
    assert forall a, b :: ByNameThenId(a, b) || ByNameThenId(b, a);
    assert forall a, b, c :: ByNameThenId(a, b) && ByNameThenId(b, c) ==> ByNameThenId(a, c);
    assert forall a, b :: ByTypeThenName(a, b) || ByTypeThenName(b, a);
    assert forall a, b, c :: ByTypeThenName(a, b) && ByTypeThenName(b, c) ==> ByTypeThenName(a, c);
  }
}

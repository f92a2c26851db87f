/** Visibility diffs of `prismtrace-analysis`: snapshots of visible names per
    session, and what changed from each to the next. */
module VisibilityDiffs {
  import opened NameSets
  import opened OrderedMap
  import opened Sequences
  import opened StableSort
  import opened StringOrder
  import opened Wrappers

  datatype Capability = Capability(
    sessionId: string,
    eventId: string,
    observedAtMs: nat,
    capabilityType: string,
    capabilityName: string)

  /** The grouping key, in the order of its fields. */
  datatype SnapshotKey = SnapshotKey(sessionId: string, observedAtMs: nat, eventId: string)

  datatype Snapshot = Snapshot(sessionId: string, eventId: string, observedAtMs: nat, names: Names)

  datatype RenameCandidate = RenameCandidate(from: string, to: string)

  datatype Diff = Diff(
    sessionId: string,
    fromEventId: string,
    toEventId: string,
    capabilityType: string,
    added: seq<string>,
    hidden: seq<string>,
    removed: seq<string>,
    renameCandidates: seq<RenameCandidate>)

  predicate KeyOrder(a: SnapshotKey, b: SnapshotKey) {
    if a.sessionId != b.sessionId then AtMost(a.sessionId, b.sessionId)
    else if a.observedAtMs != b.observedAtMs then a.observedAtMs < b.observedAtMs
    else AtMost(a.eventId, b.eventId)
  }

  predicate ByTime(a: Snapshot, b: Snapshot) {
    if a.observedAtMs != b.observedAtMs then a.observedAtMs < b.observedAtMs else AtMost(a.eventId, b.eventId)
  }

  lemma KeysAreOrdered()
    ensures TotalOrder(KeyOrder) && TotalPreorder(ByTime)
  {
    AtMostIsTotalOrder();
  }

  function KeyOf(c: Capability): SnapshotKey {
    SnapshotKey(c.sessionId, c.observedAtMs, c.eventId)
  }

  // The two maps.

  function NamesAt(grouped: Entries<SnapshotKey, Names>, key: SnapshotKey): Names {
    match Lookup(grouped, key) case None => [] case Some(names) => names
  }

  function Grouped(capabilities: seq<Capability>, types: seq<string>): Entries<SnapshotKey, Names> {
    if capabilities == [] then []
    else
      var before, c := Grouped(DropLast(capabilities), types), Last(capabilities);
      if c.capabilityType in types
      then Upsert(KeyOrder, before, KeyOf(c), Add(NamesAt(before, KeyOf(c)), c.capabilityName))
      else before
  }

  function SnapshotOf(entry: (SnapshotKey, Names)): Snapshot {
    Snapshot(entry.0.sessionId, entry.0.eventId, entry.0.observedAtMs, entry.1)
  }

  function Snapshots(sessions: Entries<string, seq<Snapshot>>, sessionId: string): seq<Snapshot> {
    match Lookup(sessions, sessionId) case None => [] case Some(snapshots) => snapshots
  }

  function BySession(grouped: Entries<SnapshotKey, Names>): Entries<string, seq<Snapshot>> {
    if grouped == [] then []
    else
      var before, s := BySession(DropLast(grouped)), SnapshotOf(Last(grouped));
      Upsert(AtMost, before, s.sessionId, Snapshots(before, s.sessionId) + [s])
  }

  // The diffs.

  function SnapshotDiff(from: Snapshot, to: Snapshot, diffType: string): Diff {
    var added, removed := Difference(to.names, from.names), Difference(from.names, to.names);
    Diff(from.sessionId, from.eventId, to.eventId, diffType, added, removed, removed,
         if |added| == 1 && |removed| == 1 then [RenameCandidate(removed[0], added[0])] else [])
  }

  function DiffTo(diffType: string): (Snapshot, Snapshot) -> Diff {
    (from: Snapshot, to: Snapshot) => SnapshotDiff(from, to, diffType)
  }

  function Adjacent(snapshots: seq<Snapshot>, diffType: string): seq<Diff> {
    Pairwise(DiffTo(diffType), snapshots)
  }

  function SessionDiffs(diffType: string): ((string, seq<Snapshot>)) -> seq<Diff> {
    (entry: (string, seq<Snapshot>)) => Adjacent(Sort(ByTime, entry.1), diffType)
  }

  function DiffsForTypes(capabilities: seq<Capability>, types: seq<string>, diffType: string): seq<Diff> {
    FlatMap(SessionDiffs(diffType), BySession(Grouped(capabilities, types)))
  }

  /** The loop over `windows(2)`. */
  method PushAdjacent(snapshots: seq<Snapshot>, diffType: string, before: seq<Diff>) returns (diffs: seq<Diff>)
    ensures diffs == before + Adjacent(snapshots, diffType)
  {
    diffs := before;
    if snapshots != [] {
      assert Adjacent(snapshots[..1], diffType) == [];
      for i := 1 to |snapshots|
        invariant diffs == before + Adjacent(snapshots[..i], diffType)
      {
        assert DropLast(snapshots[..i + 1]) == snapshots[..i];
        diffs := diffs + [SnapshotDiff(snapshots[i - 1], snapshots[i], diffType)];
      }
      assert snapshots[..|snapshots|] == snapshots;
    }
  }

  method VisibilityDiffsForTypes(capabilities: seq<Capability>, types: seq<string>, diffType: string)
    returns (diffs: seq<Diff>)
    ensures diffs == DiffsForTypes(capabilities, types, diffType)
  {
    var grouped: Entries<SnapshotKey, Names> := [];
    for i := 0 to |capabilities|
      invariant grouped == Grouped(capabilities[..i], types)
    {
      var c := capabilities[i];
      assert DropLast(capabilities[..i + 1]) == capabilities[..i];
      if c.capabilityType !in types {
        continue;
      }
      grouped := Upsert(KeyOrder, grouped, KeyOf(c), Add(NamesAt(grouped, KeyOf(c)), c.capabilityName));
    }
    assert capabilities[..|capabilities|] == capabilities;

    var sessions: Entries<string, seq<Snapshot>> := [];
    for i := 0 to |grouped|
      invariant sessions == BySession(grouped[..i])
    {
      var s := SnapshotOf(grouped[i]);
      assert DropLast(grouped[..i + 1]) == grouped[..i];
      sessions := Upsert(AtMost, sessions, s.sessionId, Snapshots(sessions, s.sessionId) + [s]);
    }
    assert grouped[..|grouped|] == grouped;

    diffs := [];
    for i := 0 to |sessions|
      invariant diffs == FlatMap(SessionDiffs(diffType), sessions[..i])
    {
      diffs := PushAdjacent(Sort(ByTime, sessions[i].1), diffType, diffs);
      assert DropLast(sessions[..i + 1]) == sessions[..i];
    }
    assert sessions[..|sessions|] == sessions;
  }

  // What the snapshots hold.

  ghost predicate Seen(capabilities: seq<Capability>, types: seq<string>, key: SnapshotKey, name: string) {
    exists c :: c in capabilities && c.capabilityType in types && KeyOf(c) == key && c.capabilityName == name
  }

  lemma SeenOneMore(capabilities: seq<Capability>, types: seq<string>, key: SnapshotKey, name: string)
    requires capabilities != []
    ensures var c := Last(capabilities);
            Seen(capabilities, types, key, name) <==>
            Seen(DropLast(capabilities), types, key, name) ||
            (c.capabilityType in types && KeyOf(c) == key && c.capabilityName == name)
  {
    LastPutBack(capabilities);
    assert Last(capabilities) in capabilities;
    if Seen(DropLast(capabilities), types, key, name) {
      var c :| c in DropLast(capabilities) && c.capabilityType in types && KeyOf(c) == key && c.capabilityName == name;
      assert c in capabilities;
    }
  }

  /** A group holds exactly the names seen under its key, and there is a group only where something was seen. */
  lemma {:induction false} GroupHolds(capabilities: seq<Capability>, types: seq<string>, key: SnapshotKey, name: string)
    ensures Ascending(KeyOrder, Grouped(capabilities, types))
    ensures Ascending(AtMost, NamesAt(Grouped(capabilities, types), key))
    ensures Has(NamesAt(Grouped(capabilities, types), key), name) <==> Seen(capabilities, types, key, name)
  {
    if capabilities != [] {
      var before, c := Grouped(DropLast(capabilities), types), Last(capabilities);
      GroupHolds(DropLast(capabilities), types, key, name);
      SeenOneMore(capabilities, types, key, name);
      if c.capabilityType in types {
        GroupHolds(DropLast(capabilities), types, KeyOf(c), name);
        KeysAreOrdered();
        StringsAreOrdered();
        var names := NamesAt(before, KeyOf(c));
        UpsertAscending(KeyOrder, before, KeyOf(c), Add(names, c.capabilityName));
        UpsertLookup(KeyOrder, before, KeyOf(c), Add(names, c.capabilityName), key);
        UpsertAscending(AtMost, names, c.capabilityName, ());
        UpsertLookup(AtMost, names, c.capabilityName, (), name);
      }
    }
  }

  lemma {:induction false} GroupsAreNotEmpty(capabilities: seq<Capability>, types: seq<string>, key: SnapshotKey)
    ensures Lookup(Grouped(capabilities, types), key).Some? <==> exists name :: Seen(capabilities, types, key, name)
  {
    if capabilities != [] {
      var before, c := Grouped(DropLast(capabilities), types), Last(capabilities);
      GroupsAreNotEmpty(DropLast(capabilities), types, key);
      forall name ensures Seen(capabilities, types, key, name) <==>
                          Seen(DropLast(capabilities), types, key, name) ||
                          (c.capabilityType in types && KeyOf(c) == key && c.capabilityName == name) {
        SeenOneMore(capabilities, types, key, name);
      }
      assert Seen(capabilities, types, KeyOf(c), c.capabilityName) <== c.capabilityType in types;
      if c.capabilityType in types {
        KeysAreOrdered();
        GroupHolds(DropLast(capabilities), types, key, "");
        UpsertLookup(KeyOrder, before, KeyOf(c), Add(NamesAt(before, KeyOf(c)), c.capabilityName), key);
      }
    }
  }

  lemma SameGroup(a: seq<Capability>, b: seq<Capability>, types: seq<string>, key: SnapshotKey)
    requires forall c :: c in a <==> c in b
    ensures Lookup(Grouped(a, types), key) == Lookup(Grouped(b, types), key)
  {
    forall name ensures Seen(a, types, key, name) <==> Seen(b, types, key, name) {
    }
    GroupsAreNotEmpty(a, types, key);
    GroupsAreNotEmpty(b, types, key);
    forall name ensures Has(NamesAt(Grouped(a, types), key), name) <==> Has(NamesAt(Grouped(b, types), key), name) {
      GroupHolds(a, types, key, name);
      GroupHolds(b, types, key, name);
    }
    GroupHolds(a, types, key, "");
    GroupHolds(b, types, key, "");
    SameNames(NamesAt(Grouped(a, types), key), NamesAt(Grouped(b, types), key));
  }

  /** Order and repetition of the capabilities do not matter. */
  lemma DiffsIgnoreOrderAndRepetition(a: seq<Capability>, b: seq<Capability>, types: seq<string>, diffType: string)
    requires forall c :: c in a <==> c in b
    ensures DiffsForTypes(a, types, diffType) == DiffsForTypes(b, types, diffType)
  {
    KeysAreOrdered();
    GroupHolds(a, types, SnapshotKey("", 0, ""), "");
    GroupHolds(b, types, SnapshotKey("", 0, ""), "");
    forall key ensures Lookup(Grouped(a, types), key) == Lookup(Grouped(b, types), key) {
      SameGroup(a, b, types, key);
    }
    SameEntries(KeyOrder, Grouped(a, types), Grouped(b, types));
  }

  // The snapshots of one session.

  function OfSession(sessionId: string): ((SnapshotKey, Names)) -> bool {
    (entry: (SnapshotKey, Names)) => entry.0.sessionId == sessionId
  }

  /** One snapshot for each group of the session, in time order. */
  function SessionSnapshots(grouped: Entries<SnapshotKey, Names>, sessionId: string): seq<Snapshot> {
    Map(SnapshotOf, Filter(OfSession(sessionId), grouped))
  }

  lemma {:induction false} BySessionAscends(grouped: Entries<SnapshotKey, Names>)
    ensures Ascending(AtMost, BySession(grouped))
  {
    if grouped != [] {
      var before, s := BySession(DropLast(grouped)), SnapshotOf(Last(grouped));
      BySessionAscends(DropLast(grouped));
      StringsAreOrdered();
      UpsertAscending(AtMost, before, s.sessionId, Snapshots(before, s.sessionId) + [s]);
    }
  }

  lemma SessionSnapshotsSnoc(grouped: Entries<SnapshotKey, Names>, entry: (SnapshotKey, Names), sessionId: string)
    ensures SessionSnapshots(grouped + [entry], sessionId) ==
            if entry.0.sessionId == sessionId then SessionSnapshots(grouped, sessionId) + [SnapshotOf(entry)]
            else SessionSnapshots(grouped, sessionId)
  {
    FilterSnoc(OfSession(sessionId), grouped, entry);
    MapSnoc(SnapshotOf, Filter(OfSession(sessionId), grouped), entry);
  }

  lemma {:induction false} BySessionIsFilter(grouped: Entries<SnapshotKey, Names>, sessionId: string)
    ensures Snapshots(BySession(grouped), sessionId) == SessionSnapshots(grouped, sessionId)
  {
    if grouped != [] {
      var before, s := BySession(DropLast(grouped)), SnapshotOf(Last(grouped));
      BySessionIsFilter(DropLast(grouped), sessionId);
      BySessionAscends(DropLast(grouped));
      StringsAreOrdered();
      UpsertLookup(AtMost, before, s.sessionId, Snapshots(before, s.sessionId) + [s], sessionId);
      SessionSnapshotsSnoc(DropLast(grouped), Last(grouped), sessionId);
      LastPutBack(grouped);
    }
  }

  lemma SnapshotsNameSession(grouped: Entries<SnapshotKey, Names>, sessionId: string)
    ensures forall s | s in SessionSnapshots(grouped, sessionId) :: s.sessionId == sessionId
  {
    var kept := Filter(OfSession(sessionId), grouped);
    FilterMembers(OfSession(sessionId), grouped);
    var snapshots := Map(SnapshotOf, kept);
    forall s | s in snapshots ensures s.sessionId == sessionId {
      var i :| 0 <= i < |snapshots| && snapshots[i] == s;
      assert kept[i] in kept && s == SnapshotOf(kept[i]);
    }
  }

  lemma SnapshotTakenFrom(grouped: Entries<SnapshotKey, Names>, sessionId: string, s: Snapshot)
    returns (entry: (SnapshotKey, Names))
    requires s in SessionSnapshots(grouped, sessionId)
    ensures entry in grouped && SnapshotOf(entry) == s
  {
    var kept := Filter(OfSession(sessionId), grouped);
    FilterMembers(OfSession(sessionId), grouped);
    var snapshots := Map(SnapshotOf, kept);
    var i :| 0 <= i < |snapshots| && snapshots[i] == s;
    entry := kept[i];
    assert entry in kept;
  }

  lemma EarlierSnapshot(grouped: Entries<SnapshotKey, Names>, s: Snapshot)
    requires Ascending(KeyOrder, grouped) && grouped != []
    requires s in SessionSnapshots(DropLast(grouped), Last(grouped).0.sessionId)
    ensures ByTime(s, SnapshotOf(Last(grouped)))
  {
    var init, sessionId := DropLast(grouped), Last(grouped).0.sessionId;
    var earlier := SnapshotTakenFrom(init, sessionId, s);
    SnapshotsNameSession(init, sessionId);
    var j :| 0 <= j < |init| && init[j] == earlier;
    assert Below(KeyOrder, grouped[j].0, grouped[|grouped| - 1].0);
  }

  lemma SortedSnoc<T(!new)>(le: (T, T) -> bool, s: seq<T>, x: T)
    requires Sorted(le, s)
    ensures (forall y | y in s :: le(y, x)) ==> Sorted(le, s + [x])
  {
  }

  lemma {:induction false} SessionSnapshotsAscend(grouped: Entries<SnapshotKey, Names>, sessionId: string)
    requires Ascending(KeyOrder, grouped)
    ensures Sorted(ByTime, SessionSnapshots(grouped, sessionId))
  {
    if grouped != [] {
      var init, entry := DropLast(grouped), Last(grouped);
      SessionSnapshotsAscend(init, sessionId);
      SessionSnapshotsSnoc(init, entry, sessionId);
      LastPutBack(grouped);
      if entry.0.sessionId == sessionId {
        forall s | s in SessionSnapshots(init, sessionId) ensures ByTime(s, SnapshotOf(entry)) {
          EarlierSnapshot(grouped, s);
        }
        SortedSnoc(ByTime, SessionSnapshots(init, sessionId), SnapshotOf(entry));
      }
    }
  }

  function DiffIn(sessionId: string): Diff -> bool {
    (d: Diff) => d.sessionId == sessionId
  }

  lemma AdjacentStayIn(snapshots: seq<Snapshot>, diffType: string, sessionId: string)
    requires forall s | s in snapshots :: s.sessionId == sessionId
    ensures forall d | d in Adjacent(snapshots, diffType) :: d.sessionId == sessionId
  {
    var diffs := Adjacent(snapshots, diffType);
    forall d | d in diffs ensures d.sessionId == sessionId {
      var i :| 0 <= i < |diffs| && diffs[i] == d;
      PairwiseLength(DiffTo(diffType), snapshots);
      PairwiseAt(DiffTo(diffType), snapshots, i);
      assert snapshots[i] in snapshots;
    }
  }

  ghost predicate KeptApart(sessions: Entries<string, seq<Snapshot>>) {
    forall entry, s | entry in sessions && s in entry.1 :: s.sessionId == entry.0
  }

  lemma DiffsOfEntry(entry: (string, seq<Snapshot>), diffType: string, sessionId: string)
    requires forall s | s in entry.1 :: s.sessionId == entry.0
    ensures Filter(DiffIn(sessionId), SessionDiffs(diffType)(entry)) ==
            if entry.0 == sessionId then Adjacent(Sort(ByTime, entry.1), diffType) else []
  {
    KeysAreOrdered();
    SortKeeps(ByTime, entry.1);
    AdjacentStayIn(Sort(ByTime, entry.1), diffType, entry.0);
    if entry.0 == sessionId {
      FilterAll(DiffIn(sessionId), SessionDiffs(diffType)(entry));
    } else {
      FilterNone(DiffIn(sessionId), SessionDiffs(diffType)(entry));
    }
  }

  lemma {:induction false} DiffsOfOneSession(sessions: Entries<string, seq<Snapshot>>, diffType: string,
                                             sessionId: string)
    requires Ascending(AtMost, sessions) && KeptApart(sessions)
    ensures Filter(DiffIn(sessionId), FlatMap(SessionDiffs(diffType), sessions)) ==
            Adjacent(Sort(ByTime, Snapshots(sessions, sessionId)), diffType)
  {
    if sessions != [] {
      var init, l := DropLast(sessions), Last(sessions);
      assert forall entry | entry in init :: entry in sessions;
      DiffsOfOneSession(init, diffType, sessionId);
      FilterAppend(DiffIn(sessionId), FlatMap(SessionDiffs(diffType), init), SessionDiffs(diffType)(l));
      assert l in sessions;
      DiffsOfEntry(l, diffType, sessionId);
      TopOnlyOnce(AtMost, sessions);
      assert Sort(ByTime, []) == [] && Adjacent([], diffType) == [];
    }
  }

  lemma {:induction false} BySessionKeptApart(grouped: Entries<SnapshotKey, Names>)
    ensures KeptApart(BySession(grouped))
  {
    forall entry, s | entry in BySession(grouped) && s in entry.1 ensures s.sessionId == entry.0 {
      BySessionIsFilter(grouped, entry.0);
      BySessionAscends(grouped);
      EntryIsLookup(AtMost, BySession(grouped), entry);
      SnapshotsNameSession(grouped, entry.0);
    }
  }

  // Replay.

  /** What a list of diffs makes of a set of names. */
  ghost function Replay(names: set<string>, diffs: seq<Diff>): set<string> {
    if diffs == [] then names
    else Apply(Replay(names, DropLast(diffs)), Last(diffs).removed, Last(diffs).added)
  }

  lemma {:induction false} AdjacentReplay(snapshots: seq<Snapshot>, diffType: string, k: nat)
    requires k < |snapshots|
    ensures |Adjacent(snapshots, diffType)| == |snapshots| - 1
    ensures Replay(ToSet(snapshots[0].names), Adjacent(snapshots, diffType)[..k]) == ToSet(snapshots[k].names)
  {
    PairwiseLength(DiffTo(diffType), snapshots);
    if k > 0 {
      var diffs := Adjacent(snapshots, diffType);
      AdjacentReplay(snapshots, diffType, k - 1);
      PairwiseAt(DiffTo(diffType), snapshots, k - 1);
      assert DropLast(diffs[..k]) == diffs[..k - 1];
      DifferencesLeadOver(snapshots[k - 1].names, snapshots[k].names);
    }
  }

  /** The snapshots of a session, oldest first. */
  function SnapshotsIn(capabilities: seq<Capability>, types: seq<string>, sessionId: string): seq<Snapshot> {
    SessionSnapshots(Grouped(capabilities, types), sessionId)
  }

  lemma DiffsAreAdjacent(capabilities: seq<Capability>, types: seq<string>, diffType: string, sessionId: string)
    ensures Filter(DiffIn(sessionId), DiffsForTypes(capabilities, types, diffType)) ==
            Adjacent(SnapshotsIn(capabilities, types, sessionId), diffType)
    ensures Sorted(ByTime, SnapshotsIn(capabilities, types, sessionId))
  {
    var grouped := Grouped(capabilities, types);
    GroupHolds(capabilities, types, SnapshotKey("", 0, ""), "");
    BySessionIsFilter(grouped, sessionId);
    BySessionAscends(grouped);
    BySessionKeptApart(grouped);
    DiffsOfOneSession(BySession(grouped), diffType, sessionId);
    SessionSnapshotsAscend(grouped, sessionId);
    SortOfSorted(ByTime, SessionSnapshots(grouped, sessionId));
  }

  /** The diffs of a session are one fewer than its snapshots, lead from each to
      the next, and replayed from the first give every later one. */
  lemma SessionDiffsReplay(capabilities: seq<Capability>, types: seq<string>, diffType: string, sessionId: string,
                           k: nat)
    requires k < |SnapshotsIn(capabilities, types, sessionId)|
    ensures var snapshots := SnapshotsIn(capabilities, types, sessionId);
            var diffs := Filter(DiffIn(sessionId), DiffsForTypes(capabilities, types, diffType));
            && Sorted(ByTime, snapshots)
            && |diffs| == |snapshots| - 1
            && (k > 0 ==> diffs[k - 1] == SnapshotDiff(snapshots[k - 1], snapshots[k], diffType))
            && Replay(ToSet(snapshots[0].names), diffs[..k]) == ToSet(snapshots[k].names)
  {
    var snapshots := SnapshotsIn(capabilities, types, sessionId);
    DiffsAreAdjacent(capabilities, types, diffType, sessionId);
    AdjacentReplay(snapshots, diffType, k);
    if k > 0 {
      PairwiseAt(DiffTo(diffType), snapshots, k - 1);
    }
  }

  /** The snapshots of a session ascend in time, those of one moment in event id. */
  lemma SnapshotsAscend(capabilities: seq<Capability>, types: seq<string>, sessionId: string)
    ensures var snapshots := SnapshotsIn(capabilities, types, sessionId);
            forall i, j | 0 <= i < j < |snapshots| ::
              && snapshots[i].observedAtMs <= snapshots[j].observedAtMs
              && (snapshots[i].observedAtMs == snapshots[j].observedAtMs ==>
                    AtMost(snapshots[i].eventId, snapshots[j].eventId))
  {
    var snapshots := SnapshotsIn(capabilities, types, sessionId);
    DiffsAreAdjacent(capabilities, types, "", sessionId);
    forall i, j | 0 <= i < j < |snapshots|
      ensures snapshots[i].observedAtMs <= snapshots[j].observedAtMs
      ensures snapshots[i].observedAtMs == snapshots[j].observedAtMs ==>
                AtMost(snapshots[i].eventId, snapshots[j].eventId)
    {
      assert ByTime(snapshots[i], snapshots[j]);
    }
  }

  /** Every diff given leads from one snapshot of its session to the next, which is not earlier. */
  lemma DiffsLeadForward(capabilities: seq<Capability>, types: seq<string>, diffType: string, d: Diff)
    returns (k: nat)
    requires d in DiffsForTypes(capabilities, types, diffType)
    ensures var snapshots := SnapshotsIn(capabilities, types, d.sessionId);
            && k + 1 < |snapshots| && d == SnapshotDiff(snapshots[k], snapshots[k + 1], diffType)
            && snapshots[k].observedAtMs <= snapshots[k + 1].observedAtMs
  {
    var snapshots := SnapshotsIn(capabilities, types, d.sessionId);
    DiffsAreAdjacent(capabilities, types, diffType, d.sessionId);
    SnapshotsAscend(capabilities, types, d.sessionId);
    FilterMembers(DiffIn(d.sessionId), DiffsForTypes(capabilities, types, diffType));
    PairwiseLength(DiffTo(diffType), snapshots);
    k :| 0 <= k < |Adjacent(snapshots, diffType)| && Adjacent(snapshots, diffType)[k] == d;
    PairwiseAt(DiffTo(diffType), snapshots, k);
  }

  ghost predicate BySessionId(diffs: seq<Diff>) {
    forall i, j | 0 <= i < j < |diffs| :: AtMost(diffs[i].sessionId, diffs[j].sessionId)
  }

  lemma DiffsOfEntryNameIt(entry: (string, seq<Snapshot>), diffType: string)
    requires forall s | s in entry.1 :: s.sessionId == entry.0
    ensures forall d | d in SessionDiffs(diffType)(entry) :: d.sessionId == entry.0
  {
    KeysAreOrdered();
    SortKeeps(ByTime, entry.1);
    AdjacentStayIn(Sort(ByTime, entry.1), diffType, entry.0);
  }

  lemma {:induction false} NamedWithin(sessions: Entries<string, seq<Snapshot>>, diffType: string, d: Diff)
    returns (i: nat)
    requires KeptApart(sessions) && d in FlatMap(SessionDiffs(diffType), sessions)
    ensures i < |sessions| && sessions[i].0 == d.sessionId
  {
    var init, l := DropLast(sessions), Last(sessions);
    if d in SessionDiffs(diffType)(l) {
      assert l in sessions;
      DiffsOfEntryNameIt(l, diffType);
      i := |sessions| - 1;
    } else {
      assert forall entry | entry in init :: entry in sessions;
      i := NamedWithin(init, diffType, d);
    }
  }

  lemma {:induction false} FlatMapBySession(sessions: Entries<string, seq<Snapshot>>, diffType: string)
    requires Ascending(AtMost, sessions) && KeptApart(sessions)
    ensures BySessionId(FlatMap(SessionDiffs(diffType), sessions))
  {
    if sessions != [] {
      var init, l := DropLast(sessions), Last(sessions);
      LastPutBack(sessions);
      assert forall entry | entry in init :: entry in sessions;
      FlatMapBySession(init, diffType);
      var before, own := FlatMap(SessionDiffs(diffType), init), SessionDiffs(diffType)(l);
      assert l in sessions;
      StringsAreOrdered();
      DiffsOfEntryNameIt(l, diffType);
      forall d | d in before ensures AtMost(d.sessionId, l.0) {
        var i := NamedWithin(init, diffType, d);
        assert Below(AtMost, sessions[i].0, sessions[|sessions| - 1].0);
      }
      assert AtMost(l.0, l.0);
      var all := before + own;
      forall i, j | 0 <= i < j < |all| ensures AtMost(all[i].sessionId, all[j].sessionId) {
        assert i < |before| ==> all[i] in before;
        assert i >= |before| ==> all[i] in own;
        assert j >= |before| ==> all[j] in own;
      }
    }
  }

  /** The sessions follow one another by name. */
  lemma DiffsAscendBySession(capabilities: seq<Capability>, types: seq<string>, diffType: string)
    ensures BySessionId(DiffsForTypes(capabilities, types, diffType))
  {
    var grouped := Grouped(capabilities, types);
    BySessionAscends(grouped);
    BySessionKeptApart(grouped);
    FlatMapBySession(BySession(grouped), diffType);
  }

  lemma SnapshotTaken(grouped: Entries<SnapshotKey, Names>, entry: (SnapshotKey, Names))
    requires entry in grouped
    ensures SnapshotOf(entry) in SessionSnapshots(grouped, entry.0.sessionId)
  {
    var kept := Filter(OfSession(entry.0.sessionId), grouped);
    FilterMembers(OfSession(entry.0.sessionId), grouped);
    var i :| 0 <= i < |kept| && kept[i] == entry;
    assert Map(SnapshotOf, kept)[i] == SnapshotOf(entry);
  }

  predicate IsAt(s: Snapshot, key: SnapshotKey) {
    s.sessionId == key.sessionId && s.observedAtMs == key.observedAtMs && s.eventId == key.eventId
  }

  /** There is one snapshot for each moment something was seen, with exactly the names seen then. */
  lemma SnapshotsHoldWhatWasSeen(capabilities: seq<Capability>, types: seq<string>, key: SnapshotKey)
    ensures (exists s :: s in SnapshotsIn(capabilities, types, key.sessionId) && IsAt(s, key)) <==>
            exists name :: Seen(capabilities, types, key, name)
    ensures forall s, name | s in SnapshotsIn(capabilities, types, key.sessionId) && IsAt(s, key) ::
              name in ToSet(s.names) <==> Seen(capabilities, types, key, name)
  {
    var grouped := Grouped(capabilities, types);
    GroupHolds(capabilities, types, key, "");
    GroupsAreNotEmpty(capabilities, types, key);
    var snapshots := SnapshotsIn(capabilities, types, key.sessionId);
    if Lookup(grouped, key).Some? {
      LookupMember(grouped, key);
      SnapshotTaken(grouped, (key, NamesAt(grouped, key)));
    }
    forall s | s in snapshots && IsAt(s, key)
      ensures Lookup(grouped, key) == Some(s.names)
    {
      var entry := SnapshotTakenFrom(grouped, key.sessionId, s);
      EntryIsLookup(KeyOrder, grouped, entry);
    }
    forall s, name | s in snapshots && IsAt(s, key)
      ensures name in ToSet(s.names) <==> Seen(capabilities, types, key, name)
    {
      GroupHolds(capabilities, types, key, name);
      HasIsMember(s.names, name);
    }
  }

  /** A diff reports what came and what went, and suggests a rename exactly when one name did each. */
  lemma DiffSaysWhatChanged(from: Snapshot, to: Snapshot, diffType: string, name: string)
    ensures var d := SnapshotDiff(from, to, diffType);
            && d.sessionId == from.sessionId && d.fromEventId == from.eventId && d.toEventId == to.eventId
            && d.capabilityType == diffType && d.hidden == d.removed
            && (name in d.added <==> Has(to.names, name) && !Has(from.names, name))
            && (name in d.removed <==> Has(from.names, name) && !Has(to.names, name))
            && (d.renameCandidates != [] <==> |d.added| == 1 && |d.removed| == 1)
            && (forall r | r in d.renameCandidates :: d.removed == [r.from] && d.added == [r.to])
  {
    DifferenceIsDifference(from.names, to.names);
    DifferenceIsDifference(to.names, from.names);
    HasIsMember(from.names, name);
    HasIsMember(to.names, name);
  }
}

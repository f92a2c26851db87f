/** The observability index of `prismtrace-index`: three lists under
    replacement of one source at a time, and their files. */
module ProjectionIndex {
  import opened Ranks
  import opened Sequences
  import opened StableSort
  import opened StringOrder
  import opened Wrappers

  datatype SourceKey = SourceKey(path: string, kind: string)

  datatype ArtifactRef = ArtifactRef(path: string, lineIndex: Option<nat>)

  datatype SessionEntry = SessionEntry(
    sessionId: string,
    sourceKind: string,
    updatedAtMs: nat,
    artifact: ArtifactRef)

  datatype EventEntry = EventEntry(
    eventId: string,
    sessionId: string,
    sourceKind: string,
    occurredAtMs: nat,
    artifact: ArtifactRef)

  datatype CapabilityEntry = CapabilityEntry(
    capabilityId: string,
    sessionId: string,
    eventId: string,
    sourceKind: string,
    capabilityType: string,
    capabilityName: string,
    visibilityStage: string,
    observedAtMs: nat,
    artifact: ArtifactRef)

  function SessionSource(e: SessionEntry): SourceKey {
    SourceKey(e.artifact.path, e.sourceKind)
  }

  function EventSource(e: EventEntry): SourceKey {
    SourceKey(e.artifact.path, e.sourceKind)
  }

  function CapabilitySource(e: CapabilityEntry): SourceKey {
    SourceKey(e.artifact.path, e.sourceKind)
  }

  predicate ByUpdate(a: SessionEntry, b: SessionEntry) {
    a.updatedAtMs > b.updatedAtMs || (a.updatedAtMs == b.updatedAtMs && AtMost(a.sessionId, b.sessionId))
  }

  function RankOf(e: CapabilityEntry): Rank {
    Rank(e.observedAtMs, e.capabilityType, e.capabilityName, e.capabilityId)
  }

  predicate ByObservation(a: CapabilityEntry, b: CapabilityEntry) {
    RankAtMost(RankOf(a), RankOf(b))
  }

  lemma OrdersAreTotal()
    ensures TotalPreorder(ByUpdate) && TotalPreorder(ByObservation)
  {
    AtMostIsTotalOrder();
    RanksAreOrdered();
  }

  // One list of entries.

  /** Pushing the entries one by one, sorting after each. */
  function InsertAll<T>(le: (T, T) -> bool, xs: seq<T>, added: seq<T>): seq<T> {
    if added == [] then xs else Sort(le, InsertAll(le, xs, DropLast(added)) + [Last(added)])
  }

  function Elsewhere<T>(sourceOf: T -> SourceKey, source: SourceKey): T -> bool {
    x => sourceOf(x) != source
  }

  function FromAny<T>(sourceOf: T -> SourceKey, sources: seq<SourceKey>): T -> bool {
    x => sourceOf(x) in sources
  }

  lemma InsertOne<T>(le: (T, T) -> bool, xs: seq<T>, x: T)
    ensures InsertAll(le, xs, [x]) == Sort(le, xs + [x])
  {
    assert DropLast([x]) == [];
    assert InsertAll(le, xs, []) == xs;
  }

  lemma {:induction false} InsertAllSorts<T(!new)>(le: (T, T) -> bool, xs: seq<T>, added: seq<T>)
    requires TotalPreorder(le) && Sorted(le, xs)
    ensures InsertAll(le, xs, added) == Sort(le, xs + added)
  {
    if added == [] {
      SortOfSorted(le, xs);
      assert xs + added == xs;
    } else {
      var init, l := DropLast(added), Last(added);
      InsertAllSorts(le, xs, init);
      SortAppendSorted(le, xs + init, [l]);
      assert (xs + init) + [l] == xs + added;
    }
  }

  /** Dropping entries before or after an insertion. */
  lemma InsertAllFilter<T(!new)>(le: (T, T) -> bool, p: T -> bool, xs: seq<T>, added: seq<T>)
    requires TotalPreorder(le) && Sorted(le, xs)
    ensures Filter(p, InsertAll(le, xs, added)) == InsertAll(le, Filter(p, xs), Filter(p, added))
  {
    InsertAllSorts(le, xs, added);
    SortFilter(le, p, xs + added);
    FilterAppend(p, xs, added);
    FilterKeepsSorted(le, p, xs);
    InsertAllSorts(le, Filter(p, xs), Filter(p, added));
  }

  // The index.

  datatype Index = Index(sessions: seq<SessionEntry>, events: seq<EventEntry>, capabilities: seq<CapabilityEntry>)

  /** What one source contributes. */
  datatype Projection = Projection(
    source: SourceKey,
    sessions: seq<SessionEntry>,
    events: seq<EventEntry>,
    capabilities: seq<CapabilityEntry>)

  const EMPTY := Index([], [], [])

  /** Replaces what its source contributed before. */
  function Replace(ix: Index, p: Projection): Index {
    Index(
      InsertAll(ByUpdate, Filter(Elsewhere(SessionSource, p.source), ix.sessions), p.sessions),
      Filter(Elsewhere(EventSource, p.source), ix.events) + p.events,
      InsertAll(ByObservation, Filter(Elsewhere(CapabilitySource, p.source), ix.capabilities), p.capabilities))
  }

  function Retain(ix: Index, sources: seq<SourceKey>): Index {
    Index(Filter(FromAny(SessionSource, sources), ix.sessions),
          Filter(FromAny(EventSource, sources), ix.events),
          Filter(FromAny(CapabilitySource, sources), ix.capabilities))
  }

  datatype Operation = Replacing(projection: Projection) | Retaining(sources: seq<SourceKey>)

  function Run(ops: seq<Operation>): Index {
    if ops == [] then EMPTY
    else match Last(ops)
      case Replacing(p) => Replace(Run(DropLast(ops)), p)
      case Retaining(sources) => Retain(Run(DropLast(ops)), sources)
  }

  /** Every entry names the source that contributes it. */
  ghost predicate Keyed(p: Projection) {
    && (forall e | e in p.sessions :: SessionSource(e) == p.source)
    && (forall e | e in p.events :: EventSource(e) == p.source)
    && (forall e | e in p.capabilities :: CapabilitySource(e) == p.source)
  }

  ghost predicate AllKeyed(ops: seq<Operation>) {
    forall op | op in ops && op.Replacing? :: Keyed(op.projection)
  }

  ghost predicate InOrder(ix: Index) {
    Sorted(ByUpdate, ix.sessions) && Sorted(ByObservation, ix.capabilities)
  }

  // What survives.

  function NotFrom(source: SourceKey): Projection -> bool {
    (p: Projection) => p.source != source
  }

  function OneOf(sources: seq<SourceKey>): Projection -> bool {
    (p: Projection) => p.source in sources
  }

  /** Each surviving source's last projection, the longest standing first. */
  function Surviving(ops: seq<Operation>): seq<Projection> {
    if ops == [] then []
    else match Last(ops)
      case Replacing(p) => Filter(NotFrom(p.source), Surviving(DropLast(ops))) + [p]
      case Retaining(sources) => Filter(OneOf(sources), Surviving(DropLast(ops)))
  }

  predicate LeavesAlone(op: Operation, source: SourceKey) {
    match op
    case Replacing(q) => q.source != source
    case Retaining(sources) => source in sources
  }

  /** The projection was put in place by step `i` and nothing removed it since. */
  ghost predicate StandsSince(ops: seq<Operation>, p: Projection, i: int) {
    && 0 <= i < |ops| && ops[i] == Replacing(p)
    && forall j | i < j < |ops| :: LeavesAlone(ops[j], p.source)
  }

  lemma StandsOneStepMore(ops: seq<Operation>, p: Projection)
    requires ops != []
    ensures (exists i :: StandsSince(ops, p, i)) <==>
            Last(ops) == Replacing(p) ||
            (LeavesAlone(Last(ops), p.source) && exists i :: StandsSince(DropLast(ops), p, i))
  {
    if i :| StandsSince(ops, p, i) {
      assert i < |ops| - 1 ==> StandsSince(DropLast(ops), p, i) && LeavesAlone(ops[|ops| - 1], p.source);
    }
    if Last(ops) == Replacing(p) {
      assert StandsSince(ops, p, |ops| - 1);
    }
    if i :| StandsSince(DropLast(ops), p, i) && LeavesAlone(Last(ops), p.source) {
      assert StandsSince(ops, p, i);
    }
  }

  /** A projection survives exactly when no later step replaced or dropped its source. */
  lemma {:induction false} SurvivesExactlyWhen(ops: seq<Operation>, p: Projection)
    ensures p in Surviving(ops) <==> exists i :: StandsSince(ops, p, i)
  {
    if ops != [] {
      SurvivesExactlyWhen(DropLast(ops), p);
      StandsOneStepMore(ops, p);
      match Last(ops)
      case Replacing(q) => FilterMembers(NotFrom(q.source), Surviving(DropLast(ops)));
      case Retaining(sources) => FilterMembers(OneOf(sources), Surviving(DropLast(ops)));
    }
  }

  /** No source survives twice. */
  lemma SurvivesOnce(ops: seq<Operation>, p: Projection, q: Projection)
    requires p in Surviving(ops) && q in Surviving(ops) && p.source == q.source
    ensures p == q
  {
    SurvivesExactlyWhen(ops, p);
    SurvivesExactlyWhen(ops, q);
    var i :| StandsSince(ops, p, i);
    var j :| StandsSince(ops, q, j);
    assert i < j ==> ops[j] == Replacing(q) && LeavesAlone(ops[j], p.source);
    assert j < i ==> ops[i] == Replacing(p) && LeavesAlone(ops[i], q.source);
  }

  // Incremental maintenance is a rebuild.

  function Sessions(): Projection -> seq<SessionEntry> {
    (p: Projection) => p.sessions
  }

  function Events(): Projection -> seq<EventEntry> {
    (p: Projection) => p.events
  }

  function Capabilities(): Projection -> seq<CapabilityEntry> {
    (p: Projection) => p.capabilities
  }

  /** An index built from scratch: all entries put together, each list sorted once. */
  function Rebuild(ps: seq<Projection>): Index {
    Index(Sort(ByUpdate, FlatMap(Sessions(), ps)), FlatMap(Events(), ps),
          Sort(ByObservation, FlatMap(Capabilities(), ps)))
  }

  ghost predicate ListKeyed<T(!new)>(sourceOf: T -> SourceKey, get: Projection -> seq<T>, ps: seq<Projection>) {
    forall p, x | p in ps && x in get(p) :: sourceOf(x) == p.source
  }

  lemma {:induction false} FilterFlatMap<T(!new)>(p: T -> bool, q: Projection -> bool, get: Projection -> seq<T>,
                                                  ps: seq<Projection>)
    requires forall r, x | r in ps && x in get(r) :: p(x) == q(r)
    ensures Filter(p, FlatMap(get, ps)) == FlatMap(get, Filter(q, ps))
  {
    if ps != [] {
      var init, l := DropLast(ps), Last(ps);
      FilterFlatMap(p, q, get, init);
      FilterAppend(p, FlatMap(get, init), get(l));
      if q(l) {
        FilterAll(p, get(l));
        FlatMapSnoc(get, Filter(q, init), l);
      } else {
        FilterNone(p, get(l));
      }
    }
  }

  lemma ReplaceInList<T(!new)>(le: (T, T) -> bool, sourceOf: T -> SourceKey, get: Projection -> seq<T>,
                               ps: seq<Projection>, p: Projection)
    requires TotalPreorder(le) && ListKeyed(sourceOf, get, ps)
    ensures InsertAll(le, Filter(Elsewhere(sourceOf, p.source), Sort(le, FlatMap(get, ps))), get(p)) ==
            Sort(le, FlatMap(get, Filter(NotFrom(p.source), ps) + [p]))
  {
    var all, away := FlatMap(get, ps), Elsewhere(sourceOf, p.source);
    SortFilter(le, away, all);
    SortKeeps(le, Filter(away, all));
    InsertAllSorts(le, Sort(le, Filter(away, all)), get(p));
    SortAppendSorted(le, Filter(away, all), get(p));
    FilterFlatMap(away, NotFrom(p.source), get, ps);
    FlatMapSnoc(get, Filter(NotFrom(p.source), ps), p);
  }

  lemma RetainInList<T(!new)>(le: (T, T) -> bool, sourceOf: T -> SourceKey, get: Projection -> seq<T>,
                              ps: seq<Projection>, sources: seq<SourceKey>)
    requires TotalPreorder(le) && ListKeyed(sourceOf, get, ps)
    ensures Filter(FromAny(sourceOf, sources), Sort(le, FlatMap(get, ps))) ==
            Sort(le, FlatMap(get, Filter(OneOf(sources), ps)))
  {
    SortFilter(le, FromAny(sourceOf, sources), FlatMap(get, ps));
    FilterFlatMap(FromAny(sourceOf, sources), OneOf(sources), get, ps);
  }

  lemma {:induction false} SurvivorsAreKeyed(ops: seq<Operation>)
    requires AllKeyed(ops)
    ensures forall p | p in Surviving(ops) :: Keyed(p)
  {
    forall p | p in Surviving(ops) ensures Keyed(p) {
      SurvivesExactlyWhen(ops, p);
      var i :| StandsSince(ops, p, i);
      assert ops[i] in ops;
    }
  }

  /** After any run the index is the one rebuilt from the surviving projections. */
  lemma {:induction false} RunIsRebuild(ops: seq<Operation>)
    requires AllKeyed(ops)
    ensures Run(ops) == Rebuild(Surviving(ops))
  {
    if ops != [] {
      var init := DropLast(ops);
      assert forall op | op in init :: op in ops;
      RunIsRebuild(init);
      SurvivorsAreKeyed(init);
      OrdersAreTotal();
      var ps := Surviving(init);
      match Last(ops)
      case Replacing(p) =>
        ReplaceInList(ByUpdate, SessionSource, Sessions(), ps, p);
        ReplaceInList(ByObservation, CapabilitySource, Capabilities(), ps, p);
        FilterFlatMap(Elsewhere(EventSource, p.source), NotFrom(p.source), Events(), ps);
        FlatMapSnoc(Events(), Filter(NotFrom(p.source), ps), p);
      case Retaining(sources) =>
        RetainInList(ByUpdate, SessionSource, Sessions(), ps, sources);
        RetainInList(ByObservation, CapabilitySource, Capabilities(), ps, sources);
        FilterFlatMap(FromAny(EventSource, sources), OneOf(sources), Events(), ps);
    }
  }

  lemma ReplaceInOrder<T(!new)>(le: (T, T) -> bool, sourceOf: T -> SourceKey, xs: seq<T>, source: SourceKey,
                                added: seq<T>)
    requires TotalPreorder(le) && Sorted(le, xs)
    ensures Sorted(le, InsertAll(le, Filter(Elsewhere(sourceOf, source), xs), added))
  {
    FilterKeepsSorted(le, Elsewhere(sourceOf, source), xs);
    InsertAllSorts(le, Filter(Elsewhere(sourceOf, source), xs), added);
    SortKeeps(le, Filter(Elsewhere(sourceOf, source), xs) + added);
  }

  /** Every index a run reaches has both sorted lists in order. */
  lemma {:induction false} RunInOrder(ops: seq<Operation>)
    ensures InOrder(Run(ops))
  {
    OrdersAreTotal();
    if ops != [] {
      var before := Run(DropLast(ops));
      RunInOrder(DropLast(ops));
      match Last(ops)
      case Replacing(p) =>
        ReplaceInOrder(ByUpdate, SessionSource, before.sessions, p.source, p.sessions);
        ReplaceInOrder(ByObservation, CapabilitySource, before.capabilities, p.source, p.capabilities);
      case Retaining(sources) =>
        FilterKeepsSorted(ByUpdate, FromAny(SessionSource, sources), before.sessions);
        FilterKeepsSorted(ByObservation, FromAny(CapabilitySource, sources), before.capabilities);
    }
  }

  /** Not after it in time; within a moment not after it by type, then by name, then by id. */
  predicate NotAfter(a: CapabilityEntry, b: CapabilityEntry) {
    && a.observedAtMs <= b.observedAtMs
    && (a.observedAtMs == b.observedAtMs ==>
          && AtMost(a.capabilityType, b.capabilityType)
          && (a.capabilityType == b.capabilityType ==>
                && AtMost(a.capabilityName, b.capabilityName)
                && (a.capabilityName == b.capabilityName ==> AtMost(a.capabilityId, b.capabilityId))))
  }

  /** After any run the sessions stand newest first, ties by id, the capabilities oldest first. */
  lemma RunListsInOrder(ops: seq<Operation>, i: nat, j: nat)
    requires i < j
    ensures var sessions := Run(ops).sessions;
            j < |sessions| ==>
              && sessions[i].updatedAtMs >= sessions[j].updatedAtMs
              && (sessions[i].updatedAtMs == sessions[j].updatedAtMs ==>
                    AtMost(sessions[i].sessionId, sessions[j].sessionId))
    ensures j < |Run(ops).capabilities| ==> NotAfter(Run(ops).capabilities[i], Run(ops).capabilities[j])
  {
    var ix := Run(ops);
    RunInOrder(ops);
    AtMostIsTotalOrder();
    assert j < |ix.sessions| ==> ByUpdate(ix.sessions[i], ix.sessions[j]);
    assert j < |ix.capabilities| ==> ByObservation(ix.capabilities[i], ix.capabilities[j]);
  }

  // Replacing and retaining, taken together.

  lemma FiltersCommute<T(!new)>(p: T -> bool, q: T -> bool, s: seq<T>)
    ensures Filter(p, Filter(q, s)) == Filter(q, Filter(p, s))
  {
    FilterFilter(p, q, s);
    FilterFilter(q, p, s);
    FilterSame(Both(p, q), Both(q, p), s);
  }

  lemma RetainAfterReplaceInList<T(!new)>(le: (T, T) -> bool, sourceOf: T -> SourceKey, xs: seq<T>,
                                          source: SourceKey, added: seq<T>, sources: seq<SourceKey>)
    requires TotalPreorder(le) && Sorted(le, xs)
    requires forall x | x in added :: sourceOf(x) == source
    ensures Filter(FromAny(sourceOf, sources), InsertAll(le, Filter(Elsewhere(sourceOf, source), xs), added)) ==
            if source in sources
            then InsertAll(le, Filter(Elsewhere(sourceOf, source), Filter(FromAny(sourceOf, sources), xs)), added)
            else Filter(FromAny(sourceOf, sources), xs)
  {
    var kept, away := FromAny(sourceOf, sources), Elsewhere(sourceOf, source);
    FilterKeepsSorted(le, away, xs);
    InsertAllFilter(le, kept, Filter(away, xs), added);
    if source in sources {
      FilterAll(kept, added);
      FiltersCommute(kept, away, xs);
    } else {
      FilterNone(kept, added);
      FilterFilter(kept, away, xs);
      FilterSame(Both(kept, away), kept, xs);
    }
  }

  lemma RetainAfterReplaceInEvents(xs: seq<EventEntry>, p: Projection, sources: seq<SourceKey>)
    requires Keyed(p)
    ensures Filter(FromAny(EventSource, sources), Filter(Elsewhere(EventSource, p.source), xs) + p.events) ==
            if p.source in sources
            then Filter(Elsewhere(EventSource, p.source), Filter(FromAny(EventSource, sources), xs)) + p.events
            else Filter(FromAny(EventSource, sources), xs)
  {
    var kept, away := FromAny(EventSource, sources), Elsewhere(EventSource, p.source);
    FilterAppend(kept, Filter(away, xs), p.events);
    if p.source in sources {
      FilterAll(kept, p.events);
      FiltersCommute(kept, away, xs);
    } else {
      FilterNone(kept, p.events);
      FilterFilter(kept, away, xs);
      FilterSame(Both(kept, away), kept, xs);
    }
  }

  /** Retaining commutes with replacing a source it keeps, and undoes replacing one it drops. */
  lemma RetainAfterReplace(ix: Index, p: Projection, sources: seq<SourceKey>)
    requires InOrder(ix) && Keyed(p)
    ensures p.source in sources ==> Retain(Replace(ix, p), sources) == Replace(Retain(ix, sources), p)
    ensures p.source !in sources ==> Retain(Replace(ix, p), sources) == Retain(ix, sources)
  {
    OrdersAreTotal();
    RetainAfterReplaceInList(ByUpdate, SessionSource, ix.sessions, p.source, p.sessions, sources);
    RetainAfterReplaceInList(ByObservation, CapabilitySource, ix.capabilities, p.source, p.capabilities, sources);
    RetainAfterReplaceInEvents(ix.events, p, sources);
  }

  lemma InsertAllLength<T(!new)>(le: (T, T) -> bool, xs: seq<T>, added: seq<T>)
    requires TotalPreorder(le) && Sorted(le, xs)
    ensures |InsertAll(le, xs, added)| == |xs| + |added|
  {
    InsertAllSorts(le, xs, added);
    SortKeeps(le, xs + added);
  }

  /** What is left of the entries of `p` when its source is replaced: those that name another. */
  lemma LeftBehindInList<T(!new)>(le: (T, T) -> bool, sourceOf: T -> SourceKey, xs: seq<T>, source: SourceKey,
                                  added: seq<T>)
    requires TotalPreorder(le) && Sorted(le, xs)
    ensures var away := Elsewhere(sourceOf, source);
            && Sorted(le, Filter(away, xs))
            && Filter(away, InsertAll(le, Filter(away, xs), added)) ==
               InsertAll(le, Filter(away, xs), Filter(away, added))
            && (Filter(away, added) == [] <==> forall x | x in added :: sourceOf(x) == source)
  {
    var away := Elsewhere(sourceOf, source);
    FilterKeepsSorted(le, away, xs);
    InsertAllFilter(le, away, Filter(away, xs), added);
    FilterFilter(away, away, xs);
    FilterSame(Both(away, away), away, xs);
    FilterMembers(away, added);
    var stray := Filter(away, added);
    assert stray != [] ==> stray[0] in stray;
  }

  lemma ReplacedTwiceInList<T(!new)>(le: (T, T) -> bool, sourceOf: T -> SourceKey, xs: seq<T>, source: SourceKey,
                                     added: seq<T>, again: seq<T>)
    requires TotalPreorder(le) && Sorted(le, xs)
    ensures var away := Elsewhere(sourceOf, source);
            InsertAll(le, Filter(away, InsertAll(le, Filter(away, xs), added)), again) ==
            InsertAll(le, Filter(away, xs), again) <==>
            forall x | x in added :: sourceOf(x) == source
  {
    var away := Elsewhere(sourceOf, source);
    LeftBehindInList(le, sourceOf, xs, source, added);
    var kept := InsertAll(le, Filter(away, xs), Filter(away, added));
    InsertAllSorts(le, Filter(away, xs), Filter(away, added));
    SortKeeps(le, Filter(away, xs) + Filter(away, added));
    InsertAllLength(le, Filter(away, xs), Filter(away, added));
    InsertAllLength(le, kept, again);
    InsertAllLength(le, Filter(away, xs), again);
  }

  lemma ReplacedTwiceInEvents(xs: seq<EventEntry>, source: SourceKey, added: seq<EventEntry>, again: seq<EventEntry>)
    ensures var away := Elsewhere(EventSource, source);
            Filter(away, Filter(away, xs) + added) + again == Filter(away, xs) + again <==>
            forall e | e in added :: EventSource(e) == source
  {
    var away := Elsewhere(EventSource, source);
    FilterAppend(away, Filter(away, xs), added);
    FilterFilter(away, away, xs);
    FilterSame(Both(away, away), away, xs);
    FilterMembers(away, added);
    var stray := Filter(away, added);
    assert stray != [] ==> stray[0] in stray;
    assert stray == [] ==> Filter(away, xs) + stray == Filter(away, xs);
  }

  /** A later projection of a source leaves nothing of an earlier one exactly
      when all entries of the earlier one name their source. */
  lemma ReplacedExactlyWhenKeyed(ix: Index, p: Projection, q: Projection)
    requires InOrder(ix) && p.source == q.source
    ensures Replace(Replace(ix, p), q) == Replace(ix, q) <==> Keyed(p)
  {
    OrdersAreTotal();
    ReplacedTwiceInList(ByUpdate, SessionSource, ix.sessions, p.source, p.sessions, q.sessions);
    ReplacedTwiceInList(ByObservation, CapabilitySource, ix.capabilities, p.source, p.capabilities, q.capabilities);
    ReplacedTwiceInEvents(ix.events, p.source, p.events, q.events);
  }

  // Lookups.

  function FindEvent(events: seq<EventEntry>, eventId: string): Option<EventEntry> {
    if events == [] then None else if events[0].eventId == eventId then Some(events[0])
    else FindEvent(events[1..], eventId)
  }

  /** `iter().find(..)`. */
  function EventDetail(ix: Index, eventId: string): Option<EventEntry> {
    FindEvent(ix.events, eventId)
  }

  function SessionSummaries(ix: Index, limit: nat): seq<SessionEntry> {
    Take(limit, ix.sessions)
  }

  function InSession(sessionId: string): CapabilityEntry -> bool {
    (c: CapabilityEntry) => c.sessionId == sessionId
  }

  function SessionCapabilities(ix: Index, sessionId: string): seq<CapabilityEntry> {
    Filter(InSession(sessionId), ix.capabilities)
  }

  /** No id names two different entries. */
  ghost predicate UniqueIds(ps: seq<Projection>) {
    && (forall a, b | a in FlatMap(Sessions(), ps) && b in FlatMap(Sessions(), ps) && a.sessionId == b.sessionId ::
          a == b)
    && (forall a, b | a in FlatMap(Events(), ps) && b in FlatMap(Events(), ps) && a.eventId == b.eventId :: a == b)
    && (forall a, b | a in FlatMap(Capabilities(), ps) && b in FlatMap(Capabilities(), ps)
                      && a.capabilityId == b.capabilityId :: a == b)
  }

  /** No session left out of the summaries was updated after one that is listed. */
  lemma SummariesAreNewest(ops: seq<Operation>, limit: nat, listed: SessionEntry, left: SessionEntry)
    requires listed in SessionSummaries(Run(ops), limit)
    requires left in Run(ops).sessions && left !in SessionSummaries(Run(ops), limit)
    ensures listed.updatedAtMs >= left.updatedAtMs && |SessionSummaries(Run(ops), limit)| == limit
  {
    RunInOrder(ops);
    var sessions, shown := Run(ops).sessions, SessionSummaries(Run(ops), limit);
    var i :| 0 <= i < |shown| && shown[i] == listed;
    var j :| 0 <= j < |sessions| && sessions[j] == left;
    assert forall m | 0 <= m < |shown| :: shown[m] == sessions[m] && shown[m] in shown;
    assert ByUpdate(sessions[i], sessions[j]);
  }

  lemma {:induction false} FindEventMember(events: seq<EventEntry>, eventId: string)
    ensures FindEvent(events, eventId).Some? ==>
              FindEvent(events, eventId).value in events && FindEvent(events, eventId).value.eventId == eventId
    ensures FindEvent(events, eventId).None? <==> forall e | e in events :: e.eventId != eventId
  {
    if events != [] && events[0].eventId != eventId {
      FindEventMember(events[1..], eventId);
      assert events == [events[0]] + events[1..];
    }
  }

  /** The event found is the first in the list with this id; none is found only when none has it. */
  lemma {:induction false} EventDetailIsFirst(ix: Index, eventId: string)
    ensures EventDetail(ix, eventId).None? <==> forall e | e in ix.events :: e.eventId != eventId
    ensures EventDetail(ix, eventId).Some? ==>
              exists i :: 0 <= i < |ix.events| && ix.events[i] == EventDetail(ix, eventId).value &&
                          ix.events[i].eventId == eventId &&
                          forall j | 0 <= j < i :: ix.events[j].eventId != eventId
    decreases |ix.events|
  {
    if ix.events != [] && ix.events[0].eventId != eventId {
      var rest := ix.(events := ix.events[1..]);
      EventDetailIsFirst(rest, eventId);
      assert ix.events == [ix.events[0]] + rest.events;
      if EventDetail(rest, eventId).Some? {
        var i :| 0 <= i < |rest.events| && rest.events[i] == EventDetail(rest, eventId).value &&
          rest.events[i].eventId == eventId && forall j | 0 <= j < i :: rest.events[j].eventId != eventId;
        assert ix.events[i + 1] == rest.events[i];
      }
    }
  }

  /** A session's capabilities are those of the index that name it, each as
      often as it is there, in the order of the index. */
  lemma CapabilitiesOfExactlyWhen(ix: Index, sessionId: string, c: CapabilityEntry)
    ensures multiset(SessionCapabilities(ix, sessionId))[c] ==
            if c.sessionId == sessionId then multiset(ix.capabilities)[c] else 0
    ensures Subsequence(SessionCapabilities(ix, sessionId), ix.capabilities)
  {
    FilterMultiset(InSession(sessionId), ix.capabilities, c);
    FilterIsSubsequence(InSession(sessionId), ix.capabilities);
  }

  lemma ListIgnoresSourceOrder<T(!new)>(le: (T, T) -> bool, get: Projection -> seq<T>, a: seq<Projection>,
                                        b: seq<Projection>)
    requires TotalPreorder(le) && multiset(a) == multiset(b) && TiesAreEqual(le, FlatMap(get, a))
    ensures Sort(le, FlatMap(get, a)) == Sort(le, FlatMap(get, b))
  {
    FlatMapIgnoresOrder(get, a, b);
    SortIgnoresOrder(le, FlatMap(get, a), FlatMap(get, b));
  }

  lemma FindEventIgnoresOrder(a: seq<EventEntry>, b: seq<EventEntry>, id: string)
    requires multiset(a) == multiset(b)
    requires forall d, e | d in a && e in a && d.eventId == e.eventId :: d == e
    ensures FindEvent(a, id) == FindEvent(b, id)
  {
    SameMembersOfEqualMultisets(a, b);
    FindEventMember(a, id);
    FindEventMember(b, id);
  }

  /** With unique ids every lookup agrees with an index built from the surviving sources in any order. */
  lemma LookupsIgnoreSourceOrder(ops: seq<Operation>, ps: seq<Projection>, id: string, limit: nat)
    requires AllKeyed(ops) && multiset(ps) == multiset(Surviving(ops)) && UniqueIds(ps)
    ensures EventDetail(Run(ops), id) == EventDetail(Rebuild(ps), id)
    ensures SessionSummaries(Run(ops), limit) == SessionSummaries(Rebuild(ps), limit)
    ensures SessionCapabilities(Run(ops), id) == SessionCapabilities(Rebuild(ps), id)
  {
    RunIsRebuild(ops);
    var survivors := Surviving(ops);
    ListIgnoresSourceOrder(ByUpdate, Sessions(), ps, survivors) by {
      OrdersAreTotal();
      AtMostIsTotalOrder();
    }
    ListIgnoresSourceOrder(ByObservation, Capabilities(), ps, survivors) by {
      OrdersAreTotal();
      RanksAreOrdered();
    }
    FlatMapIgnoresOrder(Events(), ps, survivors);
    FindEventIgnoresOrder(FlatMap(Events(), ps), FlatMap(Events(), survivors), id);
  }

  /** A session that names source `b` but came with source `a` outlives the projection of `a`. */
  lemma StrayEntryStays(a: SourceKey, b: SourceKey)
    requires a != b
    ensures var stray := SessionEntry("s", b.kind, 0, ArtifactRef(b.path, None));
            var first, then' := Projection(a, [stray], [], []), Projection(a, [], [], []);
            Run([Replacing(first), Replacing(then')]).sessions == [stray]
  {
    var stray := SessionEntry("s", b.kind, 0, ArtifactRef(b.path, None));
    var first, then' := Projection(a, [stray], [], []), Projection(a, [], [], []);
    var ops := [Replacing(first), Replacing(then')];
    assert DropLast(ops) == [Replacing(first)] && DropLast([Replacing(first)]) == [];
    InsertOne(ByUpdate, [], stray);
    SortOfSorted(ByUpdate, [stray]);
    assert [] + [stray] == [stray];
    assert Run([Replacing(first)]).sessions == [stray];
    assert SessionSource(stray) == b;
    FilterAll(Elsewhere(SessionSource, a), [stray]);
  }
}

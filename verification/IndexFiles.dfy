/** The index as an object, and its three files. */
module IndexFiles {
  import opened Bytes
  import opened JsonLines
  import opened ProjectionIndex
  import opened Sequences
  import opened StableSort
  import opened Wrappers

  datatype Codecs = Codecs(
    session: Codec<SessionEntry>,
    event: Codec<EventEntry>,
    capability: Codec<CapabilityEntry>)

  /** The three files; `None` is a missing one. */
  datatype Files = Files(sessions: Option<seq<byte>>, events: Option<seq<byte>>, capabilities: Option<seq<byte>>)

  ghost predicate FaithfulCodecs(codecs: Codecs) {
    Faithful(codecs.session) && Faithful(codecs.event) && Faithful(codecs.capability)
  }

  /** The files after a save, and whether it went through; it stops at the first list it cannot write. */
  function Save(codecs: Codecs, ix: Index, files: Files): (bool, Files) {
    var sessions, events, capabilities :=
      TextOf(codecs.session, ix.sessions), TextOf(codecs.event, ix.events),
      TextOf(codecs.capability, ix.capabilities);
    if sessions.None? then (false, files)
    else if events.None? then (false, files.(sessions := sessions))
    else if capabilities.None? then (false, files.(sessions := sessions, events := events))
    else (true, Files(sessions, events, capabilities))
  }

  function Load(codecs: Codecs, files: Files): Option<Index> {
    var sessions, events, capabilities :=
      ItemsOf(codecs.session, files.sessions), ItemsOf(codecs.event, files.events),
      ItemsOf(codecs.capability, files.capabilities);
    if sessions.None? || events.None? || capabilities.None? then None
    else Some(Index(InsertAll(ByUpdate, [], sessions.value), events.value,
                    InsertAll(ByObservation, [], capabilities.value)))
  }

  lemma ReinsertSorted<T(!new)>(le: (T, T) -> bool, xs: seq<T>)
    requires TotalPreorder(le) && Sorted(le, xs)
    ensures InsertAll(le, [], xs) == xs
  {
    InsertAllSorts(le, [], xs);
    assert [] + xs == xs;
    SortOfSorted(le, xs);
  }

  /** Loading after saving gives back the very index, ties in their order. */
  lemma LoadAfterSave(codecs: Codecs, ops: seq<Operation>, files: Files)
    requires FaithfulCodecs(codecs) && Save(codecs, Run(ops), files).0
    ensures Load(codecs, Save(codecs, Run(ops), files).1) == Some(Run(ops))
  {
    var ix := Run(ops);
    RunInOrder(ops);
    OrdersAreTotal();
    ReadBack(codecs.session, ix.sessions);
    ReadBack(codecs.event, ix.events);
    ReadBack(codecs.capability, ix.capabilities);
    ReinsertSorted(ByUpdate, ix.sessions);
    ReinsertSorted(ByObservation, ix.capabilities);
  }

  /** `source_keys.iter().any(..)`. */
  method NamesAny(source: SourceKey, sources: seq<SourceKey>) returns (found: bool)
    ensures found <==> source in sources
  {
    for i := 0 to |sources|
      invariant source !in sources[..i]
    {
      if sources[i] == source {
        return true;
      }
    }
    found := false;
  }

  /** `retain` over one list. */
  method RetainFrom<T(!new)>(sourceOf: T -> SourceKey, sources: seq<SourceKey>, xs: seq<T>) returns (kept: seq<T>)
    ensures KeepsExactly(FromAny(sourceOf, sources), xs, kept)
    ensures kept == Filter(FromAny(sourceOf, sources), xs)
  {
    kept := [];
    for i := 0 to |xs|
      invariant kept == Filter(FromAny(sourceOf, sources), xs[..i])
    {
      assert DropLast(xs[..i + 1]) == xs[..i];
      var found := NamesAny(sourceOf(xs[i]), sources);
      if found {
        kept := kept + [xs[i]];
      }
    }
    assert xs[..|xs|] == xs;
    FilterKeepsExactly(FromAny(sourceOf, sources), xs, kept);
  }

  /** Pushing and sorting gives the stably sorted list, and no other list is one. */
  lemma PushedAndSorted<T(!new)>(le: (T, T) -> bool, xs: seq<T>, x: T, sorted: seq<T>)
    requires TotalPreorder(le)
    ensures sorted == InsertAll(le, xs, [x]) <==> StablySorted(le, xs + [x], sorted)
    ensures sorted == Sort(le, xs + [x]) <==> StablySorted(le, xs + [x], sorted)
    ensures StablySorted(le, xs + [x], sorted) ==> multiset(sorted) == multiset(xs) + multiset{x}
  {
    InsertOne(le, xs, x);
    SortIsTheStableOrder(le, xs + [x], sorted);
    SortKeeps(le, xs + [x]);
  }

  lemma InsertOneMore<T>(le: (T, T) -> bool, xs: seq<T>, added: seq<T>, i: nat)
    requires i < |added|
    ensures InsertAll(le, xs, added[..i + 1]) == InsertAll(le, InsertAll(le, xs, added[..i]), [added[i]])
  {
    assert DropLast(added[..i + 1]) == added[..i];
    InsertOne(le, InsertAll(le, xs, added[..i]), added[i]);
  }

  class ObservabilityIndex {
    var sessions: seq<SessionEntry>
    var events: seq<EventEntry>
    var capabilities: seq<CapabilityEntry>

    function Value(): Index
      reads this
    {
      Index(sessions, events, capabilities)
    }

    constructor ()
      ensures Value() == EMPTY
    {
      sessions, events, capabilities := [], [], [];
    }

    method InsertSession(entry: SessionEntry)
      modifies this`sessions
      ensures StablySorted(ByUpdate, old(sessions) + [entry], sessions)
      ensures multiset(sessions) == multiset(old(sessions)) + multiset{entry}
    {
      OrdersAreTotal();
      sessions := Sort(ByUpdate, sessions + [entry]);
      PushedAndSorted(ByUpdate, old(sessions), entry, sessions);
    }

    method InsertEvent(entry: EventEntry)
      modifies this`events
      ensures events == old(events) + [entry]
    {
      events := events + [entry];
    }

    method InsertCapability(entry: CapabilityEntry)
      modifies this`capabilities
      ensures StablySorted(ByObservation, old(capabilities) + [entry], capabilities)
      ensures multiset(capabilities) == multiset(old(capabilities)) + multiset{entry}
    {
      OrdersAreTotal();
      capabilities := Sort(ByObservation, capabilities + [entry]);
      PushedAndSorted(ByObservation, old(capabilities), entry, capabilities);
    }

    method InsertSessions(added: seq<SessionEntry>)
      modifies this`sessions
      ensures sessions == InsertAll(ByUpdate, old(sessions), added)
    {
      OrdersAreTotal();
      for i := 0 to |added|
        invariant sessions == InsertAll(ByUpdate, old(sessions), added[..i])
      {
        ghost var before := sessions;
        InsertSession(added[i]);
        PushedAndSorted(ByUpdate, before, added[i], sessions);
        InsertOneMore(ByUpdate, old(sessions), added, i);
      }
      assert added[..|added|] == added;
    }

    method InsertEvents(added: seq<EventEntry>)
      modifies this`events
      ensures events == old(events) + added
    {
      for i := 0 to |added|
        invariant events == old(events) + added[..i]
      {
        InsertEvent(added[i]);
      }
      assert added[..|added|] == added;
    }

    method InsertCapabilities(added: seq<CapabilityEntry>)
      modifies this`capabilities
      ensures capabilities == InsertAll(ByObservation, old(capabilities), added)
    {
      OrdersAreTotal();
      for i := 0 to |added|
        invariant capabilities == InsertAll(ByObservation, old(capabilities), added[..i])
      {
        ghost var before := capabilities;
        InsertCapability(added[i]);
        PushedAndSorted(ByObservation, before, added[i], capabilities);
        InsertOneMore(ByObservation, old(capabilities), added, i);
      }
      assert added[..|added|] == added;
    }

    method ReplaceSourceProjection(p: Projection)
      modifies this
      ensures Value() == Replace(old(Value()), p)
    {
      sessions := Filter(Elsewhere(SessionSource, p.source), sessions);
      events := Filter(Elsewhere(EventSource, p.source), events);
      capabilities := Filter(Elsewhere(CapabilitySource, p.source), capabilities);
      InsertSessions(p.sessions);
      InsertEvents(p.events);
      InsertCapabilities(p.capabilities);
    }

    method RetainSourceProjections(sources: seq<SourceKey>)
      modifies this
      ensures Value() == Retain(old(Value()), sources)
      ensures KeepsExactly(FromAny(SessionSource, sources), old(sessions), sessions)
      ensures KeepsExactly(FromAny(EventSource, sources), old(events), events)
      ensures KeepsExactly(FromAny(CapabilitySource, sources), old(capabilities), capabilities)
    {
      sessions := RetainFrom(SessionSource, sources, sessions);
      events := RetainFrom(EventSource, sources, events);
      capabilities := RetainFrom(CapabilitySource, sources, capabilities);
    }

    method SaveJsonl(codecs: Codecs, files: Files) returns (r: Result<(), JsonError>, written: Files)
      ensures (r.Ok?, written) == Save(codecs, Value(), files)
    {
      written := files;
      var text := WriteJsonl(codecs.session, sessions);
      if text.Err? {
        return Err(text.error), written;
      }
      written := written.(sessions := Some(text.value));
      text := WriteJsonl(codecs.event, events);
      if text.Err? {
        return Err(text.error), written;
      }
      written := written.(events := Some(text.value));
      text := WriteJsonl(codecs.capability, capabilities);
      if text.Err? {
        return Err(text.error), written;
      }
      written := written.(capabilities := Some(text.value));
      r := Ok(());
    }

    static method LoadJsonl(codecs: Codecs, files: Files) returns (r: Result<ObservabilityIndex, JsonError>)
      ensures r.Ok? <==> Load(codecs, files).Some?
      ensures r.Ok? ==> fresh(r.value) && Load(codecs, files) == Some(r.value.Value())
    {
      var readSessions := ReadJsonl(codecs.session, files.sessions);
      if readSessions.Err? {
        return Err(readSessions.error);
      }
      var readEvents := ReadJsonl(codecs.event, files.events);
      if readEvents.Err? {
        return Err(readEvents.error);
      }
      var readCapabilities := ReadJsonl(codecs.capability, files.capabilities);
      if readCapabilities.Err? {
        return Err(readCapabilities.error);
      }
      var index := new ObservabilityIndex();
      index.InsertSessions(readSessions.value);
      index.InsertEvents(readEvents.value);
      index.InsertCapabilities(readCapabilities.value);
      assert [] + readEvents.value == readEvents.value;
      r := Ok(index);
    }
  }
}

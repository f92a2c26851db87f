/** The observer session of `claude_observer.rs` as an object, proved against
    the functions of `ClaudeSession`. */
module ClaudeObserver {
  import opened Bytes
  import opened ClaudeSession
  import opened Naturals
  import opened Sequences
  import opened TranscriptTail
  import opened Wrappers

  /** What discovery found under the root. */
  type Discovery = Option<seq<Path>>

  ghost function Models<V, E>(ts: seq<TrackedTranscript<V, E>>): (r: seq<Tracked<E>>)
    reads ts
    ensures |r| == |ts|
    ensures forall i | 0 <= i < |ts| :: r[i] == Tracked(ts[i].path, ts[i].Model())
  {
    if ts == [] then [] else Models(DropLast(ts)) + [Tracked(Last(ts).path, Last(ts).Model())]
  }

  ghost function Readable<V, E>(files: Path -> Option<seq<byte>>): TrackedTranscript<V, E> -> bool {
    (t: TrackedTranscript<V, E>) => files(t.path).Some?
  }

  lemma ReadableDistinct<V, E>(ts: seq<TrackedTranscript<V, E>>, files: Path -> Option<seq<byte>>)
    requires Distinct(ts)
    ensures Distinct(Filter(Readable(files), ts))
    ensures forall t | t in Filter(Readable(files), ts) :: t in ts
  {
    FilterMembers(Readable(files), ts);
    FilterDistinct(Readable(files), ts);
  }

  class ClaudeObserverSession<V, E> {
    const maxEvents: nat
    var transcripts: seq<TrackedTranscript<V, E>>
    var statusEvents: seq<SessionEvent<E>>
    var observationClosed: bool

    ghost predicate Valid()
      reads this
    {
      Distinct(transcripts)
    }

    ghost function Model(): State<E>
      reads this, transcripts
    {
      State(Models(transcripts), statusEvents, observationClosed)
    }

    /** A session over what discovery found; `None` is a root that could not be searched. */
    constructor (found: Discovery, maxEvents: nat)
      ensures Valid() && fresh(transcripts) && this.maxEvents == maxEvents
      ensures |transcripts| == if found.Some? then |found.value| else 0
      ensures forall i | 0 <= i < |transcripts| ::
                transcripts[i].path == found.value[i] && transcripts[i].Model() == NewTail()
      ensures observationClosed <==> transcripts == []
      ensures statusEvents == match found
                              case None => [Unobservable(None, RootUnavailable)]
                              case Some(paths) => if paths == [] then [Unobservable(None, NoTranscripts)] else []
    {
      this.maxEvents := maxEvents;
      new;
      transcripts := [];
      statusEvents := [];
      match found {
        case None =>
          statusEvents := [Unobservable(None, RootUnavailable)];
        case Some(paths) =>
          for i := 0 to |paths|
            invariant |transcripts| == i && fresh(transcripts) && Valid()
            invariant forall j | 0 <= j < i ::
                        transcripts[j].path == paths[j] && transcripts[j].Model() == NewTail()
            invariant statusEvents == []
          {
            var transcript := new TrackedTranscript<V, E>(paths[i]);
            transcripts := transcripts + [transcript];
          }
          if transcripts == [] {
            statusEvents := [Unobservable(None, NoTranscripts)];
          }
      }
      observationClosed := transcripts == [];
    }

    /** One transcript of the history scan: reads it and keeps it, or reports and drops it. */
    method ScanOne(parser: Parser<V, E>, transcript: TrackedTranscript<V, E>, file: Option<seq<byte>>,
                   retained: seq<TrackedTranscript<V, E>>, events: seq<SessionEvent<E>>)
      returns (retained': seq<TrackedTranscript<V, E>>, events': seq<SessionEvent<E>>)
      requires transcript !in retained
      modifies transcript
      ensures retained' == if file.Some? then retained + [transcript] else retained
      ensures match file
              case None =>
                && Models(retained') == old(Models(retained))
                && events' == events + [Unobservable(Some(transcript.path), TranscriptUnavailable)]
              case Some(content) =>
                && Models(retained') == old(Models(retained)) + [Tracked(transcript.path, Scanned(content))]
                && events' == events + Tagged(transcript.path, TakeLast(SaturatingSub(maxEvents, |events|),
                                                                        EventsIn(parser, content)))
    {
      retained', events' := retained, events;
      match file {
        case None =>
          events' := events + [Unobservable(Some(transcript.path), TranscriptUnavailable)];
        case Some(content) =>
          var parsed := transcript.Scan(parser, content);
          assert Models(retained) == old(Models(retained));
          var remaining := SaturatingSub(maxEvents, |events|);
          if remaining > 0 {
            events' := events + Tagged(transcript.path, TakeLast(remaining, parsed));
          } else {
            assert TakeLast(0, parsed) == [];
          }
          retained' := retained + [transcript];
          assert DropLast(retained') == retained;
      }
    }

    /** Scans `taken` in order, behind the events already waiting. */
    method ScanAll(parser: Parser<V, E>, taken: seq<TrackedTranscript<V, E>>, status: seq<SessionEvent<E>>,
                   files: Path -> Option<seq<byte>>)
      returns (retained: seq<TrackedTranscript<V, E>>, events: seq<SessionEvent<E>>)
      requires Distinct(taken)
      modifies taken
      ensures retained == Filter(Readable(files), taken) && Distinct(retained)
      ensures (Models(retained), events) == Collect(parser, old(Models(taken)), status, files, maxEvents)
    {
      ghost var before := Models(taken);
      events := status;
      retained := [];
      for i := 0 to |taken|
        invariant retained == Filter(Readable(files), taken[..i])
        invariant (Models(retained), events) == Collect(parser, before[..i], status, files, maxEvents)
      {
        FilterMembers(Readable(files), taken[..i]);
        CollectSnoc(parser, before, i, status, files, maxEvents);
        retained, events := ScanOne(parser, taken[i], files(taken[i].path), retained, events);
        FilterSnoc(Readable(files), taken[..i], taken[i]);
        assert taken[..i + 1] == taken[..i] + [taken[i]];
      }
      assert before[..|taken|] == before && taken[..|taken|] == taken;
      ReadableDistinct(taken, files);
    }

    /** Installs the transcripts that were kept. */
    method Hold(retained: seq<TrackedTranscript<V, E>>)
      modifies this
      ensures transcripts == retained && statusEvents == [] && (observationClosed <==> retained == [])
    {
      transcripts := retained;
      statusEvents := [];
      observationClosed := retained == [];
    }

    /** The history scan, `collect_capability_events`; `files` is what reading each path gives. */
    method CollectCapabilityEvents(parser: Parser<V, E>, files: Path -> Option<seq<byte>>)
      returns (events: seq<SessionEvent<E>>)
      requires Valid()
      modifies this, transcripts
      ensures Valid() && transcripts == Filter(Readable(files), old(transcripts))
      ensures (Models(transcripts), events)
              == Collect(parser, old(Models(transcripts)), old(statusEvents), files, maxEvents)
      ensures statusEvents == [] && (observationClosed <==> transcripts == [])
    {
      var retained;
      retained, events := ScanAll(parser, transcripts, statusEvents, files);
      ghost var models := Models(retained);
      Hold(retained);
      assert Models(transcripts) == models;
    }

    /** Polls the transcript at `index`. */
    method PollAt(parser: Parser<V, E>, index: nat, look: Look) returns (outcome: Outcome<E>)
      requires Valid() && index < |transcripts|
      modifies transcripts[index]
      ensures Models(transcripts) == Polled(parser, old(Models(transcripts)), index, look)
      ensures outcome == Poll(parser, old(Models(transcripts))[index].tail, look).1
    {
      outcome := transcripts[index].ReadAppendedEvent(parser, look);
    }

    /** One pass over the transcripts. */
    method Pass(parser: Parser<V, E>, looks: nat -> Look) returns (event: Option<SessionEvent<E>>)
      requires Valid() && statusEvents == [] && !observationClosed
      modifies this, transcripts
      ensures Valid() && statusEvents == []
      ensures (Models(transcripts), event) == Round(parser, old(Models(transcripts)), 0, looks)
      ensures observationClosed <==> event.Some? && event.value.Unobservable? && transcripts == []
      ensures event.None? ==> transcripts == old(transcripts)
    {
      var index := 0;
      ghost var start := Models(transcripts);
      while index < |transcripts|
        invariant 0 <= index <= |transcripts|
        invariant Valid() && transcripts == old(transcripts) && statusEvents == [] && !observationClosed
        invariant Round(parser, start, 0, looks) == Round(parser, Models(transcripts), index, looks)
      {
        ghost var now := Models(transcripts);
        var path := transcripts[index].path;
        var outcome := PollAt(parser, index, looks(index));
        assert Round(parser, now, index, looks) == match outcome
          case Emitted(e) => (Models(transcripts), Some(Observed(path, e)))
          case Failed => (now[..index] + now[index + 1..], Some(Unobservable(Some(path), TranscriptUnavailable)))
          case Quiet => Round(parser, Models(transcripts), index + 1, looks);
        match outcome {
          case Emitted(e) =>
            return Some(Observed(path, e));
          case Quiet =>
            index := index + 1;
          case Failed =>
            ghost var polled := Models(transcripts);
            Remove(index);
            assert polled[..index] + polled[index + 1..] == now[..index] + now[index + 1..];
            return Some(Unobservable(Some(path), TranscriptUnavailable));
        }
      }
      return None;
    }

    /** Drops the transcript at `index`. */
    method Remove(index: nat)
      requires Valid() && index < |transcripts|
      modifies this`transcripts, this`observationClosed
      ensures Valid() && transcripts == old(transcripts[..index] + transcripts[index + 1..])
      ensures Models(transcripts) == old(Models(transcripts))[..index] + old(Models(transcripts))[index + 1..]
      ensures observationClosed == (old(observationClosed) || transcripts == [])
    {
      transcripts := transcripts[..index] + transcripts[index + 1..];
      if transcripts == [] {
        observationClosed := true;
      }
    }

    /** One call of `next_event`; each element of `rounds` is one pass before the deadline. */
    method NextEvent(parser: Parser<V, E>, rounds: seq<nat -> Look>) returns (event: Option<SessionEvent<E>>)
      requires Valid() && rounds != []
      modifies this, transcripts
      ensures Valid()
      ensures (Model(), event) == Next(parser, old(Model()), rounds)
    {
      if statusEvents != [] {
        event := Some(statusEvents[0]);
        statusEvents := statusEvents[1..];
        return;
      }
      if observationClosed {
        return None;
      }
      ghost var start := Models(transcripts);
      for round := 0 to |rounds|
        invariant Valid() && transcripts == old(transcripts) && statusEvents == [] && !observationClosed
        invariant Rounds(parser, start, rounds) == Rounds(parser, Models(transcripts), rounds[round..])
      {
        event := Pass(parser, rounds[round]);
        if event.Some? {
          return;
        }
      }
      return None;
    }
  }
}

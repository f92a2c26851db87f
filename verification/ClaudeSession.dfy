/** The observer session of `claude_observer.rs`: one history scan over all
    transcripts, then calls that poll them in turn. */
module ClaudeSession {
  import opened Bytes
  import opened Naturals
  import opened Sequences
  import opened TranscriptTail
  import opened Wrappers

  datatype Reason = NoTranscripts | RootUnavailable | TranscriptUnavailable

  /** An event handed to the caller. An observed event is tagged with the
      transcript it came from. */
  datatype SessionEvent<+E> =
    | Observed(path: Path, event: E)
    | Unobservable(transcript: Option<Path>, reason: Reason)

  datatype Tracked<E> = Tracked(path: Path, tail: Tail<E>)

  datatype State<E> = State(transcripts: seq<Tracked<E>>, status: seq<SessionEvent<E>>, closed: bool)

  /** One pass over the transcripts from index `i` on; `looks` is what each
      poll finds on disk. */
  function Round<V, E>(parser: Parser<V, E>, ts: seq<Tracked<E>>, i: nat, looks: nat -> Look)
    : (seq<Tracked<E>>, Option<SessionEvent<E>>)
    decreases |ts| - i
  {
    if i >= |ts| then (ts, None)
    else
      var (tail, outcome) := Poll(parser, ts[i].tail, looks(i));
      match outcome
      case Emitted(event) => (ts[i := Tracked(ts[i].path, tail)], Some(Observed(ts[i].path, event)))
      case Failed => (ts[..i] + ts[i + 1..], Some(Unobservable(Some(ts[i].path), TranscriptUnavailable)))
      case Quiet => Round(parser, ts[i := Tracked(ts[i].path, tail)], i + 1, looks)
  }

  /** Passes until one gives an event or the deadline has passed. */
  function Rounds<V, E>(parser: Parser<V, E>, ts: seq<Tracked<E>>, rounds: seq<nat -> Look>)
    : (seq<Tracked<E>>, Option<SessionEvent<E>>)
    decreases |rounds|
  {
    if rounds == [] then (ts, None)
    else
      var (ts', event) := Round(parser, ts, 0, rounds[0]);
      if event.Some? then (ts', event) else Rounds(parser, ts', rounds[1..])
  }

  /** One call of `next_event`. */
  function Next<V, E>(parser: Parser<V, E>, s: State<E>, rounds: seq<nat -> Look>)
    : (State<E>, Option<SessionEvent<E>>)
  {
    if s.status != [] then (s.(status := s.status[1..]), Some(s.status[0]))
    else if s.closed then (s, None)
    else
      var (ts, event) := Rounds(parser, s.transcripts, rounds);
      var failed := event.Some? && event.value.Unobservable?;
      (State(ts, [], s.closed || (failed && ts == [])), event)
  }

  function Tagged<E>(path: Path, events: seq<E>): (r: seq<SessionEvent<E>>)
    ensures |r| == |events|
  {
    if events == [] then [] else Tagged(path, DropLast(events)) + [Observed(path, Last(events))]
  }

  /** The history scan: everything waiting in `status`, then of each readable
      transcript the newest events that the budget still allows. */
  function Collect<V, E>(parser: Parser<V, E>, ts: seq<Tracked<E>>, status: seq<SessionEvent<E>>,
                         files: Path -> Option<seq<byte>>, maxEvents: nat)
    : (seq<Tracked<E>>, seq<SessionEvent<E>>)
  {
    if ts == [] then ([], status)
    else
      var (kept, events) := Collect(parser, DropLast(ts), status, files, maxEvents);
      var path := Last(ts).path;
      match files(path)
      case None => (kept, events + [Unobservable(Some(path), TranscriptUnavailable)])
      case Some(content) =>
        (kept + [Tracked(path, Scanned(content))],
         events + Tagged(path, TakeLast(SaturatingSub(maxEvents, |events|), EventsIn(parser, content))))
  }

  lemma CollectSnoc<V, E>(parser: Parser<V, E>, ts: seq<Tracked<E>>, i: nat, status: seq<SessionEvent<E>>,
                          files: Path -> Option<seq<byte>>, maxEvents: nat)
    requires i < |ts|
    ensures var (kept, events) := Collect(parser, ts[..i], status, files, maxEvents);
            var path := ts[i].path;
            Collect(parser, ts[..i + 1], status, files, maxEvents) == match files(path)
              case None => (kept, events + [Unobservable(Some(path), TranscriptUnavailable)])
              case Some(content) =>
                (kept + [Tracked(path, Scanned(content))],
                 events + Tagged(path, TakeLast(SaturatingSub(maxEvents, |events|), EventsIn(parser, content))))
  {
    assert DropLast(ts[..i + 1]) == ts[..i] && Last(ts[..i + 1]) == ts[i];
  }

  predicate IsFrom<E>(e: SessionEvent<E>, path: Path) {
    e.Observed? && e.path == path
  }

  /** The events of one transcript among those handed to the caller. */
  function HandedOut<E>(log: seq<SessionEvent<E>>, path: Path): seq<E> {
    if log == [] then []
    else if IsFrom(Last(log), path) then HandedOut(DropLast(log), path) + [Last(log).event]
    else HandedOut(DropLast(log), path)
  }

  function CountObserved<E>(log: seq<SessionEvent<E>>): nat {
    if log == [] then 0
    else CountObserved(DropLast(log)) + if Last(log).Observed? then 1 else 0
  }

  ghost predicate AllInStep<V, E>(parser: Parser<V, E>, ts: seq<Tracked<E>>) {
    forall i | 0 <= i < |ts| :: InStep(parser, ts[i].tail)
  }

  /** What every call keeps. */
  ghost predicate Sound<V, E>(parser: Parser<V, E>, s: State<E>) {
    && (s.closed <==> s.transcripts == [])
    && (forall e | e in s.status :: e.Unobservable?)
    && AllInStep(parser, s.transcripts)
  }

  ghost predicate DistinctPaths<E>(ts: seq<Tracked<E>>) {
    forall i, j | 0 <= i < j < |ts| :: ts[i].path != ts[j].path
  }

  /** Same transcripts in the same order, with the same events handed out. */
  ghost predicate NothingHandedOut<E>(before: seq<Tracked<E>>, after: seq<Tracked<E>>) {
    && |before| == |after|
    && forall i | 0 <= i < |before| ::
         && after[i].path == before[i].path
         && after[i].tail.history.delivered == before[i].tail.history.delivered
         && after[i].tail.history.scanned == before[i].tail.history.scanned
         && (before[i].tail.pending != [] ==> after[i] == before[i])
  }

  /** Polled without result: nothing handed out, and nothing was waiting. */
  ghost predicate QuietStep<E>(before: seq<Tracked<E>>, quiet: seq<Tracked<E>>) {
    && NothingHandedOut(before, quiet)
    && forall i | 0 <= i < |before| && quiet[i].tail.pending == [] :: before[i].tail.pending == []
  }

  /** Transcript `i` hands out `e`; the others hand out nothing. */
  ghost predicate HandedOutAt<E>(before: seq<Tracked<E>>, after: seq<Tracked<E>>, i: nat, path: Path, e: E)
    requires i < |before|
  {
    && |after| == |before|
    && before[i].path == path == after[i].path
    && after[i].tail.history.delivered == before[i].tail.history.delivered + [e]
    && after[i].tail.history.scanned == before[i].tail.history.scanned
    && NothingHandedOut(before[..i] + before[i + 1..], after[..i] + after[i + 1..])
  }

  /** Transcript `i` is dropped with nothing waiting; the others hand out nothing. */
  ghost predicate DroppedAt<E>(before: seq<Tracked<E>>, after: seq<Tracked<E>>, i: nat)
    requires i < |before|
  {
    && before[i].tail.pending == []
    && NothingHandedOut(before[..i] + before[i + 1..], after)
  }

  /** What a call may do to the transcripts, by the event it returns. */
  ghost predicate Accounted<E>(before: seq<Tracked<E>>, after: seq<Tracked<E>>, event: Option<SessionEvent<E>>) {
    match event
    case None => QuietStep(before, after)
    case Some(Observed(path, e)) =>
      exists i :: 0 <= i < |before| && HandedOutAt(before, after, i, path, e)
    case Some(Unobservable(transcript, _)) =>
      exists i :: 0 <= i < |before| && DroppedAt(before, after, i) && transcript == Some(before[i].path)
  }

  /** Transcript `i` of a pass, once polled. */
  function Polled<V, E>(parser: Parser<V, E>, ts: seq<Tracked<E>>, i: nat, look: Look): seq<Tracked<E>>
    requires i < |ts|
  {
    ts[i := Tracked(ts[i].path, Poll(parser, ts[i].tail, look).0)]
  }

  lemma PolledIsAccounted<V, E>(parser: Parser<V, E>, ts: seq<Tracked<E>>, i: nat, look: Look)
    requires AllInStep(parser, ts) && i < |ts|
    ensures AllInStep(parser, Polled(parser, ts, i, look))
    ensures match Poll(parser, ts[i].tail, look).1
            case Emitted(event) => HandedOutAt(ts, Polled(parser, ts, i, look), i, ts[i].path, event)
            case Failed => DroppedAt(ts, ts[..i] + ts[i + 1..], i)
            case Quiet => QuietStep(ts, Polled(parser, ts, i, look))
  {
    PollKeepsStep(parser, ts[i].tail, look);
    var polled := Polled(parser, ts, i, look);
    assert polled[..i] + polled[i + 1..] == ts[..i] + ts[i + 1..];
  }

  lemma NothingTransitive<E>(a: seq<Tracked<E>>, b: seq<Tracked<E>>, c: seq<Tracked<E>>)
    requires QuietStep(a, b) && NothingHandedOut(b, c)
    ensures NothingHandedOut(a, c)
    ensures QuietStep(b, c) ==> QuietStep(a, c)
  {
    forall i | 0 <= i < |a|
      ensures c[i].path == a[i].path
      ensures c[i].tail.history.delivered == a[i].tail.history.delivered
      ensures c[i].tail.history.scanned == a[i].tail.history.scanned
      ensures a[i].tail.pending != [] ==> c[i] == a[i]
    {
      assert b[i].path == a[i].path && c[i].path == b[i].path;
    }
  }

  lemma QuietExcept<E>(a: seq<Tracked<E>>, b: seq<Tracked<E>>, i: nat)
    requires QuietStep(a, b) && i < |a|
    ensures QuietStep(a[..i] + a[i + 1..], b[..i] + b[i + 1..])
  {
    var a', b' := a[..i] + a[i + 1..], b[..i] + b[i + 1..];
    forall j | 0 <= j < |a'|
      ensures b'[j].path == a'[j].path
      ensures b'[j].tail.history.delivered == a'[j].tail.history.delivered
      ensures b'[j].tail.history.scanned == a'[j].tail.history.scanned
      ensures a'[j].tail.pending != [] ==> b'[j] == a'[j]
      ensures b'[j].tail.pending == [] ==> a'[j].tail.pending == []
    {
      var k := if j < i then j else j + 1;
      assert a'[j] == a[k] && b'[j] == b[k];
    }
  }

  lemma AccountedAfterQuiet<E>(before: seq<Tracked<E>>, quiet: seq<Tracked<E>>, after: seq<Tracked<E>>,
                                event: Option<SessionEvent<E>>)
    requires QuietStep(before, quiet)
    requires Accounted(quiet, after, event)
    ensures Accounted(before, after, event)
  {
    match event
    case None => NothingTransitive(before, quiet, after);
    case Some(Observed(path, e)) =>
      var i :| 0 <= i < |quiet| && HandedOutAt(quiet, after, i, path, e);
      QuietExcept(before, quiet, i);
      NothingTransitive(before[..i] + before[i + 1..], quiet[..i] + quiet[i + 1..], after[..i] + after[i + 1..]);
      assert HandedOutAt(before, after, i, path, e);
    case Some(Unobservable(transcript, _)) =>
      var i :| 0 <= i < |quiet| && DroppedAt(quiet, after, i) && transcript == Some(quiet[i].path);
      QuietExcept(before, quiet, i);
      NothingTransitive(before[..i] + before[i + 1..], quiet[..i] + quiet[i + 1..], after);
      assert DroppedAt(before, after, i);
  }

  lemma {:induction false} RoundKeepsStep<V, E>(parser: Parser<V, E>, ts: seq<Tracked<E>>, i: nat, looks: nat -> Look)
    requires AllInStep(parser, ts)
    ensures AllInStep(parser, Round(parser, ts, i, looks).0)
    decreases |ts| - i
  {
    if i < |ts| {
      PollKeepsStep(parser, ts[i].tail, looks(i));
      RoundKeepsStep(parser, Polled(parser, ts, i, looks(i)), i + 1, looks);
    }
  }

  lemma EndOfRoundIsAccounted<V, E>(parser: Parser<V, E>, ts: seq<Tracked<E>>, i: nat, looks: nat -> Look)
    requires AllInStep(parser, ts) && i < |ts| && !Poll(parser, ts[i].tail, looks(i)).1.Quiet?
    ensures Accounted(ts, Round(parser, ts, i, looks).0, Round(parser, ts, i, looks).1)
  {
    PolledIsAccounted(parser, ts, i, looks(i));
  }

  lemma {:induction false} RoundIsAccounted<V, E>(parser: Parser<V, E>, ts: seq<Tracked<E>>, i: nat, looks: nat -> Look)
    requires AllInStep(parser, ts)
    ensures AllInStep(parser, Round(parser, ts, i, looks).0)
    ensures Accounted(ts, Round(parser, ts, i, looks).0, Round(parser, ts, i, looks).1)
    decreases |ts| - i
  {
    RoundKeepsStep(parser, ts, i, looks);
    if i < |ts| {
      if Poll(parser, ts[i].tail, looks(i)).1.Quiet? {
        var polled := Polled(parser, ts, i, looks(i));
        PolledIsAccounted(parser, ts, i, looks(i));
        RoundIsAccounted(parser, polled, i + 1, looks);
        AccountedAfterQuiet(ts, polled, Round(parser, polled, i + 1, looks).0, Round(parser, polled, i + 1, looks).1);
      } else {
        EndOfRoundIsAccounted(parser, ts, i, looks);
      }
    }
  }

  lemma {:induction false} RoundsAreAccounted<V, E>(parser: Parser<V, E>, ts: seq<Tracked<E>>, rounds: seq<nat -> Look>)
    requires AllInStep(parser, ts)
    ensures AllInStep(parser, Rounds(parser, ts, rounds).0)
    ensures Accounted(ts, Rounds(parser, ts, rounds).0, Rounds(parser, ts, rounds).1)
    decreases |rounds|
  {
    if rounds != [] {
      RoundIsAccounted(parser, ts, 0, rounds[0]);
      var (ts', event) := Round(parser, ts, 0, rounds[0]);
      if event.None? {
        RoundsAreAccounted(parser, ts', rounds[1..]);
        AccountedAfterQuiet(ts, ts', Rounds(parser, ts', rounds[1..]).0, Rounds(parser, ts', rounds[1..]).1);
      }
    }
  }

  /** Every call keeps the session sound, and the transcripts account for what
      it returns: an observed event is the next one owed by its transcript, and
      a transcript is dropped only when it has nothing waiting. */
  lemma NextKeepsSound<V, E>(parser: Parser<V, E>, s: State<E>, rounds: seq<nat -> Look>)
    requires Sound(parser, s)
    ensures Sound(parser, Next(parser, s, rounds).0)
    ensures s.status == [] ==>
              Accounted(s.transcripts, Next(parser, s, rounds).0.transcripts, Next(parser, s, rounds).1)
    ensures s.status != [] ==> Next(parser, s, rounds) == (s.(status := s.status[1..]), Some(s.status[0]))
  {
    if s.status != [] {
      assert forall e | e in s.status[1..] :: e in s.status;
    } else if !s.closed {
      RoundsAreAccounted(parser, s.transcripts, rounds);
      var (ts, event) := Rounds(parser, s.transcripts, rounds);
      if event.Some? && event.value.Unobservable? {
        var i :| 0 <= i < |s.transcripts| && DroppedAt(s.transcripts, ts, i);
      }
    }
  }

  /** A run of calls; each call brings its own passes. */
  function Follow<V, E>(parser: Parser<V, E>, s: State<E>, calls: seq<seq<nat -> Look>>)
    : (State<E>, seq<SessionEvent<E>>)
  {
    if calls == [] then (s, [])
    else
      var (before, log) := Follow(parser, s, DropLast(calls));
      var (after, event) := Next(parser, before, Last(calls));
      (after, if event.Some? then log + [event.value] else log)
  }

  /** Each transcript's record of what it handed out is what the caller got
      from it, and its scan was of `files`. */
  ghost predicate LogMatches<E>(ts: seq<Tracked<E>>, files: Path -> Option<seq<byte>>, log: seq<SessionEvent<E>>) {
    forall i | 0 <= i < |ts| ::
      && ts[i].tail.history.delivered == HandedOut(log, ts[i].path)
      && files(ts[i].path) == Some(ts[i].tail.history.scanned)
  }

  lemma SamePathsExcept<E>(before: seq<Tracked<E>>, after: seq<Tracked<E>>, i: nat)
    requires i < |before| == |after| && after[i].path == before[i].path
    requires NothingHandedOut(before[..i] + before[i + 1..], after[..i] + after[i + 1..])
    ensures forall j | 0 <= j < |before| ::
              && after[j].path == before[j].path
              && (j != i ==> after[j].tail.history.delivered == before[j].tail.history.delivered)
              && (j != i ==> after[j].tail.history.scanned == before[j].tail.history.scanned)
  {
    var a, b := before[..i] + before[i + 1..], after[..i] + after[i + 1..];
    forall j | 0 <= j < |before| && j != i
      ensures after[j].path == before[j].path
      ensures after[j].tail.history.delivered == before[j].tail.history.delivered
      ensures after[j].tail.history.scanned == before[j].tail.history.scanned
    {
      var k := if j < i then j else j - 1;
      assert a[k] == before[j] && b[k] == after[j];
      assert b[k].path == a[k].path;
    }
  }

  lemma HandedOutSnoc<E>(log: seq<SessionEvent<E>>, e: SessionEvent<E>, path: Path)
    ensures HandedOut(log + [e], path) ==
            if IsFrom(e, path) then HandedOut(log, path) + [e.event] else HandedOut(log, path)
    ensures CountObserved(log + [e]) == CountObserved(log) + if e.Observed? then 1 else 0
  {
    assert DropLast(log + [e]) == log;
  }

  lemma LogStepObserved<E>(before: seq<Tracked<E>>, after: seq<Tracked<E>>, files: Path -> Option<seq<byte>>,
                           log: seq<SessionEvent<E>>, i: nat, path: Path, e: E)
    requires DistinctPaths(before) && LogMatches(before, files, log)
    requires i < |before| && HandedOutAt(before, after, i, path, e)
    ensures DistinctPaths(after) && LogMatches(after, files, log + [Observed(path, e)])
  {
    SamePathsExcept(before, after, i);
    forall j | 0 <= j < |after|
      ensures after[j].tail.history.delivered == HandedOut(log + [Observed(path, e)], after[j].path)
      ensures files(after[j].path) == Some(after[j].tail.history.scanned)
    {
      HandedOutSnoc(log, Observed(path, e), after[j].path);
      assert before[j].tail.history.delivered == HandedOut(log, before[j].path);
      if j != i {
        assert before[j].path != before[i].path;
      }
    }
  }

  lemma LogStepDropped<E>(before: seq<Tracked<E>>, after: seq<Tracked<E>>, files: Path -> Option<seq<byte>>,
                          log: seq<SessionEvent<E>>, i: nat, event: SessionEvent<E>)
    requires DistinctPaths(before) && LogMatches(before, files, log) && event.Unobservable?
    requires i < |before| && DroppedAt(before, after, i)
    ensures DistinctPaths(after) && LogMatches(after, files, log + [event])
  {
    var others := before[..i] + before[i + 1..];
    forall j | 0 <= j < |after|
      ensures after[j].path == others[j].path
      ensures after[j].tail.history.delivered == HandedOut(log + [event], after[j].path)
      ensures files(after[j].path) == Some(after[j].tail.history.scanned)
    {
      HandedOutSnoc(log, event, after[j].path);
      assert after[j].path == others[j].path;
      assert others[j] == before[if j < i then j else j + 1];
    }
  }

  lemma LogStep<E>(before: seq<Tracked<E>>, after: seq<Tracked<E>>, files: Path -> Option<seq<byte>>,
                   log: seq<SessionEvent<E>>, event: Option<SessionEvent<E>>)
    requires DistinctPaths(before) && LogMatches(before, files, log)
    requires Accounted(before, after, event)
    ensures DistinctPaths(after)
    ensures LogMatches(after, files, if event.Some? then log + [event.value] else log)
  {
    match event
    case None =>
    case Some(Observed(path, e)) =>
      var i :| 0 <= i < |before| && HandedOutAt(before, after, i, path, e);
      LogStepObserved(before, after, files, log, i, path, e);
    case Some(Unobservable(transcript, reason)) =>
      var i :| 0 <= i < |before| && DroppedAt(before, after, i) && transcript == Some(before[i].path);
      LogStepDropped(before, after, files, log, i, event.value);
  }

  /** What the scan hands out of one transcript: a suffix of its history,
      shortened only when the budget is `spent`. */
  ghost predicate ScannedPart<V, E>(parser: Parser<V, E>, file: Option<seq<byte>>, part: seq<E>, spent: bool) {
    match file
    case None => part == []
    case Some(content) =>
      && part == TakeLast(|part|, EventsIn(parser, content))
      && (|part| < |EventsIn(parser, content)| ==> spent)
  }

  ghost predicate Unmentioned<E>(ts: seq<Tracked<E>>, path: Path) {
    forall i | 0 <= i < |ts| :: ts[i].path != path
  }

  function ReadableTails<E>(ts: seq<Tracked<E>>, files: Path -> Option<seq<byte>>): seq<Tracked<E>> {
    if ts == [] then []
    else match files(Last(ts).path)
      case None => ReadableTails(DropLast(ts), files)
      case Some(content) => ReadableTails(DropLast(ts), files) + [Tracked(Last(ts).path, Scanned(content))]
  }

  lemma {:induction false} ScanKeepsReadable<V, E>(parser: Parser<V, E>, ts: seq<Tracked<E>>,
                                                   status: seq<SessionEvent<E>>, files: Path -> Option<seq<byte>>,
                                                   maxEvents: nat)
    ensures Collect(parser, ts, status, files, maxEvents).0 == ReadableTails(ts, files)
    ensures AllInStep(parser, ReadableTails(ts, files))
  {
    if ts != [] {
      ScanKeepsReadable(parser, DropLast(ts), status, files, maxEvents);
      match files(Last(ts).path)
      case None =>
      case Some(content) => ScanIsInStep(parser, content);
    }
  }

  lemma UnobservableSnoc<E>(log: seq<SessionEvent<E>>, e: SessionEvent<E>, path: Path)
    requires e.Unobservable?
    ensures HandedOut(log + [e], path) == HandedOut(log, path)
    ensures CountObserved(log + [e]) == CountObserved(log)
  {
    assert DropLast(log + [e]) == log;
  }

  lemma {:induction false} NoneObserved<E>(log: seq<SessionEvent<E>>)
    requires forall e | e in log :: e.Unobservable?
    ensures CountObserved(log) == 0
    ensures forall path :: HandedOut(log, path) == []
  {
    if log != [] {
      assert Last(log) in log;
      NoneObserved(DropLast(log));
    }
  }

  lemma TaggedSnoc<E>(log: seq<SessionEvent<E>>, path: Path, events: seq<E>)
    requires events != []
    ensures log + Tagged(path, events) == (log + Tagged(path, DropLast(events))) + [Observed(path, Last(events))]
  {
    assert Tagged(path, events) == Tagged(path, DropLast(events)) + [Observed(path, Last(events))];
  }

  lemma AppendSnoc<E>(a: seq<E>, b: seq<E>)
    requires b != []
    ensures a + b == a + DropLast(b) + [Last(b)]
  {
  }

  lemma {:induction false} TaggedAppend<E>(log: seq<SessionEvent<E>>, path: Path, events: seq<E>, other: Path)
    ensures HandedOut(log + Tagged(path, events), other)
            == if other == path then HandedOut(log, path) + events else HandedOut(log, other)
    ensures CountObserved(log + Tagged(path, events)) == CountObserved(log) + |events|
  {
    if events == [] {
      assert log + Tagged(path, events) == log;
    } else {
      TaggedAppend(log, path, DropLast(events), other);
      TaggedSnoc(log, path, events);
      HandedOutSnoc(log + Tagged(path, DropLast(events)), Observed(path, Last(events)), other);
      if other == path {
        AppendSnoc(HandedOut(log, path), events);
      }
    }
  }

  lemma {:induction false} ScanStaysInBudget<V, E>(parser: Parser<V, E>, ts: seq<Tracked<E>>,
                                                   status: seq<SessionEvent<E>>, files: Path -> Option<seq<byte>>,
                                                   maxEvents: nat)
    requires forall e | e in status :: e.Unobservable?
    ensures var events := Collect(parser, ts, status, files, maxEvents).1;
            CountObserved(events) <= maxEvents && CountObserved(events) <= |events|
  {
    if ts == [] {
      NoneObserved(status);
    } else {
      ScanStaysInBudget(parser, DropLast(ts), status, files, maxEvents);
      var events := Collect(parser, DropLast(ts), status, files, maxEvents).1;
      match files(Last(ts).path)
      case None => UnobservableSnoc(events, Unobservable(Some(Last(ts).path), TranscriptUnavailable), Last(ts).path);
      case Some(content) =>
        var part := TakeLast(SaturatingSub(maxEvents, |events|), EventsIn(parser, content));
        TaggedAppend(events, Last(ts).path, part, Last(ts).path);
    }
  }

  /** One transcript of the scan adds only to its own events. */
  lemma ScanStep<V, E>(parser: Parser<V, E>, ts: seq<Tracked<E>>, status: seq<SessionEvent<E>>,
                       files: Path -> Option<seq<byte>>, maxEvents: nat, path: Path)
    requires ts != []
    ensures var before := Collect(parser, DropLast(ts), status, files, maxEvents).1;
            var after := Collect(parser, ts, status, files, maxEvents).1;
            && |before| <= |after|
            && (path != Last(ts).path || files(path).None? ==> HandedOut(after, path) == HandedOut(before, path))
            && (path == Last(ts).path && files(path).Some? ==>
                  var history := EventsIn(parser, files(path).value);
                  var part := TakeLast(SaturatingSub(maxEvents, |before|), history);
                  HandedOut(after, path) == HandedOut(before, path) + part && |after| == |before| + |part|)
  {
    var events := Collect(parser, DropLast(ts), status, files, maxEvents).1;
    match files(Last(ts).path)
    case None => UnobservableSnoc(events, Unobservable(Some(Last(ts).path), TranscriptUnavailable), path);
    case Some(content) =>
      var part := TakeLast(SaturatingSub(maxEvents, |events|), EventsIn(parser, content));
      TaggedAppend(events, Last(ts).path, part, path);
  }

  lemma {:induction false} ScanSkipsOthers<V, E>(parser: Parser<V, E>, ts: seq<Tracked<E>>,
                                                 status: seq<SessionEvent<E>>, files: Path -> Option<seq<byte>>,
                                                 maxEvents: nat, path: Path)
    requires Unmentioned(ts, path) && forall e | e in status :: e.Unobservable?
    ensures HandedOut(Collect(parser, ts, status, files, maxEvents).1, path) == []
  {
    if ts == [] {
      NoneObserved(status);
    } else {
      ScanSkipsOthers(parser, DropLast(ts), status, files, maxEvents, path);
      ScanStep(parser, ts, status, files, maxEvents, path);
    }
  }

  lemma {:induction false} ScanTakesSuffix<V, E>(parser: Parser<V, E>, ts: seq<Tracked<E>>,
                                                 status: seq<SessionEvent<E>>, files: Path -> Option<seq<byte>>,
                                                 maxEvents: nat, i: nat)
    requires DistinctPaths(ts) && i < |ts| && forall e | e in status :: e.Unobservable?
    ensures var events := Collect(parser, ts, status, files, maxEvents).1;
            ScannedPart(parser, files(ts[i].path), HandedOut(events, ts[i].path), |events| >= maxEvents)
  {
    var init, path := DropLast(ts), ts[i].path;
    ScanStep(parser, ts, status, files, maxEvents, path);
    if i < |init| {
      ScanTakesSuffix(parser, init, status, files, maxEvents, i);
    } else {
      ScanSkipsOthers(parser, init, status, files, maxEvents, path);
    }
  }

  /** The scan gives, of each readable transcript, a suffix of its history; all
      suffixes together stay within the budget; a history is cut only once the
      budget is spent. The transcripts kept are the readable ones, in step. */
  lemma ScanTakesSuffixes<V, E>(parser: Parser<V, E>, ts: seq<Tracked<E>>, status: seq<SessionEvent<E>>,
                                files: Path -> Option<seq<byte>>, maxEvents: nat)
    requires DistinctPaths(ts) && forall e | e in status :: e.Unobservable?
    ensures var (kept, events) := Collect(parser, ts, status, files, maxEvents);
            && kept == ReadableTails(ts, files)
            && AllInStep(parser, kept)
            && CountObserved(events) <= maxEvents
            && forall i | 0 <= i < |ts| ::
                 ScannedPart(parser, files(ts[i].path), HandedOut(events, ts[i].path), |events| >= maxEvents)
  {
    ScanStaysInBudget(parser, ts, status, files, maxEvents);
    ScanKeepsReadable(parser, ts, status, files, maxEvents);
    forall i | 0 <= i < |ts|
      ensures var events := Collect(parser, ts, status, files, maxEvents).1;
              ScannedPart(parser, files(ts[i].path), HandedOut(events, ts[i].path), |events| >= maxEvents)
    {
      ScanTakesSuffix(parser, ts, status, files, maxEvents, i);
    }
  }

  /** The session once the history scan of `files` is done. */
  function AfterScan<E>(ts: seq<Tracked<E>>, files: Path -> Option<seq<byte>>): State<E> {
    State(ReadableTails(ts, files), [], ReadableTails(ts, files) == [])
  }

  lemma {:induction false} ScanStartsLog<V, E>(parser: Parser<V, E>, ts: seq<Tracked<E>>,
                                               files: Path -> Option<seq<byte>>)
    requires DistinctPaths(ts)
    ensures AllInStep(parser, ReadableTails(ts, files)) && DistinctPaths(ReadableTails(ts, files))
    ensures LogMatches(ReadableTails(ts, files), files, [])
    ensures forall i | 0 <= i < |ReadableTails(ts, files)| ::
              exists j :: 0 <= j < |ts| && ts[j].path == ReadableTails(ts, files)[i].path
  {
    if ts != [] {
      ScanStartsLog(parser, DropLast(ts), files);
      var kept := ReadableTails(DropLast(ts), files);
      match files(Last(ts).path)
      case None =>
      case Some(content) =>
        ScanIsInStep(parser, content);
        assert ReadableTails(ts, files) == kept + [Tracked(Last(ts).path, Scanned(content))];
        assert ts[|ts| - 1].path == Last(ts).path;
    }
  }

  lemma {:induction false} FollowKeeps<V, E>(parser: Parser<V, E>, ts: seq<Tracked<E>>,
                                             files: Path -> Option<seq<byte>>, calls: seq<seq<nat -> Look>>)
    requires DistinctPaths(ts)
    ensures var (after, log) := Follow(parser, AfterScan(ts, files), calls);
            Sound(parser, after) && DistinctPaths(after.transcripts) && LogMatches(after.transcripts, files, log)
  {
    if calls == [] {
      ScanStartsLog(parser, ts, files);
    } else {
      FollowKeeps(parser, ts, files, DropLast(calls));
      var (before, log) := Follow(parser, AfterScan(ts, files), DropLast(calls));
      NextKeepsSound(parser, before, Last(calls));
      var (after, event) := Next(parser, before, Last(calls));
      if before.status == [] {
        LogStep(before.transcripts, after.transcripts, files, log, event);
      } else {
        assert event == Some(before.status[0]) && before.status[0] in before.status;
        assert DropLast(log + [event.value]) == log;
      }
    }
  }

  /** Follow-phase loss freedom: over any run of calls after the scan, whatever
      happens to the files, each transcript still tracked has given the caller,
      in order and once each, exactly the events it was shown beyond those of
      its scan, up to those still waiting; and the session is closed exactly
      when no transcript is left. */
  lemma FollowLosesNothing<V, E>(parser: Parser<V, E>, ts: seq<Tracked<E>>, files: Path -> Option<seq<byte>>,
                                 calls: seq<seq<nat -> Look>>)
    requires DistinctPaths(ts)
    ensures var (after, log) := Follow(parser, AfterScan(ts, files), calls);
            && (after.closed <==> after.transcripts == [])
            && forall i | 0 <= i < |after.transcripts| ::
                 var t := after.transcripts[i];
                 && files(t.path) == Some(t.tail.history.scanned)
                 && EventsIn(parser, t.tail.history.scanned) + HandedOut(log, t.path) + t.tail.pending
                    == EventsSeen(parser, t.tail.history)
  {
    FollowKeeps(parser, ts, files, calls);
    var (after, log) := Follow(parser, AfterScan(ts, files), calls);
    forall i | 0 <= i < |after.transcripts|
      ensures var t := after.transcripts[i];
              && files(t.path) == Some(t.tail.history.scanned)
              && EventsIn(parser, t.tail.history.scanned) + HandedOut(log, t.path) + t.tail.pending
                 == EventsSeen(parser, t.tail.history)
    {
      assert InStep(parser, after.transcripts[i].tail);
    }
  }
}

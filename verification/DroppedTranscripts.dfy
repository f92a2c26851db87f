/** What becomes of the transcripts the session stops following. */
module DroppedTranscripts {
  import opened Bytes
  import opened ClaudeSession
  import opened Naturals
  import opened Sequences
  import opened TranscriptTail
  import opened Wrappers

  /** The transcript that a pass drops, as its failing poll leaves it. */
  function RoundDrop<V, E>(parser: Parser<V, E>, ts: seq<Tracked<E>>, i: nat, looks: nat -> Look): Option<Tracked<E>>
    decreases |ts| - i
  {
    if i >= |ts| then None
    else
      var (tail, outcome) := Poll(parser, ts[i].tail, looks(i));
      match outcome
      case Emitted(_) => None
      case Failed => Some(Tracked(ts[i].path, tail))
      case Quiet => RoundDrop(parser, ts[i := Tracked(ts[i].path, tail)], i + 1, looks)
  }

  function RoundsDrop<V, E>(parser: Parser<V, E>, ts: seq<Tracked<E>>, rounds: seq<nat -> Look>): Option<Tracked<E>>
    decreases |rounds|
  {
    if rounds == [] then None
    else
      var (ts', event) := Round(parser, ts, 0, rounds[0]);
      if event.Some? then RoundDrop(parser, ts, 0, rounds[0]) else RoundsDrop(parser, ts', rounds[1..])
  }

  function NextDrop<V, E>(parser: Parser<V, E>, s: State<E>, rounds: seq<nat -> Look>): Option<Tracked<E>> {
    if s.status != [] || s.closed then None else RoundsDrop(parser, s.transcripts, rounds)
  }

  /** The transcripts dropped along a run of calls, in turn. */
  function Dropped<V, E>(parser: Parser<V, E>, s: State<E>, calls: seq<seq<nat -> Look>>): seq<Tracked<E>> {
    if calls == [] then []
    else
      var before := Follow(parser, s, DropLast(calls)).0;
      match NextDrop(parser, before, Last(calls))
      case None => Dropped(parser, s, DropLast(calls))
      case Some(t) => Dropped(parser, s, DropLast(calls)) + [t]
  }

  ghost function Paths<E>(ts: seq<Tracked<E>>): set<Path> {
    set t | t in ts :: t.path
  }

  predicate Reporting<E>(e: SessionEvent<E>, path: Path) {
    e.Unobservable? && e.transcript == Some(path)
  }

  /** The reports that a transcript cannot be followed any more. */
  function Reports<E>(log: seq<SessionEvent<E>>, path: Path): nat {
    if log == [] then 0
    else Reports(DropLast(log), path) + if Reporting(Last(log), path) then 1 else 0
  }

  /** `t` was `was` when the call began, and had nothing left to hand out. */
  ghost predicate Drained<V, E>(parser: Parser<V, E>, was: Tracked<E>, t: Tracked<E>) {
    && t.path == was.path && InStep(parser, t.tail) && t.tail.pending == []
    && t.tail.history.delivered == was.tail.history.delivered
    && t.tail.history.scanned == was.tail.history.scanned
  }

  /** The transcript at `i` is gone, drained, and reported; the others are still there. */
  ghost predicate DropsAt<V, E>(parser: Parser<V, E>, before: seq<Tracked<E>>, after: seq<Tracked<E>>,
                                event: Option<SessionEvent<E>>, t: Tracked<E>, i: int)
  {
    && 0 <= i < |before| && |after| == |before| - 1
    && Drained(parser, before[i], t)
    && event == Some(Unobservable(Some(t.path), TranscriptUnavailable))
    && forall j | 0 <= j < |after| :: after[j].path == before[if j < i then j else j + 1].path
  }

  /** How the transcripts change in a call that drops `dropped`. */
  ghost predicate Changes<V, E>(parser: Parser<V, E>, before: seq<Tracked<E>>, after: seq<Tracked<E>>,
                                event: Option<SessionEvent<E>>, dropped: Option<Tracked<E>>)
  {
    match dropped
    case None =>
      && |after| == |before| && (forall j | 0 <= j < |before| :: after[j].path == before[j].path)
      && (event.Some? ==> event.value.Observed? && event.value.path in Paths(before))
    case Some(t) => exists i :: DropsAt(parser, before, after, event, t, i)
  }

  lemma SamePaths<E>(before: seq<Tracked<E>>, after: seq<Tracked<E>>)
    requires |after| == |before| && forall j | 0 <= j < |before| :: after[j].path == before[j].path
    ensures Paths(after) == Paths(before)
  {
    forall p ensures p in Paths(after) <==> p in Paths(before) {
      if t :| t in after && t.path == p {
        var j :| 0 <= j < |after| && after[j] == t;
        assert before[j] in before && before[j].path == p;
      }
      if t :| t in before && t.path == p {
        var j :| 0 <= j < |before| && before[j] == t;
        assert after[j] in after && after[j].path == p;
      }
    }
  }

  lemma ChangesAfterQuiet<V, E>(parser: Parser<V, E>, before: seq<Tracked<E>>, quiet: seq<Tracked<E>>,
                                after: seq<Tracked<E>>, event: Option<SessionEvent<E>>, dropped: Option<Tracked<E>>)
    requires QuietStep(before, quiet) && Changes(parser, quiet, after, event, dropped)
    ensures Changes(parser, before, after, event, dropped)
  {
    SamePaths(before, quiet);
    match dropped
    case None =>
    case Some(t) =>
      var i :| DropsAt(parser, quiet, after, event, t, i);
      assert quiet[i].path == before[i].path;
      assert DropsAt(parser, before, after, event, t, i);
  }

  lemma {:induction false} RoundChanges<V, E>(parser: Parser<V, E>, ts: seq<Tracked<E>>, i: nat, looks: nat -> Look)
    requires AllInStep(parser, ts)
    ensures Changes(parser, ts, Round(parser, ts, i, looks).0, Round(parser, ts, i, looks).1,
                    RoundDrop(parser, ts, i, looks))
    decreases |ts| - i
  {
    if i < |ts| {
      PollKeepsStep(parser, ts[i].tail, looks(i));
      PolledIsAccounted(parser, ts, i, looks(i));
      var (tail, outcome) := Poll(parser, ts[i].tail, looks(i));
      match outcome {
        case Emitted(_) => assert ts[i] in ts;
        case Failed =>
          assert DropsAt(parser, ts, ts[..i] + ts[i + 1..], Round(parser, ts, i, looks).1,
                         Tracked(ts[i].path, tail), i);
        case Quiet =>
          var polled := Polled(parser, ts, i, looks(i));
          RoundChanges(parser, polled, i + 1, looks);
          ChangesAfterQuiet(parser, ts, polled, Round(parser, ts, i, looks).0, Round(parser, ts, i, looks).1,
                            RoundDrop(parser, ts, i, looks));
      }
    }
  }

  lemma {:induction false} RoundsChange<V, E>(parser: Parser<V, E>, ts: seq<Tracked<E>>, rounds: seq<nat -> Look>)
    requires AllInStep(parser, ts)
    ensures Changes(parser, ts, Rounds(parser, ts, rounds).0, Rounds(parser, ts, rounds).1,
                    RoundsDrop(parser, ts, rounds))
    decreases |rounds|
  {
    if rounds != [] {
      RoundChanges(parser, ts, 0, rounds[0]);
      RoundIsAccounted(parser, ts, 0, rounds[0]);
      var (ts', event) := Round(parser, ts, 0, rounds[0]);
      if event.None? {
        RoundsChange(parser, ts', rounds[1..]);
        ChangesAfterQuiet(parser, ts, ts', Rounds(parser, ts, rounds).0, Rounds(parser, ts, rounds).1,
                          RoundsDrop(parser, ts, rounds));
      }
    }
  }

  /** A dropped transcript has handed out all it was shown, and was reported once. */
  ghost predicate Settled<V, E>(parser: Parser<V, E>, files: Path -> Option<seq<byte>>, log: seq<SessionEvent<E>>,
                                t: Tracked<E>)
  {
    && files(t.path) == Some(t.tail.history.scanned)
    && InStep(parser, t.tail) && t.tail.pending == []
    && t.tail.history.delivered == HandedOut(log, t.path)
    && Reports(log, t.path) == 1
  }

  /** Every readable transcript is either followed, and not reported, or dropped. */
  ghost predicate AllSettled<V, E>(parser: Parser<V, E>, files: Path -> Option<seq<byte>>, readable: set<Path>,
                                   followed: seq<Tracked<E>>, dropped: seq<Tracked<E>>, log: seq<SessionEvent<E>>)
  {
    && (forall t | t in dropped :: Settled(parser, files, log, t))
    && (forall p | p in Paths(followed) :: Reports(log, p) == 0)
    && Paths(followed) !! Paths(dropped) && Paths(followed) + Paths(dropped) == readable
    && DistinctPaths(dropped)
  }

  lemma ReportsSnoc<E>(log: seq<SessionEvent<E>>, e: SessionEvent<E>, path: Path)
    ensures Reports(log + [e], path) == Reports(log, path) + if Reporting(e, path) then 1 else 0
  {
    assert DropLast(log + [e]) == log;
  }

  lemma StillSettled<V, E>(parser: Parser<V, E>, files: Path -> Option<seq<byte>>, log: seq<SessionEvent<E>>,
                           e: SessionEvent<E>, t: Tracked<E>)
    requires Settled(parser, files, log, t) && !IsFrom(e, t.path) && !Reporting(e, t.path)
    ensures Settled(parser, files, log + [e], t)
  {
    HandedOutSnoc(log, e, t.path);
    ReportsSnoc(log, e, t.path);
  }

  lemma CallSettlesNone<V, E>(parser: Parser<V, E>, files: Path -> Option<seq<byte>>, readable: set<Path>,
                              before: seq<Tracked<E>>, after: seq<Tracked<E>>, event: Option<SessionEvent<E>>,
                              dropped: seq<Tracked<E>>, log: seq<SessionEvent<E>>)
    requires AllSettled(parser, files, readable, before, dropped, log)
    requires Changes(parser, before, after, event, None)
    ensures AllSettled(parser, files, readable, after, dropped, if event.Some? then log + [event.value] else log)
  {
    SamePaths(before, after);
    if event.Some? {
      forall t | t in dropped ensures Settled(parser, files, log + [event.value], t) {
        assert t.path in Paths(dropped);
        StillSettled(parser, files, log, event.value, t);
      }
      forall p | p in Paths(after) ensures Reports(log + [event.value], p) == 0 {
        ReportsSnoc(log, event.value, p);
      }
    }
  }

  lemma PathsWithout<E>(before: seq<Tracked<E>>, after: seq<Tracked<E>>, i: nat)
    requires DistinctPaths(before) && i < |before| && |after| == |before| - 1
    requires forall j | 0 <= j < |after| :: after[j].path == before[if j < i then j else j + 1].path
    ensures before[i].path in Paths(before)
    ensures Paths(after) == Paths(before) - {before[i].path}
  {
    assert before[i] in before;
    forall p ensures p in Paths(after) <==> p in Paths(before) && p != before[i].path {
      if t :| t in after && t.path == p {
        var j :| 0 <= j < |after| && after[j] == t;
        assert before[if j < i then j else j + 1] in before;
      }
      if t :| t in before && t.path == p && p != before[i].path {
        var j :| 0 <= j < |before| && before[j] == t;
        var k := if j < i then j else j - 1;
        assert after[k] in after && after[k].path == p;
      }
    }
  }

  lemma PathsSnoc<E>(ts: seq<Tracked<E>>, t: Tracked<E>)
    ensures Paths(ts + [t]) == Paths(ts) + {t.path}
  {
    forall p ensures p in Paths(ts + [t]) <==> p in Paths(ts) || p == t.path {
      assert t in ts + [t];
      if g :| g in ts && g.path == p {
        assert g in ts + [t];
      }
    }
  }

  lemma CallSettlesOne<V, E>(parser: Parser<V, E>, files: Path -> Option<seq<byte>>, readable: set<Path>,
                             before: seq<Tracked<E>>, after: seq<Tracked<E>>, event: SessionEvent<E>, t: Tracked<E>,
                             i: nat, dropped: seq<Tracked<E>>, log: seq<SessionEvent<E>>)
    requires AllSettled(parser, files, readable, before, dropped, log)
    requires DistinctPaths(before) && LogMatches(before, files, log)
    requires DropsAt(parser, before, after, Some(event), t, i)
    ensures AllSettled(parser, files, readable, after, dropped + [t], log + [event])
  {
    PathsWithout(before, after, i);
    HandedOutSnoc(log, event, t.path);
    ReportsSnoc(log, event, t.path);
    assert before[i].tail.history.delivered == HandedOut(log, before[i].path);
    assert Settled(parser, files, log + [event], t);
    forall g | g in dropped ensures Settled(parser, files, log + [event], g) && g.path != t.path {
      assert g.path in Paths(dropped);
      StillSettled(parser, files, log, event, g);
    }
    forall p | p in Paths(after) ensures Reports(log + [event], p) == 0 {
      ReportsSnoc(log, event, p);
    }
    PathsSnoc(dropped, t);
  }

  lemma CallSettles<V, E>(parser: Parser<V, E>, files: Path -> Option<seq<byte>>, readable: set<Path>,
                          before: seq<Tracked<E>>, after: seq<Tracked<E>>, event: Option<SessionEvent<E>>,
                          drop: Option<Tracked<E>>, dropped: seq<Tracked<E>>, log: seq<SessionEvent<E>>)
    requires AllSettled(parser, files, readable, before, dropped, log)
    requires DistinctPaths(before) && LogMatches(before, files, log)
    requires Changes(parser, before, after, event, drop)
    ensures AllSettled(parser, files, readable, after,
                       match drop case None => dropped case Some(t) => dropped + [t],
                       if event.Some? then log + [event.value] else log)
  {
    match drop
    case None => CallSettlesNone(parser, files, readable, before, after, event, dropped, log);
    case Some(t) =>
      var i :| DropsAt(parser, before, after, event, t, i);
      CallSettlesOne(parser, files, readable, before, after, event.value, t, i, dropped, log);
  }

  lemma {:induction false} RunSettles<V, E>(parser: Parser<V, E>, ts: seq<Tracked<E>>,
                                            files: Path -> Option<seq<byte>>, calls: seq<seq<nat -> Look>>)
    requires DistinctPaths(ts)
    ensures var (after, log) := Follow(parser, AfterScan(ts, files), calls);
            && after.status == []
            && AllSettled(parser, files, Paths(ReadableTails(ts, files)), after.transcripts,
                          Dropped(parser, AfterScan(ts, files), calls), log)
  {
    if calls != [] {
      var start := AfterScan(ts, files);
      RunSettles(parser, ts, files, DropLast(calls));
      FollowKeeps(parser, ts, files, DropLast(calls));
      var (before, log) := Follow(parser, start, DropLast(calls));
      if !before.closed {
        RoundsChange(parser, before.transcripts, Last(calls));
        var (after, event) := Rounds(parser, before.transcripts, Last(calls));
        CallSettles(parser, files, Paths(ReadableTails(ts, files)), before.transcripts, after, event,
                    RoundsDrop(parser, before.transcripts, Last(calls)),
                    Dropped(parser, start, DropLast(calls)), log);
      }
    }
  }

  lemma NothingPending<V, E>(parser: Parser<V, E>, t: Tail<E>)
    requires InStep(parser, t) && t.pending == []
    ensures EventsIn(parser, t.history.scanned) + t.history.delivered == EventsSeen(parser, t.history)
  {
    var shown := EventsIn(parser, t.history.scanned) + t.history.delivered;
    assert shown + t.pending == shown;
  }

  /** Loss freedom for the transcripts that are dropped: over any run after the
      scan, a readable transcript is either still followed and unreported, or it
      was dropped once, reported once, and had by then handed out every event of
      every incarnation it was shown beyond its scan. */
  lemma DroppingLosesNothing<V, E>(parser: Parser<V, E>, ts: seq<Tracked<E>>, files: Path -> Option<seq<byte>>,
                                   calls: seq<seq<nat -> Look>>)
    requires DistinctPaths(ts)
    ensures var (after, log) := Follow(parser, AfterScan(ts, files), calls);
            var dropped := Dropped(parser, AfterScan(ts, files), calls);
            && (forall t | t in dropped ::
                  && files(t.path) == Some(t.tail.history.scanned)
                  && EventsIn(parser, t.tail.history.scanned) + HandedOut(log, t.path) ==
                     EventsSeen(parser, t.tail.history)
                  && Reports(log, t.path) == 1)
            && (forall p | p in Paths(after.transcripts) :: Reports(log, p) == 0)
            && DistinctPaths(dropped) && Paths(after.transcripts) !! Paths(dropped)
            && Paths(after.transcripts) + Paths(dropped) == Paths(ReadableTails(ts, files))
  {
    RunSettles(parser, ts, files, calls);
    var log := Follow(parser, AfterScan(ts, files), calls).1;
    forall t | t in Dropped(parser, AfterScan(ts, files), calls)
      ensures EventsIn(parser, t.tail.history.scanned) + HandedOut(log, t.path) == EventsSeen(parser, t.tail.history)
    {
      assert Settled(parser, files, log, t);
      NothingPending(parser, t.tail);
    }
  }

  lemma {:induction false} TaggedReportsNothing<E>(log: seq<SessionEvent<E>>, path: Path, events: seq<E>, other: Path)
    ensures Reports(log + Tagged(path, events), other) == Reports(log, other)
    ensures log <= log + Tagged(path, events)
  {
    if events == [] {
      assert log + Tagged(path, events) == log;
    } else {
      TaggedReportsNothing(log, path, DropLast(events), other);
      TaggedSnoc(log, path, events);
      ReportsSnoc(log + Tagged(path, DropLast(events)), Observed(path, Last(events)), other);
    }
  }

  /** One transcript of the scan is reported exactly when it cannot be read. */
  lemma ScanReportsOne<V, E>(parser: Parser<V, E>, ts: seq<Tracked<E>>, status: seq<SessionEvent<E>>,
                             files: Path -> Option<seq<byte>>, maxEvents: nat, path: Path)
    requires ts != []
    ensures var before := Collect(parser, DropLast(ts), status, files, maxEvents).1;
            var after := Collect(parser, ts, status, files, maxEvents).1;
            && before <= after
            && Reports(after, path) ==
               Reports(before, path) + if path == Last(ts).path && files(path).None? then 1 else 0
  {
    var events := Collect(parser, DropLast(ts), status, files, maxEvents).1;
    match files(Last(ts).path)
    case None => ReportsSnoc(events, Unobservable(Some(Last(ts).path), TranscriptUnavailable), path);
    case Some(content) =>
      var part := TakeLast(SaturatingSub(maxEvents, |events|), EventsIn(parser, content));
      TaggedReportsNothing(events, Last(ts).path, part, path);
  }

  lemma {:induction false} ScanReportsNoOther<V, E>(parser: Parser<V, E>, ts: seq<Tracked<E>>,
                                                    status: seq<SessionEvent<E>>, files: Path -> Option<seq<byte>>,
                                                    maxEvents: nat, path: Path)
    requires Unmentioned(ts, path)
    ensures status <= Collect(parser, ts, status, files, maxEvents).1
    ensures Reports(Collect(parser, ts, status, files, maxEvents).1, path) == Reports(status, path)
  {
    if ts != [] {
      ScanReportsNoOther(parser, DropLast(ts), status, files, maxEvents, path);
      ScanReportsOne(parser, ts, status, files, maxEvents, path);
    }
  }

  /** The scan hands on what was waiting, then reports each transcript that it
      cannot read once, and no other. */
  lemma {:induction false} ScanReportsUnreadable<V, E>(parser: Parser<V, E>, ts: seq<Tracked<E>>,
                                                       status: seq<SessionEvent<E>>,
                                                       files: Path -> Option<seq<byte>>, maxEvents: nat, i: nat)
    requires DistinctPaths(ts) && i < |ts|
    ensures var events, path := Collect(parser, ts, status, files, maxEvents).1, ts[i].path;
            && status <= events
            && Reports(events, path) == Reports(status, path) + if files(path).None? then 1 else 0
  {
    var init, path := DropLast(ts), ts[i].path;
    ScanReportsOne(parser, ts, status, files, maxEvents, path);
    if i < |init| {
      ScanReportsUnreadable(parser, init, status, files, maxEvents, i);
    } else {
      ScanReportsNoOther(parser, init, status, files, maxEvents, path);
    }
  }
}

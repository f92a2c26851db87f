/** The transcript tailer of `claude_observer.rs`: one growing JSONL file,
    read a chunk at a time, must yield the events of one read of the whole file. */
module TranscriptTail {
  import opened Bytes
  import opened Lines
  import opened Sequences
  import opened Wrappers

  type Path = string

  /** What decoding, trimming and JSON parsing make of one line. */
  datatype LineKind<+V> = Blank | Malformed | Record(value: V)

  /** The library calls applied to a line, and the record normalizer. */
  datatype Parser<!V, !E> = Parser(classify: seq<byte> -> LineKind<V>, normalize: V -> Option<E>) {
    function EventOf(line: seq<byte>): Option<E> {
      match classify(line)
      case Blank => None
      case Malformed => None
      case Record(value) => normalize(value)
    }
  }

  function EventsOfLines<V, E>(parser: Parser<V, E>, lines: seq<seq<byte>>): seq<E> {
    if lines == [] then []
    else match parser.EventOf(Last(lines))
      case None => EventsOfLines(parser, DropLast(lines))
      case Some(event) => EventsOfLines(parser, DropLast(lines)) + [event]
  }

  /** The meaning of a transcript: the events of its complete lines. */
  function EventsIn<V, E>(parser: Parser<V, E>, text: seq<byte>): seq<E> {
    EventsOfLines(parser, Complete(text))
  }

  lemma {:induction false} EventsOfLinesAppend<V, E>(parser: Parser<V, E>, a: seq<seq<byte>>, b: seq<seq<byte>>)
    ensures EventsOfLines(parser, a + b) == EventsOfLines(parser, a) + EventsOfLines(parser, b)
  {
    if b == [] {
      assert a + b == a;
    } else {
      assert DropLast(a + b) == a + DropLast(b);
      EventsOfLinesAppend(parser, a, DropLast(b));
    }
  }

  /** Parsing in two chunks, carrying the unterminated rest over, loses and repeats nothing. */
  lemma EventsInAppend<V, E>(parser: Parser<V, E>, a: seq<byte>, b: seq<byte>)
    ensures EventsIn(parser, a + b) == EventsIn(parser, a) + EventsIn(parser, Rest(a) + b)
  {
    CompleteAppend(a, b);
    EventsOfLinesAppend(parser, Complete(a), Complete(Rest(a) + b));
  }

  /** One more line, or the unterminated end, behind whole lines. */
  lemma NextLineAdds<V, E>(parser: Parser<V, E>, before: seq<byte>, line: seq<byte>)
    requires Rest(before) == []
    requires line != [] && NewlineFree(DropLast(line))
    ensures Last(line) != NEWLINE ==>
              Rest(before + line) == line && EventsIn(parser, before + line) == EventsIn(parser, before)
    ensures Last(line) == NEWLINE ==>
              && Rest(before + line) == []
              && EventsIn(parser, before + line) == EventsIn(parser, before) + EventsOfLines(parser, [line])
  {
    RestAppend(before, line);
    EventsInAppend(parser, before, line);
    assert [] + line == line && line == DropLast(line) + [Last(line)];
    if Last(line) == NEWLINE {
      SingleLine(DropLast(line));
    } else {
      NoNewlineNoLines(line);
    }
  }

  /** What the line from `start` to `end` adds to the events of the bytes before it. */
  lemma LineTaken<V, E>(parser: Parser<V, E>, buffer: seq<byte>, start: nat, end: nat)
    requires start < end <= |buffer| && Rest(buffer[..start]) == []
    requires NewlineFree(buffer[start..end - 1]) && (end == |buffer| || buffer[end - 1] == NEWLINE)
    ensures buffer[end - 1] != NEWLINE ==>
              buffer[start..] == Rest(buffer) && EventsIn(parser, buffer) == EventsIn(parser, buffer[..start])
    ensures buffer[end - 1] == NEWLINE ==>
              && Rest(buffer[..end]) == []
              && EventsIn(parser, buffer[..end]) ==
                 match parser.EventOf(buffer[start..end])
                 case None => EventsIn(parser, buffer[..start])
                 case Some(event) => EventsIn(parser, buffer[..start]) + [event]
  {
    var before, line := buffer[..start], buffer[start..end];
    assert DropLast(line) == buffer[start..end - 1] && Last(line) == buffer[end - 1];
    assert buffer[..end] == before + line;
    NextLineAdds(parser, before, line);
    if Last(line) == NEWLINE {
      assert DropLast([line]) == [] && EventsOfLines(parser, []) == [];
      assert EventsIn(parser, before) + [] == EventsIn(parser, before);
    } else {
      assert buffer[..end] == buffer && buffer[start..] == line;
    }
  }

  /** One step of `split_inclusive`: the end of the line starting at `start`. */
  method NextLineEnd(buffer: seq<byte>, start: nat) returns (end: nat)
    requires start < |buffer|
    ensures start < end <= |buffer|
    ensures NewlineFree(buffer[start..end - 1])
    ensures end == |buffer| || buffer[end - 1] == NEWLINE
  {
    end := start;
    while end + 1 < |buffer| && buffer[end] != NEWLINE
      invariant start <= end < |buffer|
      invariant forall i | start <= i < end :: buffer[i] != NEWLINE
    {
      end := end + 1;
    }
    end := end + 1;
  }

  method ParseTranscriptEvents<V, E>(parser: Parser<V, E>, buffer: seq<byte>) returns (consumed: nat, events: seq<E>)
    ensures consumed <= |buffer| && buffer[consumed..] == Rest(buffer)
    ensures events == EventsIn(parser, buffer)
  {
    consumed := 0;
    events := [];
    while consumed < |buffer|
      invariant consumed <= |buffer|
      invariant Rest(buffer[..consumed]) == []
      invariant events == EventsIn(parser, buffer[..consumed])
    {
      var end := NextLineEnd(buffer, consumed);
      var line := buffer[consumed..end];
      LineTaken(parser, buffer, consumed, end);
      if Last(line) != NEWLINE {
        return;
      }
      consumed := end;
      match parser.EventOf(line) {
        case None =>
        case Some(event) => events := events + [event];
      }
    }
    assert buffer[..consumed] == buffer;
  }

  /** What the reader has been shown of a file, for the specification only:
      the bytes of the history scan, the bytes of every earlier incarnation of
      the file, the bytes of the present one, and the events handed out. */
  datatype History<E> = History(scanned: seq<byte>, closed: seq<seq<byte>>, current: seq<byte>, delivered: seq<E>)

  /** The state of one tracked transcript. */
  datatype Tail<E> = Tail(offset: nat, partialLine: seq<byte>, pending: seq<E>, history: History<E>)

  /** What one poll finds on disk. The length is read before the contents, so
      the file may change in between; `content` is the file at the second read. */
  datatype Look =
    | OpenFails
    | ReadFails(length: nat)
    | Reads(length: nat, content: seq<byte>)

  datatype Outcome<+E> = Emitted(event: E) | Quiet | Failed

  /** The bytes from `offset` to the end: nothing when the file is shorter. */
  function From(content: seq<byte>, offset: nat): seq<byte> {
    if offset <= |content| then content[offset..] else []
  }

  function NewTail<E>(): Tail<E> {
    Tail(0, [], [], History([], [], [], []))
  }

  /** The state after the history scan has read `content`. */
  function Scanned<E>(content: seq<byte>): Tail<E> {
    Tail(|content|, Rest(content), [], History(content, [], content, []))
  }

  function Truncated<E>(t: Tail<E>): Tail<E> {
    Tail(0, [], [], t.history.(closed := t.history.closed + [t.history.current], current := []))
  }

  /** Starts over when the file has become shorter than what was read. */
  function Rebased<E>(t: Tail<E>, length: nat): Tail<E> {
    if t.offset > length then Truncated(t) else t
  }

  function Absorb<V, E>(parser: Parser<V, E>, t: Tail<E>, appended: seq<byte>): (Tail<E>, Outcome<E>) {
    var history := t.history.(current := t.history.current + appended);
    var buffer := t.partialLine + appended;
    var events := EventsIn(parser, buffer);
    if events == [] then
      (Tail(t.offset + |appended|, Rest(buffer), t.pending, history), Quiet)
    else
      (Tail(t.offset + |appended|, Rest(buffer), t.pending + events[1..],
            history.(delivered := history.delivered + [events[0]])),
       Emitted(events[0]))
  }

  /** One call of `read_appended_event`. */
  function Poll<V, E>(parser: Parser<V, E>, t: Tail<E>, look: Look): (Tail<E>, Outcome<E>) {
    if t.pending != [] then
      (t.(pending := t.pending[1..], history := t.history.(delivered := t.history.delivered + [t.pending[0]])),
       Emitted(t.pending[0]))
    else match look
      case OpenFails => (t, Failed)
      case ReadFails(length) => (Rebased(t, length), Failed)
      case Reads(length, content) =>
        var base := Rebased(t, length);
        var appended := From(content, base.offset);
        if appended == [] then (base, Quiet) else Absorb(parser, base, appended)
  }

  function EventsOfEach<V, E>(parser: Parser<V, E>, texts: seq<seq<byte>>): seq<E> {
    if texts == [] then []
    else EventsOfEach(parser, DropLast(texts)) + EventsIn(parser, Last(texts))
  }

  /** The events of every incarnation of the file, in order. */
  function EventsSeen<V, E>(parser: Parser<V, E>, history: History<E>): seq<E> {
    EventsOfEach(parser, history.closed) + EventsIn(parser, history.current)
  }

  /** The reader is in step with what it has been shown: its position and its
      partial line are those of the bytes shown, and the events of the scan,
      those handed out and those waiting are exactly the events shown. */
  ghost predicate InStep<V, E>(parser: Parser<V, E>, t: Tail<E>) {
    && t.offset == |t.history.current|
    && t.partialLine == Rest(t.history.current)
    && EventsIn(parser, t.history.scanned) + t.history.delivered + t.pending == EventsSeen(parser, t.history)
  }

  lemma ScanIsInStep<V, E>(parser: Parser<V, E>, content: seq<byte>)
    ensures InStep(parser, Scanned(content))
    ensures InStep(parser, NewTail())
  {
    var t: Tail<E> := Scanned(content);
    assert EventsSeen(parser, t.history) == EventsIn(parser, content);
  }

  lemma RebaseKeepsStep<V, E>(parser: Parser<V, E>, t: Tail<E>, length: nat)
    requires InStep(parser, t) && t.pending == []
    ensures InStep(parser, Rebased(t, length))
  {
    var h := t.history;
    if t.offset > length {
      assert DropLast(h.closed + [h.current]) == h.closed;
      assert EventsIn(parser, []) == [];
    }
  }

  lemma Regroup<E>(shown: seq<E>, delivered: seq<E>, earlier: seq<E>, now: seq<E>, added: seq<E>)
    requires shown + delivered + [] == earlier + now
    ensures added == [] ==> shown + delivered + [] == earlier + (now + added)
    ensures added != [] ==> shown + (delivered + [added[0]]) + ([] + added[1..]) == earlier + (now + added)
  {
    assert shown + delivered + [] == shown + delivered;
    assert earlier + (now + added) == (earlier + now) + added;
    if added != [] {
      assert added == [added[0]] + added[1..];
      assert shown + (delivered + [added[0]]) + ([] + added[1..]) == (shown + delivered) + added;
    }
  }

  lemma AbsorbKeepsStep<V, E>(parser: Parser<V, E>, t: Tail<E>, appended: seq<byte>)
    requires InStep(parser, t) && t.pending == []
    ensures InStep(parser, Absorb(parser, t, appended).0)
  {
    var h := t.history;
    var added := EventsIn(parser, t.partialLine + appended);
    RestAppend(h.current, appended);
    EventsInAppend(parser, h.current, appended);
    Regroup(EventsIn(parser, h.scanned), h.delivered,
            EventsOfEach(parser, h.closed), EventsIn(parser, h.current), added);
  }

  /** Whatever the file does between polls, a poll keeps the reader in step,
      and what it hands out is the next event owed. */
  lemma PollKeepsStep<V, E>(parser: Parser<V, E>, t: Tail<E>, look: Look)
    requires InStep(parser, t)
    ensures InStep(parser, Poll(parser, t, look).0)
    ensures Poll(parser, t, look).0.history.scanned == t.history.scanned
    ensures match Poll(parser, t, look).1
            case Emitted(event) => Poll(parser, t, look).0.history.delivered == t.history.delivered + [event]
            case Quiet => Poll(parser, t, look).0.history.delivered == t.history.delivered && t.pending == []
            case Failed => Poll(parser, t, look).0.history.delivered == t.history.delivered && t.pending == []
  {
    if t.pending != [] {
      var h := t.history;
      var shown := EventsIn(parser, h.scanned);
      assert shown + (h.delivered + [t.pending[0]]) + t.pending[1..] == shown + h.delivered + t.pending;
    } else if !look.OpenFails? {
      RebaseKeepsStep(parser, t, look.length);
      if look.Reads? {
        var base := Rebased(t, look.length);
        AbsorbKeepsStep(parser, base, From(look.content, base.offset));
      }
    }
  }

  ghost predicate Extends<E>(t: Tail<E>, look: Look) {
    match look
    case OpenFails => true
    case ReadFails(length) => |t.history.current| <= length
    case Reads(length, content) => |t.history.current| <= length && t.history.current <= content
  }

  /** Without appended bytes there is nothing new behind the last newline. */
  lemma NothingIn<V, E>(parser: Parser<V, E>, text: seq<byte>, appended: seq<byte>)
    requires appended == []
    ensures EventsIn(parser, Rest(text) + appended) == []
  {
    RestIsNewlineFree(text);
    NoNewlineNoLines(Rest(text));
    assert Rest(text) + appended == Rest(text);
  }

  lemma GrowthEmitsExactlyWhen<V, E>(parser: Parser<V, E>, t: Tail<E>, look: Look)
    requires InStep(parser, t) && t.pending == [] && look.Reads? && Extends(t, look)
    ensures Poll(parser, t, look).1.Emitted? <==>
            EventsIn(parser, look.content) != EventsIn(parser, t.history.current)
  {
    var appended := From(look.content, t.offset);
    assert t.history.current + appended == look.content;
    EventsInAppend(parser, t.history.current, appended);
    if appended == [] {
      NothingIn(parser, t.history.current, appended);
    }
  }

  lemma TruncationEmitsExactlyWhen<V, E>(parser: Parser<V, E>, t: Tail<E>, look: Look)
    requires t.pending == [] && look.Reads? && look.length < t.offset
    ensures Poll(parser, t, look).1.Emitted? <==> EventsIn(parser, look.content) != []
  {
    assert From(look.content, 0) == look.content && [] + look.content == look.content;
    if look.content == [] {
      NothingIn(parser, [], look.content);
    }
  }

  /** A poll gives an event if and only if one was waiting or the file has a new complete record. */
  lemma EmitsExactlyWhen<V, E>(parser: Parser<V, E>, t: Tail<E>, look: Look)
    requires InStep(parser, t)
    ensures t.pending != [] ==> Poll(parser, t, look).1 == Emitted(t.pending[0])
    ensures t.pending == [] && Extends(t, look) && look.Reads? ==>
              (Poll(parser, t, look).1.Emitted? <==>
               EventsIn(parser, look.content) != EventsIn(parser, t.history.current))
    ensures t.pending == [] && look.Reads? && look.length < t.offset ==>
              (Poll(parser, t, look).1.Emitted? <==> EventsIn(parser, look.content) != [])
    ensures t.pending == [] ==> (Poll(parser, t, look).1.Failed? <==> !look.Reads?)
  {
    if t.pending == [] && look.Reads? {
      if look.length < t.offset {
        TruncationEmitsExactlyWhen(parser, t, look);
      } else if Extends(t, look) {
        GrowthEmitsExactlyWhen(parser, t, look);
      }
    }
  }

  function PollAll<V, E>(parser: Parser<V, E>, t: Tail<E>, looks: seq<Look>): Tail<E> {
    if looks == [] then t
    else Poll(parser, PollAll(parser, t, DropLast(looks)), Last(looks)).0
  }

  /** The file is only ever appended to: every poll finds an extension of what
      the reader already has, at both of its reads. */
  ghost predicate OnlyGrows<V, E>(parser: Parser<V, E>, t: Tail<E>, looks: seq<Look>)
    decreases |looks|
  {
    looks == [] || (
      && OnlyGrows(parser, t, DropLast(looks))
      && Extends(PollAll(parser, t, DropLast(looks)), Last(looks)))
  }

  /** Chunk-invariant tailing in every environment: over any run from a scan,
      nothing is lost, repeated or reordered. */
  lemma {:induction false} RunKeepsStep<V, E>(parser: Parser<V, E>, scanned: seq<byte>, looks: seq<Look>)
    ensures var t := PollAll(parser, Scanned(scanned), looks);
            InStep(parser, t) && t.history.scanned == scanned
  {
    ScanIsInStep(parser, scanned);
    if looks != [] {
      var before := PollAll(parser, Scanned(scanned), DropLast(looks));
      RunKeepsStep(parser, scanned, DropLast(looks));
      PollKeepsStep(parser, before, Last(looks));
    }
  }

  lemma GrowthIsAbsorbed<V, E>(parser: Parser<V, E>, t: Tail<E>, look: Look)
    requires InStep(parser, t) && Extends(t, look)
    ensures var after := Poll(parser, t, look).0;
            && after.history.closed == t.history.closed
            && t.history.current <= after.history.current
            && t.history.delivered <= after.history.delivered
            && (look.Reads? ==> after.history.current <= look.content)
  {
  }

  /** From any reader in step, a file that only grows is read on without a restart. */
  lemma {:induction false} GrowthNeverRestarts<V, E>(parser: Parser<V, E>, t: Tail<E>, looks: seq<Look>)
    requires InStep(parser, t) && OnlyGrows(parser, t, looks)
    ensures var u := PollAll(parser, t, looks);
            && InStep(parser, u)
            && u.history.scanned == t.history.scanned && u.history.closed == t.history.closed
            && t.history.current <= u.history.current && t.history.delivered <= u.history.delivered
            && (looks != [] && Last(looks).Reads? ==> u.history.current <= Last(looks).content)
  {
    if looks != [] {
      var before := PollAll(parser, t, DropLast(looks));
      GrowthNeverRestarts(parser, t, DropLast(looks));
      PollKeepsStep(parser, before, Last(looks));
      GrowthIsAbsorbed(parser, before, Last(looks));
    }
  }

  /** Scan-to-follow handoff: on an append-only file, the events of the scan,
      then those followed, then those waiting are one parse of the bytes read,
      even when the scan or a poll ended in the middle of a line. */
  lemma {:induction false} FollowIsOneParse<V, E>(parser: Parser<V, E>, scanned: seq<byte>, looks: seq<Look>)
    requires OnlyGrows(parser, Scanned(scanned), looks)
    ensures var t := PollAll(parser, Scanned(scanned), looks);
            && EventsIn(parser, scanned) + t.history.delivered + t.pending == EventsIn(parser, t.history.current)
            && t.partialLine == Rest(t.history.current)
            && t.offset == |t.history.current|
            && scanned <= t.history.current
    ensures looks != [] && Last(looks).Reads? ==>
              PollAll(parser, Scanned(scanned), looks).history.current <= Last(looks).content
  {
    RunKeepsStep(parser, scanned, looks);
    var t := PollAll(parser, Scanned(scanned), looks);
    ScanIsInStep(parser, scanned);
    GrowthNeverRestarts(parser, Scanned(scanned), looks);
    assert EventsSeen(parser, t.history) == EventsIn(parser, t.history.current);
  }

  /** After a poll that reads, the reader has the file's present contents if
      and only if the file had become shorter or still begins with what was
      read before: a rewrite that is not shorter goes unnoticed. */
  lemma SynchronizedExactlyWhen<V, E>(parser: Parser<V, E>, t: Tail<E>, look: Look)
    requires InStep(parser, t) && t.pending == [] && look.Reads?
    ensures Poll(parser, t, look).0.history.current == look.content
            <==> |t.history.current| > look.length || t.history.current <= look.content
  {
    var old' := t.history.current;
    if t.offset <= look.length && |old'| <= |look.content| {
      assert old' + look.content[|old'|..] == look.content <==> old' <= look.content;
    }
  }

  /** The poll that notices a truncation reads the new contents from byte 0, as
      if the transcript had just been discovered. */
  lemma TruncationIsNoticed<V, E>(parser: Parser<V, E>, t: Tail<E>, look: Look)
    requires InStep(parser, t) && t.pending == []
    requires look.Reads? && look.length < t.offset
    ensures var after, anew := Poll(parser, t, look), Poll(parser, NewTail<E>(), look);
            && after.1 == anew.1
            && after.0.offset == anew.0.offset
            && after.0.partialLine == anew.0.partialLine
            && after.0.pending == anew.0.pending
            && after.0.history.current == look.content
            && after.0.history.delivered + after.0.pending
               == t.history.delivered + EventsIn(parser, look.content)
  {
    assert [] + look.content == look.content && t.history.delivered + [] == t.history.delivered;
    var events := EventsIn(parser, look.content);
    if events != [] {
      assert t.history.delivered + [events[0]] + events[1..] == t.history.delivered + events;
    }
  }

  /** What was handed out before is what the earlier files gave beyond the scan. */
  lemma TruncationClosesFile<V, E>(parser: Parser<V, E>, t: Tail<E>, look: Look)
    requires InStep(parser, t) && t.pending == []
    requires look.Reads? && look.length < t.offset
    ensures var after := Poll(parser, t, look).0;
            && t.history.delivered <= after.history.delivered
            && after.history.scanned == t.history.scanned
            && EventsIn(parser, t.history.scanned) + t.history.delivered ==
               EventsOfEach(parser, after.history.closed)
  {
    var h := t.history;
    assert DropLast(h.closed + [h.current]) == h.closed;
    assert EventsIn(parser, h.scanned) + h.delivered + [] == EventsIn(parser, h.scanned) + h.delivered;
  }

  lemma SamePrefix<E>(scanned: seq<E>, before: seq<E>, delivered: seq<E>, pending: seq<E>, closed: seq<E>,
                      current: seq<E>)
    requires scanned + delivered + pending == closed + current && scanned + before == closed
    ensures delivered + pending == before + current
  {
    AppendAssociative(scanned, delivered, pending);
    AppendAssociative(scanned, before, current);
    assert (scanned + (delivered + pending))[|scanned|..] == delivered + pending;
    assert (scanned + (before + current))[|scanned|..] == before + current;
  }

  /** From the poll that notices a truncation on, however the file grows from
      there, the events handed out and those waiting are exactly those of the
      new contents from byte 0, behind what was handed out before. */
  lemma TruncationStartsOver<V, E>(parser: Parser<V, E>, t: Tail<E>, look: Look, looks: seq<Look>)
    requires InStep(parser, t) && t.pending == []
    requires look.Reads? && look.length < t.offset
    requires OnlyGrows(parser, Poll(parser, t, look).0, looks)
    ensures var u := PollAll(parser, Poll(parser, t, look).0, looks);
            && t.history.delivered <= u.history.delivered
            && u.history.delivered + u.pending == t.history.delivered + EventsIn(parser, u.history.current)
            && u.offset == |u.history.current| && u.partialLine == Rest(u.history.current)
            && look.content <= u.history.current
            && (looks != [] && Last(looks).Reads? ==> u.history.current <= Last(looks).content)
  {
    var after := Poll(parser, t, look).0;
    TruncationIsNoticed(parser, t, look);
    PollKeepsStep(parser, t, look);
    GrowthNeverRestarts(parser, after, looks);
    var u := PollAll(parser, after, looks);
    TruncationClosesFile(parser, t, look);
    SamePrefix(EventsIn(parser, t.history.scanned), t.history.delivered, u.history.delivered, u.pending,
               EventsOfEach(parser, u.history.closed), EventsIn(parser, u.history.current));
  }

  /** The failing family has members: a file of one line replaced by a record
      of the same length, which is never reported. */
  lemma SameLengthRewriteIsMissed<V, E>(parser: Parser<V, E>, before: seq<byte>, after: seq<byte>, event: E)
    requires NewlineFree(before) && NewlineFree(after) && |before| == |after|
    requires parser.EventOf(after + [NEWLINE]) == Some(event)
    ensures var t: Tail<E> := Scanned(before + [NEWLINE]);
            var look := Reads(|after| + 1, after + [NEWLINE]);
            && Poll(parser, t, look) == (t, Quiet)
            && EventsIn(parser, look.content) == [event]
  {
    SingleLine(before);
    SingleLine(after);
    var line := after + [NEWLINE];
    assert From(line, |before| + 1) == [];
    assert DropLast([line]) == [] && EventsOfLines(parser, [line]) == [event];
  }

  /** A transcript as the observer holds it. */
  class TrackedTranscript<V, E> {
    const path: Path
    var offset: nat
    var partialLine: seq<byte>
    var pendingEvents: seq<E>
    ghost var history: History<E>

    constructor (path: Path)
      ensures this.path == path && Model() == NewTail()
    {
      this.path := path;
      offset := 0;
      partialLine := [];
      pendingEvents := [];
      history := History([], [], [], []);
    }

    ghost function Model(): Tail<E>
      reads this
    {
      Tail(offset, partialLine, pendingEvents, history)
    }

    /** The history scan of one file, once its bytes have been read. */
    method Scan(parser: Parser<V, E>, content: seq<byte>) returns (events: seq<E>)
      modifies this
      ensures Model() == Scanned(content)
      ensures events == EventsIn(parser, content)
    {
      var consumed, parsed := ParseTranscriptEvents(parser, content);
      offset := |content|;
      partialLine := content[consumed..];
      pendingEvents := [];
      history := History(content, [], content, []);
      events := parsed;
    }

    /** Reads the bytes appended since the last poll. */
    method AbsorbAppended(parser: Parser<V, E>, appended: seq<byte>) returns (outcome: Outcome<E>)
      modifies this
      ensures (Model(), outcome) == Absorb(parser, old(Model()), appended)
    {
      var buffer := partialLine + appended;
      var consumed, events := ParseTranscriptEvents(parser, buffer);
      outcome := Quiet;
      history := history.(current := history.current + appended);
      if events != [] {
        outcome := Emitted(events[0]);
        pendingEvents := pendingEvents + events[1..];
        history := history.(delivered := history.delivered + [events[0]]);
      }
      offset := offset + |appended|;
      partialLine := buffer[consumed..];
    }

    method ReadAppendedEvent(parser: Parser<V, E>, look: Look) returns (outcome: Outcome<E>)
      modifies this
      ensures (Model(), outcome) == Poll(parser, old(Model()), look)
    {
      if pendingEvents != [] {
        var event := pendingEvents[0];
        pendingEvents := pendingEvents[1..];
        history := history.(delivered := history.delivered + [event]);
        return Emitted(event);
      }
      if look.OpenFails? {
        return Failed;
      }
      if offset > look.length {
        offset := 0;
        partialLine := [];
        pendingEvents := [];
        history := history.(closed := history.closed + [history.current], current := []);
      }
      if look.ReadFails? {
        return Failed;
      }
      var appended := From(look.content, offset);
      if appended == [] {
        return Quiet;
      }
      outcome := AbsorbAppended(parser, appended);
    }
  }
}

/** The Codex rollout reader of `observability_read_model.rs`: the last events
    of a JSONL file, each traceable to its line. */
module RolloutReader {
  import opened Bytes
  import opened Lines
  import opened Naturals
  import opened Sequences
  import opened Wrappers
  import Decimal

  const EVENT_LIMIT: nat := 160

  /** What a payload is normalised from; summaries come already labelled and cut. */
  datatype Payload =
    | Message(text: Option<string>)
    | FunctionCall(summary: string)
    | FunctionCallOutput(summary: string)
    | OtherPayload

  datatype Body = SessionMeta(id: Option<string>, cwd: Option<string>) | ResponseItem(payload: Payload) | OtherBody

  /** One JSON value of the file; a timestamp that is missing or unreadable counts as zero. */
  datatype Value = Value(occurredAtMs: nat, body: Body)

  /** UTF-8 and JSON decoding of one line. */
  datatype Decoder = Decoder(
    decodes: seq<byte> -> bool,
    blank: seq<byte> -> bool,
    json: seq<byte> -> Option<Value>)

  datatype Event = Event(
    eventId: string,
    sessionId: string,
    path: string,
    lineIndex: nat,
    eventKind: string,
    summary: string,
    occurredAtMs: nat)

  datatype Session = Session(
    sessionId: string,
    cwd: Option<string>,
    startedAtMs: nat,
    completedAtMs: nat,
    eventCount: nat,
    events: seq<Event>)

  function KindAndSummary(payload: Payload): Option<(string, string)> {
    match payload
    case Message(text) => if text.Some? then Some(("message", text.value)) else None
    case FunctionCall(summary) => Some(("tool", summary))
    case FunctionCallOutput(summary) => Some(("tool_result", summary))
    case OtherPayload => None
  }

  function ThreadName(threadId: Option<string>): string {
    if threadId.Some? then threadId.value else "unknown"
  }

  function SessionName(threadId: string): string {
    "codex-thread:" + threadId
  }

  function EventId(threadId: string, lineIndex: nat): string {
    SessionName(threadId) + ":" + Decimal.Render(lineIndex)
  }

  function Normalize(threadId: string, lineIndex: nat, occurredAtMs: nat, path: string,
                     payload: Payload): Option<Event>
  {
    match KindAndSummary(payload)
    case None => None
    case Some((kind, summary)) =>
      Some(Event(EventId(threadId, lineIndex), SessionName(threadId), path, lineIndex, kind, summary, occurredAtMs))
  }

  // What the reader takes from the lines read so far.

  /** A line that cannot be decoded, is blank or is no JSON yields nothing. */
  function ValueOf(d: Decoder, line: seq<byte>): Option<Value> {
    if !d.decodes(line) || d.blank(line) then None else d.json(line)
  }

  /** What the latest `session_meta` says. */
  function Meta(d: Decoder, lines: seq<seq<byte>>): (Option<string>, Option<string>) {
    if lines == [] then (None, None)
    else match ValueOf(d, Last(lines))
      case Some(Value(_, SessionMeta(id, cwd))) => (id, cwd)
      case _ => Meta(d, DropLast(lines))
  }

  function Started(d: Decoder, lines: seq<seq<byte>>): nat {
    if lines == [] then 0
    else
      var before := Started(d, DropLast(lines));
      match ValueOf(d, Last(lines))
      case Some(v) => if before == 0 then v.occurredAtMs else before
      case None => before
  }

  function Completed(d: Decoder, lines: seq<seq<byte>>): nat {
    if lines == [] then 0
    else
      var before := Completed(d, DropLast(lines));
      match ValueOf(d, Last(lines))
      case Some(v) => Max(before, v.occurredAtMs)
      case None => before
  }

  function EventOf(d: Decoder, path: string, before: seq<seq<byte>>, line: seq<byte>): Option<Event> {
    match ValueOf(d, line)
    case Some(Value(at, ResponseItem(payload))) =>
      Normalize(ThreadName(Meta(d, before).0), |before|, at, path, payload)
    case _ => None
  }

  /** Every normalised event of the file, in file order. */
  function AllEvents(d: Decoder, path: string, lines: seq<seq<byte>>): seq<Event> {
    if lines == [] then []
    else
      var before := AllEvents(d, path, DropLast(lines));
      match EventOf(d, path, DropLast(lines), Last(lines))
      case Some(e) => before + [e]
      case None => before
  }

  function ReadRollout(d: Decoder, path: string, workspaceRoot: Option<string>, file: seq<byte>): Option<Session> {
    var lines := AllLines(file);
    var (threadId, cwd) := Meta(d, lines);
    var events := TakeLast(EVENT_LIMIT, AllEvents(d, path, lines));
    if threadId.None? || events == [] || (workspaceRoot.Some? && cwd != workspaceRoot) then None
    else Some(Session(SessionName(threadId.value), cwd, Max(Started(d, lines), events[0].occurredAtMs),
                      Max(Completed(d, lines), Last(events).occurredAtMs), |events|, events))
  }

  lemma OneLineMore(d: Decoder, path: string, lines: seq<seq<byte>>, i: nat)
    requires i < |lines|
    ensures var before, value := lines[..i], ValueOf(d, lines[i]);
            && Meta(d, lines[..i + 1]) ==
               (match value case Some(Value(_, SessionMeta(id, cwd))) => (id, cwd) case _ => Meta(d, before))
            && Started(d, lines[..i + 1]) ==
               (match value
                case Some(v) => if Started(d, before) == 0 then v.occurredAtMs else Started(d, before)
                case None => Started(d, before))
            && Completed(d, lines[..i + 1]) ==
               (match value
                case Some(v) => Max(Completed(d, before), v.occurredAtMs)
                case None => Completed(d, before))
            && AllEvents(d, path, lines[..i + 1]) ==
               (match EventOf(d, path, before, lines[i])
                case Some(e) => AllEvents(d, path, before) + [e]
                case None => AllEvents(d, path, before))
  {
    assert DropLast(lines[..i + 1]) == lines[..i];
  }

  lemma WindowMoves(all: seq<Event>, e: Event)
    ensures TakeLast(EVENT_LIMIT, all + [e]) ==
            var grown := TakeLast(EVENT_LIMIT, all) + [e];
            if |grown| > EVENT_LIMIT then grown[1..] else grown
  {
  }

  method ReadCodexRolloutSession(d: Decoder, path: string, workspaceRoot: Option<string>, file: seq<byte>)
    returns (r: Option<Session>)
    ensures r == ReadRollout(d, path, workspaceRoot, file)
  {
    var lines := AllLines(file);
    var threadId: Option<string>, cwd: Option<string> := None, None;
    var startedAtMs, completedAtMs := 0, 0;
    var events: seq<Event> := [];
    for lineIndex := 0 to |lines|
      invariant (threadId, cwd) == Meta(d, lines[..lineIndex])
      invariant startedAtMs == Started(d, lines[..lineIndex])
      invariant completedAtMs == Completed(d, lines[..lineIndex])
      invariant events == TakeLast(EVENT_LIMIT, AllEvents(d, path, lines[..lineIndex]))
    {
      ghost var before := lines[..lineIndex];
      OneLineMore(d, path, lines, lineIndex);
      var value := ValueOf(d, lines[lineIndex]);
      if value.None? {
        continue;
      }
      var at := value.value.occurredAtMs;
      if at > 0 {
        if startedAtMs == 0 {
          startedAtMs := at;
        }
        completedAtMs := Max(completedAtMs, at);
      }
      match value.value.body {
        case SessionMeta(newId, newCwd) =>
          threadId, cwd := newId, newCwd;
        case ResponseItem(payload) =>
          var event := Normalize(ThreadName(threadId), lineIndex, at, path, payload);
          if event.Some? {
            WindowMoves(AllEvents(d, path, before), event.value);
            events := events + [event.value];
            if |events| > EVENT_LIMIT {
              events := events[1..];
            }
          }
        case OtherBody =>
      }
    }
    assert lines[..|lines|] == lines;
    if threadId.None? || events == [] || (workspaceRoot.Some? && cwd != workspaceRoot) {
      return None;
    }
    startedAtMs := Max(startedAtMs, events[0].occurredAtMs);
    completedAtMs := Max(completedAtMs, Last(events).occurredAtMs);
    r := Some(Session(SessionName(threadId.value), cwd, startedAtMs, completedAtMs, |events|, events));
  }

  // Which lines the events come from.

  /** The line of an event holds a record that normalises to this event. */
  ghost predicate ProducedBy(d: Decoder, path: string, lines: seq<seq<byte>>, e: Event) {
    && e.lineIndex < |lines|
    && EventOf(d, path, lines[..e.lineIndex], lines[e.lineIndex]) == Some(e)
  }

  lemma ProducedOneLineMore(d: Decoder, path: string, lines: seq<seq<byte>>, e: Event)
    requires lines != []
    ensures ProducedBy(d, path, lines, e) <==>
            ProducedBy(d, path, DropLast(lines), e) || EventOf(d, path, DropLast(lines), Last(lines)) == Some(e)
  {
    var init := DropLast(lines);
    if e.lineIndex < |init| {
      assert init[..e.lineIndex] == lines[..e.lineIndex];
    }
    assert lines[..|lines| - 1] == init;
  }

  /** The events are exactly what the lines produce, in ascending line order. */
  lemma {:induction false} EventsAreTheirLines(d: Decoder, path: string, lines: seq<seq<byte>>)
    ensures forall e :: e in AllEvents(d, path, lines) <==> ProducedBy(d, path, lines, e)
    ensures forall i, j | 0 <= i < j < |AllEvents(d, path, lines)| ::
              AllEvents(d, path, lines)[i].lineIndex < AllEvents(d, path, lines)[j].lineIndex
  {
    if lines != [] {
      var init := DropLast(lines);
      EventsAreTheirLines(d, path, init);
      var before := AllEvents(d, path, init);
      forall i | 0 <= i < |before| ensures before[i].lineIndex < |init| {
        assert before[i] in before;
      }
      forall e ensures e in AllEvents(d, path, lines) <==> ProducedBy(d, path, lines, e) {
        ProducedOneLineMore(d, path, lines, e);
      }
    }
  }

  /** `read_jsonl_value_at_line`. */
  function ValueAtLine(d: Decoder, file: seq<byte>, target: nat): Option<Value> {
    var lines := AllLines(file);
    if target < |lines| && d.decodes(lines[target]) then d.json(lines[target]) else None
  }

  method ReadJsonlValueAtLine(d: Decoder, file: seq<byte>, target: nat) returns (r: Option<Value>)
    ensures r == ValueAtLine(d, file, target)
  {
    var lines := AllLines(file);
    for lineIndex := 0 to |lines|
      invariant lineIndex <= target
    {
      if lineIndex != target {
        continue;
      }
      if !d.decodes(lines[lineIndex]) {
        return None;
      }
      return d.json(lines[lineIndex]);
    }
    r := None;
  }

  lemma KeptIsProduced(d: Decoder, path: string, root: Option<string>, file: seq<byte>, e: Event)
    requires ReadRollout(d, path, root, file).Some? && e in ReadRollout(d, path, root, file).value.events
    ensures ProducedBy(d, path, AllLines(file), e)
  {
    EventsAreTheirLines(d, path, AllLines(file));
    assert e in AllEvents(d, path, AllLines(file));
  }

  /** Each event of a session that was read leads back to the record it was
      made from: the value found is its own line's, and yields this event. */
  lemma LookupFindsTheRecord(d: Decoder, path: string, root: Option<string>, file: seq<byte>, e: Event)
    requires ReadRollout(d, path, root, file).Some? && e in ReadRollout(d, path, root, file).value.events
    ensures ProducedBy(d, path, AllLines(file), e)
    ensures var v := ValueAtLine(d, file, e.lineIndex);
            && v == ValueOf(d, AllLines(file)[e.lineIndex])
            && v.Some? && v.value.body.ResponseItem?
            && v.value.occurredAtMs == e.occurredAtMs
            && match v.value.body.payload
               case Message(text) => e.eventKind == "message" && text == Some(e.summary)
               case FunctionCall(summary) => e.eventKind == "tool" && e.summary == summary
               case FunctionCallOutput(summary) => e.eventKind == "tool_result" && e.summary == summary
               case OtherPayload => false
  {
    KeptIsProduced(d, path, root, file, e);
  }

  /** The thread in force when a line is read. */
  function ThreadAt(d: Decoder, lines: seq<seq<byte>>, i: nat): string
    requires i <= |lines|
  {
    ThreadName(Meta(d, lines[..i]).0)
  }

  lemma SessionIsNamedByLastThread(d: Decoder, path: string, root: Option<string>, file: seq<byte>)
    requires ReadRollout(d, path, root, file).Some?
    ensures ReadRollout(d, path, root, file).value.sessionId ==
            SessionName(ThreadAt(d, AllLines(file), |AllLines(file)|))
  {
    assert AllLines(file)[..|AllLines(file)|] == AllLines(file);
  }

  /** Appending to the file leaves every line that ended in a newline where it was. */
  lemma LookupSurvivesAppend(d: Decoder, file: seq<byte>, added: seq<byte>, target: nat)
    requires target < |Complete(file)|
    ensures ValueAtLine(d, file + added, target) == ValueAtLine(d, file, target)
  {
    CompleteAppend(file, added);
    assert Complete(file + added)[target] == Complete(file)[target];
    assert AllLines(file + added)[target] == Chomp(Complete(file)[target]) == AllLines(file)[target];
  }

  lemma IdOfProduced(d: Decoder, path: string, lines: seq<seq<byte>>, e: Event)
    requires ProducedBy(d, path, lines, e)
    ensures e.eventId == EventId(ThreadAt(d, lines, e.lineIndex), e.lineIndex)
    ensures e.sessionId == SessionName(ThreadAt(d, lines, e.lineIndex))
  {
  }

  lemma SessionNameInjective(a: string, b: string)
    requires SessionName(a) == SessionName(b)
    ensures a == b
  {
    assert a == SessionName(a)[|"codex-thread:"|..];
    assert b == SessionName(b)[|"codex-thread:"|..];
  }

  lemma EventIdInjective(a: string, i: nat, b: string, j: nat)
    requires EventId(a, i) == EventId(b, j)
    ensures a == b && i == j
  {
    Decimal.SplitAtLast(SessionName(a), Decimal.Render(i), SessionName(b), Decimal.Render(j), ':');
    SessionNameInjective(a, b);
    Decimal.RenderInjective(i, j);
  }

  /** Event ids are distinct, even when the thread id changes along the file. */
  lemma EventIdsAreDistinct(d: Decoder, path: string, root: Option<string>, file: seq<byte>, i: nat, j: nat)
    requires ReadRollout(d, path, root, file).Some?
    requires i < j < |ReadRollout(d, path, root, file).value.events|
    ensures var events := ReadRollout(d, path, root, file).value.events;
            events[i].lineIndex < events[j].lineIndex && events[i].eventId != events[j].eventId
  {
    var lines := AllLines(file);
    EventsAreTheirLines(d, path, lines);
    var all := AllEvents(d, path, lines);
    var events := ReadRollout(d, path, root, file).value.events;
    assert events == all[|all| - |events|..];
    assert events[i] in all && events[j] in all;
    assert all[|all| - |events| + i].lineIndex < all[|all| - |events| + j].lineIndex;
    IdOfProduced(d, path, lines, events[i]);
    IdOfProduced(d, path, lines, events[j]);
    if events[i].eventId == events[j].eventId {
      EventIdInjective(ThreadAt(d, lines, events[i].lineIndex), events[i].lineIndex,
                       ThreadAt(d, lines, events[j].lineIndex), events[j].lineIndex);
    }
  }

  /** A kept event names its session exactly when no later `session_meta` left another thread in force. */
  lemma EventNamesItsSessionExactlyWhen(d: Decoder, path: string, root: Option<string>, file: seq<byte>, e: Event)
    requires ReadRollout(d, path, root, file).Some? && e in ReadRollout(d, path, root, file).value.events
    ensures e.lineIndex < |AllLines(file)|
    ensures e.sessionId == ReadRollout(d, path, root, file).value.sessionId <==>
            ThreadAt(d, AllLines(file), e.lineIndex) == ThreadAt(d, AllLines(file), |AllLines(file)|)
  {
    var lines := AllLines(file);
    KeptIsProduced(d, path, root, file, e);
    IdOfProduced(d, path, lines, e);
    SessionIsNamedByLastThread(d, path, root, file);
    if e.sessionId == ReadRollout(d, path, root, file).value.sessionId {
      SessionNameInjective(ThreadAt(d, lines, e.lineIndex), ThreadAt(d, lines, |lines|));
    }
  }

  // When a file gives a session.

  predicate IsMeta(d: Decoder, line: seq<byte>) {
    ValueOf(d, line).Some? && ValueOf(d, line).value.body.SessionMeta?
  }

  /** Line `i` is the last `session_meta`, and this is what it says. */
  ghost predicate LastMeta(d: Decoder, lines: seq<seq<byte>>, i: nat, id: Option<string>, cwd: Option<string>) {
    && i < |lines| && IsMeta(d, lines[i]) && ValueOf(d, lines[i]).value.body == SessionMeta(id, cwd)
    && forall j | i < j < |lines| :: !IsMeta(d, lines[j])
  }

  lemma {:induction false} MetaIsLast(d: Decoder, lines: seq<seq<byte>>)
    ensures if exists i :: 0 <= i < |lines| && IsMeta(d, lines[i])
            then exists i: nat :: LastMeta(d, lines, i, Meta(d, lines).0, Meta(d, lines).1)
            else Meta(d, lines) == (None, None)
  {
    if lines != [] {
      var init := DropLast(lines);
      MetaIsLast(d, init);
      assert forall i | 0 <= i < |init| :: init[i] == lines[i];
      if IsMeta(d, Last(lines)) {
        assert LastMeta(d, lines, |init|, Meta(d, lines).0, Meta(d, lines).1);
      } else if exists i :: 0 <= i < |init| && IsMeta(d, init[i]) {
        var i: nat :| LastMeta(d, init, i, Meta(d, init).0, Meta(d, init).1);
        assert LastMeta(d, lines, i, Meta(d, lines).0, Meta(d, lines).1);
      }
    }
  }

  /** The last `session_meta` has this id and names this workspace. */
  ghost predicate EndsIn(d: Decoder, lines: seq<seq<byte>>, id: string, cwd: Option<string>) {
    exists i: nat :: LastMeta(d, lines, i, Some(id), cwd)
  }

  lemma EndsInExactlyWhen(d: Decoder, lines: seq<seq<byte>>, id: string, cwd: Option<string>)
    ensures EndsIn(d, lines, id, cwd) <==> Meta(d, lines) == (Some(id), cwd)
  {
    MetaIsLast(d, lines);
    if i: nat :| LastMeta(d, lines, i, Some(id), cwd) {
      var j: nat :| LastMeta(d, lines, j, Meta(d, lines).0, Meta(d, lines).1);
      assert i == j;
    }
  }

  /** A message with a text, a call or the output of one. */
  predicate Recognised(payload: Payload) {
    payload.FunctionCall? || payload.FunctionCallOutput? || (payload.Message? && payload.text.Some?)
  }

  function GivesEvent(d: Decoder): seq<byte> -> bool {
    (line: seq<byte>) =>
      match ValueOf(d, line)
      case Some(Value(_, ResponseItem(payload))) => Recognised(payload)
      case _ => false
  }

  lemma {:induction false} EventsAreCounted(d: Decoder, path: string, lines: seq<seq<byte>>)
    ensures |AllEvents(d, path, lines)| == |Filter(GivesEvent(d), lines)|
  {
    if lines != [] {
      EventsAreCounted(d, path, DropLast(lines));
    }
  }

  /** The last `session_meta` has an id, and names the workspace asked for, if any. */
  ghost predicate EndsInWorkspace(d: Decoder, lines: seq<seq<byte>>, root: Option<string>) {
    exists id, cwd :: EndsIn(d, lines, id, cwd) && (root.None? || cwd == root)
  }

  lemma EndsInWorkspaceExactlyWhen(d: Decoder, lines: seq<seq<byte>>, root: Option<string>)
    ensures EndsInWorkspace(d, lines, root) <==>
            Meta(d, lines).0.Some? && (root.None? || Meta(d, lines).1 == root)
  {
    var (id, cwd) := Meta(d, lines);
    if id.Some? {
      EndsInExactlyWhen(d, lines, id.value, cwd);
    }
    if id', cwd' :| EndsIn(d, lines, id', cwd') && (root.None? || cwd' == root) {
      EndsInExactlyWhen(d, lines, id', cwd');
    }
  }

  ghost predicate HasEvents(d: Decoder, lines: seq<seq<byte>>) {
    exists i :: 0 <= i < |lines| && GivesEvent(d)(lines[i])
  }

  lemma EventsExactlyWhen(d: Decoder, path: string, lines: seq<seq<byte>>)
    ensures AllEvents(d, path, lines) != [] <==> HasEvents(d, lines)
  {
    EventsAreCounted(d, path, lines);
    var kept := Filter(GivesEvent(d), lines);
    FilterMembers(GivesEvent(d), lines);
    if kept != [] {
      assert kept[0] in kept;
      var i :| 0 <= i < |lines| && lines[i] == kept[0];
      assert GivesEvent(d)(lines[i]);
    }
  }

  /** A file gives a session exactly when its last `session_meta` has an id and
      names the workspace asked for, if any, and some line gives an event. */
  lemma ReadsExactlyWhen(d: Decoder, path: string, root: Option<string>, file: seq<byte>)
    ensures ReadRollout(d, path, root, file).Some? <==>
            EndsInWorkspace(d, AllLines(file), root) && HasEvents(d, AllLines(file))
  {
    EndsInWorkspaceExactlyWhen(d, AllLines(file), root);
    EventsExactlyWhen(d, path, AllLines(file));
  }

  /** The session carries what that `session_meta` says, and counts the events it keeps. */
  lemma SessionIsOfLastMeta(d: Decoder, path: string, root: Option<string>, file: seq<byte>)
    requires ReadRollout(d, path, root, file).Some?
    ensures var s := ReadRollout(d, path, root, file).value;
            && (exists id :: EndsIn(d, AllLines(file), id, s.cwd) && s.sessionId == SessionName(id))
            && s.eventCount == |TakeLast(EVENT_LIMIT, Filter(GivesEvent(d), AllLines(file)))|
  {
    var lines := AllLines(file);
    EventsAreCounted(d, path, lines);
    EndsInExactlyWhen(d, lines, Meta(d, lines).0.value, Meta(d, lines).1);
  }

  // Times.

  lemma {:induction false} CompletedIsGreatest(d: Decoder, lines: seq<seq<byte>>)
    ensures forall i | 0 <= i < |lines| && ValueOf(d, lines[i]).Some? ::
              ValueOf(d, lines[i]).value.occurredAtMs <= Completed(d, lines)
    ensures Started(d, lines) <= Completed(d, lines)
    ensures Completed(d, lines) > 0 ==> Started(d, lines) > 0
    ensures Completed(d, lines) > 0 ==>
              exists i :: 0 <= i < |lines| && ValueOf(d, lines[i]).Some? &&
                          ValueOf(d, lines[i]).value.occurredAtMs == Completed(d, lines)
  {
    if lines != [] {
      var init := DropLast(lines);
      CompletedIsGreatest(d, init);
      assert forall i | 0 <= i < |init| :: init[i] == lines[i];
      assert lines[|lines| - 1] == Last(lines);
    }
  }

  function TimeOf(d: Decoder, line: seq<byte>): nat {
    match ValueOf(d, line) case Some(v) => v.occurredAtMs case None => 0
  }

  /** Line `i` is the first that has a time. */
  ghost predicate FirstTimed(d: Decoder, lines: seq<seq<byte>>, i: int) {
    && 0 <= i < |lines| && TimeOf(d, lines[i]) > 0
    && forall j | 0 <= j < i :: TimeOf(d, lines[j]) == 0
  }

  /** The first time in the file, or zero when no line has one. */
  ghost predicate FirstTime(d: Decoder, lines: seq<seq<byte>>, at: nat) {
    if at == 0 then forall i | 0 <= i < |lines| :: TimeOf(d, lines[i]) == 0
    else exists i :: FirstTimed(d, lines, i) && TimeOf(d, lines[i]) == at
  }

  lemma {:induction false} StartedIsFirst(d: Decoder, lines: seq<seq<byte>>)
    ensures FirstTime(d, lines, Started(d, lines))
  {
    if lines != [] {
      var init := DropLast(lines);
      StartedIsFirst(d, init);
      assert forall i | 0 <= i < |init| :: init[i] == lines[i];
      if Started(d, init) > 0 {
        var i :| FirstTimed(d, init, i) && TimeOf(d, init[i]) == Started(d, init);
        assert FirstTimed(d, lines, i);
      } else if Started(d, lines) > 0 {
        assert FirstTimed(d, lines, |lines| - 1);
      }
    }
  }

  /** The last 160 events in file order; the session starts at the first time of
      the file, or at its first kept event if that is later, and ends at the
      greatest time of the file, not before it starts. */
  lemma SessionSpansItsEvents(d: Decoder, path: string, root: Option<string>, file: seq<byte>)
    requires ReadRollout(d, path, root, file).Some?
    ensures var s, all := ReadRollout(d, path, root, file).value, AllEvents(d, path, AllLines(file));
            && s.events == TakeLast(EVENT_LIMIT, all)
            && s.eventCount == |s.events| && 0 < s.eventCount <= 160
            && (exists at :: FirstTime(d, AllLines(file), at) && s.startedAtMs == Max(at, s.events[0].occurredAtMs))
            && s.startedAtMs <= s.completedAtMs
            && s.completedAtMs == Completed(d, AllLines(file))
            && forall e | e in all :: e.occurredAtMs <= s.completedAtMs
  {
    var lines := AllLines(file);
    CompletedIsGreatest(d, lines);
    StartedIsFirst(d, lines);
    EventsAreTheirLines(d, path, lines);
    var s, all := ReadRollout(d, path, root, file).value, AllEvents(d, path, lines);
    forall e | e in all ensures e.occurredAtMs <= Completed(d, lines) {
      assert ProducedBy(d, path, lines, e);
      assert ValueOf(d, lines[e.lineIndex]).Some?;
    }
    assert s.events[0] in all && Last(s.events) in all;
  }

  /** A file of three lines: a session, an item that gives an event, and another session. */
  ghost predicate ChangesThread(d: Decoder, lines: seq<seq<byte>>, first: string, second: string,
                                cwd: Option<string>)
  {
    && |lines| == 3
    && (exists v, cwd' :: ValueOf(d, lines[0]) == Some(v) && v.body == SessionMeta(Some(first), cwd'))
    && (exists v :: ValueOf(d, lines[1]) == Some(v) && v.body.ResponseItem? && KindAndSummary(v.body.payload).Some?)
    && (exists v :: ValueOf(d, lines[2]) == Some(v) && v.body == SessionMeta(Some(second), cwd))
  }

  lemma LinesOfChange(d: Decoder, path: string, lines: seq<seq<byte>>, first: string, second: string,
                      cwd: Option<string>) returns (e: Event)
    requires ChangesThread(d, lines, first, second, cwd)
    ensures Meta(d, lines) == (Some(second), cwd)
    ensures AllEvents(d, path, lines) == [e] && e.sessionId == SessionName(first)
  {
    var one, two := [lines[0]], [lines[0], lines[1]];
    assert DropLast(lines) == two && DropLast(two) == one && DropLast(one) == [];
    assert Meta(d, one).0 == Some(first) && AllEvents(d, path, one) == [];
    var v := ValueOf(d, lines[1]).value;
    e := Normalize(first, 1, v.occurredAtMs, path, v.body.payload).value;
    assert EventOf(d, path, one, lines[1]) == Some(e);
    assert AllEvents(d, path, two) == [e];
  }

  lemma ReadsSecondThread(d: Decoder, path: string, root: Option<string>, file: seq<byte>, first: string,
                          second: string, cwd: Option<string>)
    requires root.None? || cwd == root
    requires ChangesThread(d, AllLines(file), first, second, cwd)
    ensures var s := ReadRollout(d, path, root, file);
            && s.Some? && s.value.sessionId == SessionName(second)
            && |s.value.events| == 1 && s.value.events[0].sessionId == SessionName(first)
  {
    var e := LinesOfChange(d, path, AllLines(file), first, second, cwd);
    assert TakeLast(EVENT_LIMIT, [e]) == [e];
  }

  lemma FirstLine(line: seq<byte>)
    requires NewlineFree(line)
    ensures AllLines(line + [NEWLINE]) == [Chomp(line + [NEWLINE])] && Rest(line + [NEWLINE]) == []
  {
    SingleLine(line);
    assert DropLast([line + [NEWLINE]]) == [];
  }

  lemma NextLine(text: seq<byte>, line: seq<byte>)
    requires Rest(text) == [] && NewlineFree(line)
    ensures AllLines(text + (line + [NEWLINE])) == AllLines(text) + [Chomp(line + [NEWLINE])]
    ensures Rest(text + (line + [NEWLINE])) == []
  {
    LineAppended(text, line);
    assert Last(text + (line + [NEWLINE])) == NEWLINE;
  }

  lemma ThreeLines(a: seq<byte>, b: seq<byte>, c: seq<byte>)
    requires NewlineFree(a) && NewlineFree(b) && NewlineFree(c)
    ensures AllLines((a + [NEWLINE]) + (b + [NEWLINE]) + (c + [NEWLINE])) ==
            [Chomp(a + [NEWLINE]), Chomp(b + [NEWLINE]), Chomp(c + [NEWLINE])]
  {
    FirstLine(a);
    NextLine(a + [NEWLINE], b);
    NextLine((a + [NEWLINE]) + (b + [NEWLINE]), c);
  }

  /** A file that goes on with another thread lists the first thread's event under the second. */
  lemma LaterThreadTakesTheSession(d: Decoder, path: string, root: Option<string>, a: seq<byte>, b: seq<byte>,
                                   c: seq<byte>, first: string, second: string, cwd: Option<string>)
    requires NewlineFree(a) && NewlineFree(b) && NewlineFree(c) && first != second
    requires root.None? || cwd == root
    requires ChangesThread(d, [Chomp(a + [NEWLINE]), Chomp(b + [NEWLINE]), Chomp(c + [NEWLINE])],
                           first, second, cwd)
    ensures var s := ReadRollout(d, path, root, (a + [NEWLINE]) + (b + [NEWLINE]) + (c + [NEWLINE]));
            && s.Some? && s.value.sessionId == SessionName(second)
            && |s.value.events| == 1 && s.value.events[0].sessionId == SessionName(first)
            && SessionName(first) != SessionName(second)
  {
    ThreeLines(a, b, c);
    ReadsSecondThread(d, path, root, (a + [NEWLINE]) + (b + [NEWLINE]) + (c + [NEWLINE]), first, second, cwd);
    if SessionName(first) == SessionName(second) {
      SessionNameInjective(first, second);
    }
  }
}

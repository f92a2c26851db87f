/** `consume_probe_events` of `request_capture.rs`: one consumer of the worker's
    events, with its own deadline. */
module ProbeConsumer {
  import opened ProbeListener
  import opened Sequences
  import opened Wrappers
  import Decimal

  const SLACK_MS: nat := 300

  /** An artifact written under its own number. */
  datatype Capture = Capture(eventId: string, exchangeId: string, provider: string, isRequest: bool)

  datatype Exit = Ended(event: Event) | FallbackTimeout | WorkerGone | StorageFailed

  /** One turn of the loop: the clock at the top, whether an event came within
      the poll step, the clock after it, and whether its artifact could be written. */
  datatype Turn = Turn(now: nat, came: bool, at: nat, stored: bool)

  datatype State = State(
    sequence: nat,
    hints: map<string, string>,
    deadline: nat,
    channel: seq<Event>,
    captures: seq<Capture>,
    exit: Option<Exit>)

  function Deadline(timeout: nat, now: nat): nat {
    now + (timeout + SLACK_MS)
  }

  function Start(timeout: nat, now: nat, channel: seq<Event>): State {
    State(1, map[], Deadline(timeout, now), channel, [], None)
  }

  function EventId(pid: nat, atMs: nat, sequence: nat): string {
    Decimal.Render(pid) + "-" + Decimal.Render(atMs) + "-" + Decimal.Render(sequence)
  }

  function HintFor(hints: map<string, string>, exchangeId: string): Option<string> {
    if exchangeId in hints then Some(hints[exchangeId]) else None
  }

  /** The provider of a response: the hint its request left, or what is detected. */
  function ResponseProvider(hints: map<string, string>, m: Message): Option<string>
    requires m.ResponseObserved?
  {
    var hint := HintFor(hints, m.exchangeId);
    if hint.Some? then hint else m.provider
  }

  function Handle(pid: nat, timeout: nat, s: State, event: Event, turn: Turn): State {
    match event
    case Received(RequestObserved(id, provider, at)) =>
      var t := s.(deadline := Deadline(timeout, turn.at));
      if provider.None? then t
      else if !turn.stored then t.(exit := Some(StorageFailed))
      else t.(hints := s.hints[id := provider.value], sequence := s.sequence + 1,
              captures := s.captures + [Capture(EventId(pid, at, s.sequence), id, provider.value, true)])
    case Received(ResponseObserved(id, _, at)) =>
      var t, provider := s.(deadline := Deadline(timeout, turn.at)), ResponseProvider(s.hints, event.message);
      if provider.None? then t
      else if !turn.stored then t.(exit := Some(StorageFailed))
      else t.(hints := s.hints - {id}, sequence := s.sequence + 1,
              captures := s.captures + [Capture(EventId(pid, at, s.sequence), id, provider.value, false)])
    case Received(DetachAck) => s.(exit := Some(Ended(event)))
    case Received(_) => s.(deadline := Deadline(timeout, turn.at))
    case _ => s.(exit := Some(Ended(event)))
  }

  function Step(pid: nat, timeout: nat, s: State, turn: Turn): State {
    if s.exit.Some? then s
    else if turn.now >= s.deadline then s.(exit := Some(FallbackTimeout))
    else if !turn.came then s
    else if s.channel == [] then s.(exit := Some(WorkerGone))
    else Handle(pid, timeout, s.(channel := s.channel[1..]), s.channel[0], turn)
  }

  function Run(pid: nat, timeout: nat, start: nat, channel: seq<Event>, turns: seq<Turn>): State {
    if turns == [] then Start(timeout, start, channel)
    else Step(pid, timeout, Run(pid, timeout, start, channel, DropLast(turns)), Last(turns))
  }

  /** Nothing changes after the loop is left. */
  lemma {:induction false} RunStops(pid: nat, timeout: nat, start: nat, channel: seq<Event>, turns: seq<Turn>, i: nat)
    requires i <= |turns| && Run(pid, timeout, start, channel, turns[..i]).exit.Some?
    ensures Run(pid, timeout, start, channel, turns) == Run(pid, timeout, start, channel, turns[..i])
  {
    if i < |turns| {
      assert DropLast(turns)[..i] == turns[..i];
      RunStops(pid, timeout, start, channel, DropLast(turns), i);
    } else {
      assert turns[..i] == turns;
    }
  }

  method ConsumeProbeEvents(pid: nat, timeout: nat, start: nat, channel: seq<Event>, turns: seq<Turn>)
    returns (exit: Option<Exit>, captures: seq<Capture>)
    ensures exit == Run(pid, timeout, start, channel, turns).exit
    ensures captures == Run(pid, timeout, start, channel, turns).captures
  {
    var sequence := 1;
    var hints: map<string, string> := map[];
    var deadline := Deadline(timeout, start);
    var waiting := channel;
    captures := [];
    for i := 0 to |turns|
      invariant Run(pid, timeout, start, channel, turns[..i]) ==
                State(sequence, hints, deadline, waiting, captures, None)
    {
      var turn := turns[i];
      assert DropLast(turns[..i + 1]) == turns[..i];
      ghost var before := Run(pid, timeout, start, channel, turns[..i]);
      if turn.now >= deadline {
        RunStops(pid, timeout, start, channel, turns, i + 1);
        return Some(FallbackTimeout), captures;
      }
      if !turn.came {
        continue;
      }
      if waiting == [] {
        RunStops(pid, timeout, start, channel, turns, i + 1);
        return Some(WorkerGone), captures;
      }
      var event := waiting[0];
      waiting := waiting[1..];
      if Terminal(event) {
        RunStops(pid, timeout, start, channel, turns, i + 1);
        return Some(Ended(event)), captures;
      }
      deadline := Deadline(timeout, turn.at);
      match event.message {
        case RequestObserved(id, provider, at) =>
          if provider.Some? {
            if !turn.stored {
              RunStops(pid, timeout, start, channel, turns, i + 1);
              return Some(StorageFailed), captures;
            }
            captures := captures + [Capture(EventId(pid, at, sequence), id, provider.value, true)];
            hints := hints[id := provider.value];
            sequence := sequence + 1;
          }
        case ResponseObserved(id, _, at) =>
          var provider := ResponseProvider(hints, event.message);
          if provider.Some? {
            if !turn.stored {
              RunStops(pid, timeout, start, channel, turns, i + 1);
              return Some(StorageFailed), captures;
            }
            captures := captures + [Capture(EventId(pid, at, sequence), id, provider.value, false)];
            hints := hints - {id};
            sequence := sequence + 1;
          }
        case _ =>
      }
    }
    assert turns[..|turns|] == turns;
    exit := None;
  }

  // What the loop did, read off the events it took.

  /** The provider of the exchange's last captured request that no response followed. */
  function OpenProvider(handled: seq<Event>, id: string): Option<string> {
    if handled == [] then None
    else match Last(handled)
      case Received(RequestObserved(id', Some(provider), _)) =>
        if id' == id then Some(provider) else OpenProvider(DropLast(handled), id)
      case Received(ResponseObserved(id', _, _)) =>
        if id' == id then None else OpenProvider(DropLast(handled), id)
      case _ => OpenProvider(DropLast(handled), id)
  }

  function CapturesOf(pid: nat, handled: seq<Event>): seq<Capture> {
    if handled == [] then []
    else
      var before := CapturesOf(pid, DropLast(handled));
      match Last(handled)
      case Received(RequestObserved(id, Some(provider), at)) =>
        before + [Capture(EventId(pid, at, |before| + 1), id, provider, true)]
      case Received(ResponseObserved(id, detected, at)) =>
        var open := OpenProvider(DropLast(handled), id);
        var provider := if open.Some? then open else detected;
        if provider.Some? then before + [Capture(EventId(pid, at, |before| + 1), id, provider.value, false)]
        else before
      case _ => before
  }

  /** The events taken from the channel. */
  function Handled(channel: seq<Event>, s: State): seq<Event> {
    if |s.channel| <= |channel| then channel[..|channel| - |s.channel|] else []
  }

  /** The events taken are a prefix of the channel, and the loop ends with the first terminal one. */
  ghost predicate InPlace(channel: seq<Event>, s: State) {
    var handled := Handled(channel, s);
    && |s.channel| <= |channel| && s.channel == channel[|handled|..]
    && (forall i | 0 <= i < |handled| - 1 :: !Terminal(handled[i]))
    && (handled != [] && Terminal(Last(handled)) ==> s.exit == Some(Ended(Last(handled))))
  }

  /** The hints and the artifacts are those of the events taken. */
  ghost predicate Recorded(pid: nat, handled: seq<Event>, s: State) {
    && s.captures == CapturesOf(pid, handled) && s.sequence == 1 + |s.captures|
    && forall id :: HintFor(s.hints, id) == OpenProvider(handled, id)
  }

  lemma HandleInPlace(pid: nat, timeout: nat, channel: seq<Event>, s: State, turn: Turn)
    requires InPlace(channel, s) && s.exit.None? && s.channel != []
    ensures var t := Handle(pid, timeout, s.(channel := s.channel[1..]), s.channel[0], turn);
            InPlace(channel, t) && Handled(channel, t) == Handled(channel, s) + [s.channel[0]]
  {
    var t := Handle(pid, timeout, s.(channel := s.channel[1..]), s.channel[0], turn);
    assert Handled(channel, t) == Handled(channel, s) + [s.channel[0]];
  }

  lemma HandleRecords(pid: nat, timeout: nat, handled: seq<Event>, s: State, event: Event, turn: Turn)
    requires Recorded(pid, handled, s)
    ensures var t := Handle(pid, timeout, s, event, turn);
            t.exit != Some(StorageFailed) ==> Recorded(pid, handled + [event], t)
  {
    assert DropLast(handled + [event]) == handled;
    match event
    case Received(ResponseObserved(id, _, _)) => assert HintFor(s.hints, id) == OpenProvider(handled, id);
    case _ =>
  }

  /** At every point the hints are exactly the open providers, the artifacts
      those of the events taken, and the events taken a prefix of the channel. */
  lemma {:induction false} RunIsFaithful(pid: nat, timeout: nat, start: nat, channel: seq<Event>, turns: seq<Turn>)
    ensures var s := Run(pid, timeout, start, channel, turns);
            InPlace(channel, s) && (s.exit != Some(StorageFailed) ==> Recorded(pid, Handled(channel, s), s))
  {
    if turns == [] {
      assert channel[..0] == [];
    } else {
      var s, turn := Run(pid, timeout, start, channel, DropLast(turns)), Last(turns);
      RunIsFaithful(pid, timeout, start, channel, DropLast(turns));
      if s.exit.None? && turn.now < s.deadline && turn.came && s.channel != [] {
        HandleInPlace(pid, timeout, channel, s, turn);
        HandleRecords(pid, timeout, Handled(channel, s), s.(channel := s.channel[1..]), s.channel[0], turn);
      }
    }
  }

  // Event ids.

  ghost predicate NumberedAs(pid: nat, c: Capture, n: nat) {
    exists at :: c.eventId == EventId(pid, at, n)
  }

  lemma NumberedOneMore(pid: nat, timeout: nat, s: State, event: Event, turn: Turn)
    requires s.sequence == 1 + |s.captures|
    requires forall i | 0 <= i < |s.captures| :: NumberedAs(pid, s.captures[i], i + 1)
    ensures var t := Handle(pid, timeout, s, event, turn);
            t.sequence == 1 + |t.captures| && forall i | 0 <= i < |t.captures| :: NumberedAs(pid, t.captures[i], i + 1)
  {
    var t := Handle(pid, timeout, s, event, turn);
    if |t.captures| > |s.captures| {
      assert t.captures[|s.captures|].eventId == EventId(pid, event.message.atMs, s.sequence);
      assert NumberedAs(pid, t.captures[|s.captures|], |s.captures| + 1);
    }
  }

  lemma {:induction false} CapturesAreNumbered(pid: nat, timeout: nat, start: nat, channel: seq<Event>,
                                               turns: seq<Turn>)
    ensures var s := Run(pid, timeout, start, channel, turns);
            s.sequence == 1 + |s.captures| && forall i | 0 <= i < |s.captures| :: NumberedAs(pid, s.captures[i], i + 1)
  {
    if turns != [] {
      CapturesAreNumbered(pid, timeout, start, channel, DropLast(turns));
      var s := Run(pid, timeout, start, channel, DropLast(turns));
      if s.channel != [] {
        NumberedOneMore(pid, timeout, s.(channel := s.channel[1..]), s.channel[0], Last(turns));
      }
    }
  }

  /** No two artifacts of a run share an event id, even when storing one failed. */
  lemma EventIdsAreDistinct(pid: nat, timeout: nat, start: nat, channel: seq<Event>, turns: seq<Turn>, i: nat, j: nat)
    requires i < j < |Run(pid, timeout, start, channel, turns).captures|
    ensures var captures := Run(pid, timeout, start, channel, turns).captures;
            captures[i].eventId != captures[j].eventId
  {
    var captures := Run(pid, timeout, start, channel, turns).captures;
    CapturesAreNumbered(pid, timeout, start, channel, turns);
    assert NumberedAs(pid, captures[i], i + 1) && NumberedAs(pid, captures[j], j + 1);
    var a :| captures[i].eventId == EventId(pid, a, i + 1);
    var b :| captures[j].eventId == EventId(pid, b, j + 1);
    if captures[i].eventId == captures[j].eventId {
      Decimal.SplitAtLast(Decimal.Render(pid) + "-" + Decimal.Render(a), Decimal.Render(i + 1),
                          Decimal.Render(pid) + "-" + Decimal.Render(b), Decimal.Render(j + 1), '-');
      Decimal.RenderInjective(i + 1, j + 1);
    }
  }

  // The deadline.

  /** When the last message that is not terminal was taken, or else the start. */
  function LastContact(pid: nat, timeout: nat, start: nat, channel: seq<Event>, turns: seq<Turn>): nat {
    if turns == [] then start
    else
      var before := Run(pid, timeout, start, channel, DropLast(turns));
      var after := Run(pid, timeout, start, channel, turns);
      if |after.channel| < |before.channel| && !Terminal(before.channel[0]) then Last(turns).at
      else LastContact(pid, timeout, start, channel, DropLast(turns))
  }

  lemma {:induction false} DeadlineFollowsContact(pid: nat, timeout: nat, start: nat, channel: seq<Event>,
                                                  turns: seq<Turn>)
    ensures Run(pid, timeout, start, channel, turns).deadline ==
            LastContact(pid, timeout, start, channel, turns) + timeout + SLACK_MS
  {
    if turns != [] {
      DeadlineFollowsContact(pid, timeout, start, channel, DropLast(turns));
    }
  }

  lemma StepFallsBackExactlyWhen(pid: nat, timeout: nat, s: State, turn: Turn)
    requires s.exit.None?
    ensures Step(pid, timeout, s, turn).exit == Some(FallbackTimeout) <==> turn.now >= s.deadline
  {
  }

  /** The loop gives up on its own exactly when, at its turn, timeout and slack
      have passed since it last took a message. */
  lemma FallbackExactlyWhen(pid: nat, timeout: nat, start: nat, channel: seq<Event>, turns: seq<Turn>, turn: Turn)
    requires Run(pid, timeout, start, channel, turns).exit.None?
    ensures Run(pid, timeout, start, channel, turns + [turn]).exit == Some(FallbackTimeout) <==>
            turn.now >= LastContact(pid, timeout, start, channel, turns) + timeout + SLACK_MS
  {
    DeadlineFollowsContact(pid, timeout, start, channel, turns);
    assert DropLast(turns + [turn]) == turns;
    StepFallsBackExactlyWhen(pid, timeout, Run(pid, timeout, start, channel, turns), turn);
  }

  /** The loop, having taken `n` events, takes the next one exactly when the turn
      is open, and it ends over a missing worker, a terminal event or an artifact
      that cannot be written, each exactly then. */
  ghost predicate Proceeds(pid: nat, channel: seq<Event>, n: nat, open: bool, turn: Turn, t: State) {
    && n <= |channel|
    && Handled(channel, t) == (if open && n < |channel| then channel[..n + 1] else channel[..n])
    && (t.exit == Some(WorkerGone) <==> open && n == |channel|)
    && (n < |channel| ==> (t.exit == Some(Ended(channel[n])) <==> open && Terminal(channel[n])))
    && (t.exit == Some(StorageFailed) <==>
          open && n < |channel| && !turn.stored &&
          |CapturesOf(pid, channel[..n + 1])| > |CapturesOf(pid, channel[..n])|)
  }

  lemma HandleFailsExactlyWhen(pid: nat, timeout: nat, handled: seq<Event>, s: State, event: Event, turn: Turn)
    requires s.exit.None? && Recorded(pid, handled, s)
    ensures Handle(pid, timeout, s, event, turn).exit == Some(StorageFailed) <==>
            !turn.stored && |CapturesOf(pid, handled + [event])| > |CapturesOf(pid, handled)|
  {
    assert DropLast(handled + [event]) == handled;
    match event
    case Received(ResponseObserved(id, _, _)) => assert HintFor(s.hints, id) == OpenProvider(handled, id);
    case _ =>
  }

  lemma TakenProceeds(pid: nat, timeout: nat, channel: seq<Event>, s: State, turn: Turn)
    requires s.exit.None? && InPlace(channel, s) && Recorded(pid, Handled(channel, s), s) && s.channel != []
    ensures var t := Handle(pid, timeout, s.(channel := s.channel[1..]), s.channel[0], turn);
            Proceeds(pid, channel, |Handled(channel, s)|, true, turn, t)
  {
    var n := |Handled(channel, s)|;
    assert s.channel == channel[n..];
    HandleInPlace(pid, timeout, channel, s, turn);
    HandleFailsExactlyWhen(pid, timeout, channel[..n], s.(channel := s.channel[1..]), channel[n], turn);
    assert channel[..n + 1] == channel[..n] + [channel[n]];
  }

  lemma StepProceeds(pid: nat, timeout: nat, channel: seq<Event>, s: State, turn: Turn)
    requires s.exit.None? && InPlace(channel, s) && Recorded(pid, Handled(channel, s), s)
    ensures Proceeds(pid, channel, |Handled(channel, s)|, turn.now < s.deadline && turn.came, turn,
                     Step(pid, timeout, s, turn))
  {
    if turn.now < s.deadline && turn.came && s.channel != [] {
      TakenProceeds(pid, timeout, channel, s, turn);
    }
  }

  /** At a turn in time the loop takes the next event if one came, ends if the
      worker is gone, and fails only over an artifact that cannot be written. */
  lemma TurnTakesExactlyWhen(pid: nat, timeout: nat, start: nat, channel: seq<Event>, turns: seq<Turn>, turn: Turn)
    requires Run(pid, timeout, start, channel, turns).exit.None?
    ensures var open :=
              turn.came && turn.now < LastContact(pid, timeout, start, channel, turns) + timeout + SLACK_MS;
            Proceeds(pid, channel, |Handled(channel, Run(pid, timeout, start, channel, turns))|, open, turn,
                     Run(pid, timeout, start, channel, turns + [turn]))
  {
    assert DropLast(turns + [turn]) == turns;
    DeadlineFollowsContact(pid, timeout, start, channel, turns);
    RunIsFaithful(pid, timeout, start, channel, turns);
    StepProceeds(pid, timeout, channel, Run(pid, timeout, start, channel, turns), turn);
  }

  lemma {:induction false} MessagesInAppend(a: seq<Event>, b: seq<Event>)
    ensures MessagesIn(a + b) == MessagesIn(a) + MessagesIn(b)
  {
    if a == [] {
      assert a + b == b;
    } else {
      assert (a + b)[1..] == a[1..] + b;
      MessagesInAppend(a[1..], b);
    }
  }

  /** Fed by the worker, the loop takes the messages of the probe's lines in
      order, from the first on. */
  lemma MessagesTakenAreThePrefix(pid: nat, timeout: nat, start: nat, attempts: seq<Attempt>, turns: seq<Turn>)
    ensures var channel := WorkerEvents(timeout, start, attempts);
            MessagesIn(Handled(channel, Run(pid, timeout, start, channel, turns))) <= Messages(attempts)
  {
    var channel := WorkerEvents(timeout, start, attempts);
    RunIsFaithful(pid, timeout, start, channel, turns);
    WorkerKeepsOrder(timeout, start, attempts);
    var handled := Handled(channel, Run(pid, timeout, start, channel, turns));
    assert channel == handled + channel[|handled|..];
    MessagesInAppend(handled, channel[|handled|..]);
  }

  /** While the probe's clock and channel hold, a loop that took all the worker
      sent took every message of the lines. */
  lemma UndisturbedMessagesAreTaken(pid: nat, timeout: nat, start: nat, attempts: seq<Attempt>, turns: seq<Turn>)
    requires Undisturbed(timeout, start, attempts, |attempts|)
    requires Run(pid, timeout, start, WorkerEvents(timeout, start, attempts), turns).channel == []
    ensures var channel := WorkerEvents(timeout, start, attempts);
            MessagesIn(Handled(channel, Run(pid, timeout, start, channel, turns))) == Messages(attempts)
  {
    var channel := WorkerEvents(timeout, start, attempts);
    UndisturbedWorkerSendsAll(timeout, start, attempts);
    assert channel[..|channel|] == channel;
  }
}

/** The Codex observer session as an object, against `CodexCorrelation`. */
module CodexObserver {
  import opened CodexCorrelation
  import opened Wrappers

  /** What the session reports; how a message is worded is not part of it. */
  datatype Event =
    | CapabilityEvent(kind: Kind, value: Value)
    | UnavailableEvent(kind: Kind, error: ReadError)
    | ServerEvent(value: Value)

  function EventFrom(kind: Kind, response: Result<Value, ReadError>): Event {
    match response
    case Ok(value) => CapabilityEvent(kind, value)
    case Err(e) => UnavailableEvent(kind, e)
  }

  ghost predicate Reported(received: seq<Value>, answer: Answer, event: Event) {
    match answer
    case Reply(kind, k) => k < |received| && event == CapabilityEvent(kind, received[k])
    case Unavailable(kind, e) => event == UnavailableEvent(kind, e)
  }

  /** One event for each answer, in turn. */
  ghost predicate Reports(received: seq<Value>, answers: seq<Answer>, events: seq<Event>) {
    |events| == |answers| && forall i | 0 <= i < |answers| :: Reported(received, answers[i], events[i])
  }

  lemma ReportsMore(before: seq<Value>, received: seq<Value>, answers: seq<Answer>, events: seq<Event>, event: Event)
    requires before <= received && answers != []
    requires Reports(before, answers[..|answers| - 1], events) && Reported(received, answers[|answers| - 1], event)
    ensures Reports(received, answers, events + [event])
  {
    forall i | 0 <= i < |events| ensures Reported(received, answers[i], events[i]) {
      assert Reported(before, answers[..|answers| - 1][i], events[i]);
    }
  }

  /** Answers already taken, put before those still to come. */
  ghost function Continue(done: seq<Answer>, r: (State, Option<seq<Answer>>, seq<Outcome>)):
    (State, Option<seq<Answer>>, seq<Outcome>)
  {
    (r.0, match r.1 case Some(more) => Some(done + more) case None => None, r.2)
  }

  /** What all requests come to is what they came to so far and what those still open come to. */
  ghost predicate SoFar(all: (State, Option<seq<Answer>>, seq<Outcome>), done: seq<Answer>, s: State,
                        kinds: seq<Kind>, sent: nat, inbox: seq<Outcome>)
  {
    all == Continue(done, RequestAll(s, kinds, sent, inbox))
  }

  lemma ContinueMore(done: seq<Answer>, answer: Answer, r: (State, Option<seq<Answer>>, seq<Outcome>))
    ensures Continue(done + [answer], r) == Continue(done, Continue([answer], r))
  {
    if r.1.Some? {
      assert (done + [answer]) + r.1.value == done + ([answer] + r.1.value);
    }
  }

  lemma SoFarStep(all: (State, Option<seq<Answer>>, seq<Outcome>), done: seq<Answer>, s: State,
                  kinds: seq<Kind>, sent: nat, inbox: seq<Outcome>)
    requires SoFar(all, done, s, kinds, sent, inbox) && kinds != [] && sent > 0
    ensures var (t, answer, rest) := Request(s, kinds[0], inbox);
            SoFar(all, done + [answer], t, kinds[1..], sent - 1, rest)
  {
    var (t, answer, rest) := Request(s, kinds[0], inbox);
    ContinueMore(done, answer, RequestAll(t, kinds[1..], sent - 1, rest));
  }

  lemma AllDone(all: (State, Option<seq<Answer>>, seq<Outcome>), done: seq<Answer>, s: State, sent: nat,
                inbox: seq<Outcome>)
    requires SoFar(all, done, s, [], sent, inbox)
    ensures all == (s, Some(done), inbox)
  {
    assert done + [] == done;
  }

  lemma NothingDone(r: (State, Option<seq<Answer>>, seq<Outcome>))
    ensures Continue([], r) == r
  {
    if r.1.Some? {
      assert [] + r.1.value == r.1.value;
    }
  }

  lemma {:induction false} PositionAt(received: seq<Value>, pending: seq<nat>, id: nat, i: nat)
    requires i < |pending| && IdOf(received, pending[i]) == Some(id)
    requires forall j | 0 <= j < i :: IdOf(received, pending[j]) != Some(id)
    ensures Position(received, pending, id) == Some(i)
  {
    if i > 0 {
      PositionAt(received, pending[1..], id, i - 1);
    }
  }

  lemma NoPosition(received: seq<Value>, pending: seq<nat>, id: nat)
    requires forall j | 0 <= j < |pending| :: IdOf(received, pending[j]) != Some(id)
    ensures Position(received, pending, id) == None
  {
    PositionIsFirst(received, pending, id);
  }

  class CodexObserverSession {
    /** What the line channel has still to give. */
    var lines: seq<Outcome>
    var pending: seq<Value>
    var nextRequestId: nat
    var inflight: map<nat, Kind>
    ghost var state: State

    /** The fields are the model's; `pending` holds the values of the arrivals held back. */
    ghost predicate Coupled()
      reads this
    {
      && Conserved(state)
      && nextRequestId == NextId(state) && inflight == state.inflight
      && |pending| == |state.pending|
      && forall i | 0 <= i < |pending| ::
           state.pending[i] < |state.received| && pending[i] == state.received[state.pending[i]]
    }

    ghost predicate Valid()
      reads this
    {
      Coupled() && Correlated(state)
    }

    constructor (channel: seq<Outcome>)
      ensures Valid() && state == START && lines == channel
    {
      lines, pending, nextRequestId, inflight := channel, [], FIRST_ID, map[];
      state := START;
    }

    /** `read_value_with_timeout`. */
    method ReadValue() returns (r: Result<Option<Value>, ReadError>)
      modifies this`lines
      ensures old(lines) == [] ==> lines == [] && r == Ok(None)
      ensures old(lines) != [] ==> lines == old(lines)[1..] && r == match old(lines)[0]
                                   case Arrived(v) => Ok(Some(v))
                                   case Malformed => Err(InvalidData)
                                   case Failed => Err(IoError)
                                   case Quiet => Ok(None)
    {
      if lines == [] {
        return Ok(None);
      }
      var outcome := lines[0];
      lines := lines[1..];
      match outcome {
        case Arrived(v) => r := Ok(Some(v));
        case Malformed => r := Err(InvalidData);
        case Failed => r := Err(IoError);
        case Quiet => r := Ok(None);
      }
    }

    method FindPending(id: nat) returns (r: Option<nat>)
      requires Coupled()
      ensures r == Position(state.received, state.pending, id)
    {
      for i := 0 to |pending|
        invariant forall j | 0 <= j < i :: pending[j].id != Some(id)
      {
        if pending[i].id == Some(id) {
          PositionAt(state.received, state.pending, id, i);
          return Some(i);
        }
      }
      NoPosition(state.received, state.pending, id);
      r := None;
    }

    /** `pending.remove(index)`, handing the message out. */
    method RemovePending(index: nat) returns (value: Value)
      requires Coupled() && index < |pending|
      modifies this`pending, this`state
      ensures Coupled()
      ensures var k := old(state.pending)[index];
              && state == Deliver(old(state).(pending := RemoveAt(old(state).pending, index)), k)
              && k < |state.received| && value == state.received[k]
    {
      value := pending[index];
      ghost var k := state.pending[index];
      CodexCorrelation.RemovePending(state, index);
      DeliverConserves(state.(pending := RemoveAt(state.pending, index)), k);
      pending := RemoveAt(pending, index);
      state := Deliver(state.(pending := RemoveAt(state.pending, index)), k);
    }

    /** `pending.push_back(value)` of a message just read. */
    method PushBack(value: Value)
      requires Coupled()
      modifies this`pending, this`state
      ensures Coupled()
      ensures state == HoldBack(Receive(old(state), value), |old(state).received|)
    {
      HoldBackConserves(state, value);
      pending := pending + [value];
      state := HoldBack(Receive(state, value), |state.received|);
    }

    /** Notes that a message just read is handed out at once. */
    ghost method PassOn(value: Value)
      requires Coupled()
      modifies this`state
      ensures Coupled()
      ensures state == Deliver(Receive(old(state), value), |old(state).received|)
    {
      ReceiveIsOutstanding(state, value);
      state := Receive(state, value);
      DeliverConserves(state, |state.received| - 1);
      state := Deliver(state, |state.received| - 1);
    }

    method TakeResponse(id: nat) returns (r: Result<Value, ReadError>)
      requires Coupled()
      modifies this`lines, this`pending, this`state
      ensures Coupled()
      ensures var t := Take(old(state), id, old(lines));
              && state == t.state && lines == t.rest
              && (r.Ok? <==> t.result.Ok?)
              && (r.Err? ==> r.error == t.result.error)
              && (r.Ok? ==> t.result.value < |state.received| && r.value == state.received[t.result.value])
    {
      ghost var final := Take(state, id, lines);
      while true
        invariant Coupled() && Take(state, id, lines) == final
        decreases |lines|
      {
        var index := FindPending(id);
        if index.Some? {
          var value := RemovePending(index.value);
          return Ok(value);
        }
        if lines == [] {
          return Err(TimedOut);
        }
        var outcome := ReadValue();
        if outcome.Err? {
          return Err(outcome.error);
        }
        if outcome.value.None? {
          return Err(TimedOut);
        }
        var value := outcome.value.value;
        if value.id == Some(id) {
          PassOn(value);
          return Ok(value);
        }
        PushBack(value);
      }
    }

    /** Sends `initialize` and waits for its response; `writable` says whether sending works. */
    method Initialize(writable: bool) returns (r: Result<Value, ReadError>)
      requires Valid()
      modifies this
      ensures Valid()
      ensures (state, lines) == Step(old(state), CodexCorrelation.Initialize(writable), old(lines))
    {
      if !writable {
        return Err(IoError);
      }
      StepKeeps(state, CodexCorrelation.Initialize(true), lines);
      TakeKeepsTable(state, INITIALIZE_ID, lines);
      r := TakeResponse(INITIALIZE_ID);
    }

    /** `send_next_request`, then the entry in the table when the request could be sent. */
    method SendNextRequest(kind: Kind, writable: bool) returns (id: nat)
      requires Valid()
      modifies this`nextRequestId, this`inflight, this`state
      ensures Valid() && id == NextId(old(state))
      ensures state == if writable then Ask(old(state), kind) else AskUnsent(old(state), kind)
    {
      AskKeeps(state, kind);
      id := nextRequestId;
      nextRequestId := nextRequestId + 1;
      if writable {
        inflight := inflight[id := kind];
        state := Ask(state, kind);
      } else {
        state := AskUnsent(state, kind);
      }
    }

    /** `inflight_capability_requests.remove(&id)`. */
    method ForgetRequest(id: nat)
      requires Coupled()
      modifies this`inflight, this`state
      ensures Coupled() && state == Forget(old(state), id)
    {
      inflight := inflight - {id};
      state := Forget(state, id);
    }

    /** One round of `collect_capability_events`, its request being sent. */
    method RequestCapability(kind: Kind) returns (answer: Result<Value, ReadError>)
      requires Valid()
      modifies this
      ensures Valid()
      ensures var (t, a, rest) := Request(old(state), kind, old(lines));
              && state == t && lines == rest
              && match a
                 case Reply(_, k) => k < |state.received| && answer == Ok(state.received[k])
                 case Unavailable(_, e) => answer == Err(e)
    {
      RequestKeeps(state, kind, lines);
      var id := SendNextRequest(kind, true);
      answer := TakeResponse(id);
      if answer.Ok? {
        ForgetRequest(id);
      }
    }

    /** The requests in turn; the pipe takes `sent` of them. */
    method RequestEach(kinds: seq<Kind>, sent: nat) returns (r: Result<seq<Event>, ReadError>)
      requires Valid()
      modifies this
      ensures Valid()
      ensures var (t, answers, rest) := RequestAll(old(state), kinds, sent, old(lines));
              && state == t && lines == rest
              && (r.Ok? <==> answers.Some?)
              && (r.Ok? ==> Reports(state.received, answers.value, r.value))
    {
      ghost var all := RequestAll(state, kinds, sent, lines);
      var events := [];
      ghost var answers: seq<Answer> := [];
      NothingDone(all);
      assert kinds[0..] == kinds;
      for i := 0 to |kinds|
        invariant Valid() && i <= sent
        invariant SoFar(all, answers, state, kinds[i..], sent - i, lines)
        invariant Reports(state.received, answers, events)
      {
        assert kinds[i..][1..] == kinds[i + 1..];
        if i == sent {
          var _ := SendNextRequest(kinds[i], false);
          return Err(IoError);
        }
        events, answers := RequestOne(kinds[i..], sent - i, all, answers, events);
      }
      AllDone(all, answers, state, sent - |kinds|, lines);
      r := Ok(events);
    }

    method RequestOne(kinds: seq<Kind>, sent: nat, ghost all: (State, Option<seq<Answer>>, seq<Outcome>),
                      ghost answers: seq<Answer>, events: seq<Event>)
      returns (events': seq<Event>, ghost answers': seq<Answer>)
      requires Valid() && kinds != [] && sent > 0
      requires SoFar(all, answers, state, kinds, sent, lines) && Reports(state.received, answers, events)
      modifies this
      ensures Valid()
      ensures SoFar(all, answers', state, kinds[1..], sent - 1, lines) && Reports(state.received, answers', events')
    {
      ghost var (_, answer, _) := Request(state, kinds[0], lines);
      ghost var before := state;
      RequestAnswers(state, kinds[0], lines);
      SoFarStep(all, answers, state, kinds, sent, lines);
      var response := RequestCapability(kinds[0]);
      answers' := answers + [answer];
      ReportsMore(before.received, state.received, answers', events, EventFrom(kinds[0], response));
      events' := events + [EventFrom(kinds[0], response)];
    }

    method CollectCapabilityEvents(sent: nat) returns (r: Result<seq<Event>, ReadError>)
      requires Valid()
      modifies this
      ensures Valid()
      ensures var (t, answers, rest) := RequestAll(old(state), REQUESTS, sent, old(lines));
              && state == t && lines == rest
              && (r.Ok? <==> answers.Some?)
              && (r.Ok? ==> Reports(state.received, answers.value, r.value))
    {
      r := RequestEach(REQUESTS, sent);
    }

    /** `next_event` and `normalize_value`. */
    method NextEvent() returns (r: Result<Option<Event>, ReadError>)
      requires Valid()
      modifies this
      ensures Valid()
      ensures var (t, next, rest) := Next(old(state), old(lines));
              && state == t && lines == rest
              && match next
                 case Err(e) => r == Err(e)
                 case Ok(None) => r == Ok(None)
                 case Ok(Some(k)) =>
                   && k < |state.received|
                   && r == Ok(Some(match ReplyTo(old(state), IdOf(state.received, k))
                                   case Some((_, kind)) => CapabilityEvent(kind, state.received[k])
                                   case None => ServerEvent(state.received[k])))
    {
      NextCorrelates(state, lines);
      var value: Value;
      ghost var before := state;
      if pending != [] {
        value := RemovePending(0);
        assert RemoveAt(before.pending, 0) == before.pending[1..];
      } else {
        var outcome := ReadValue();
        if outcome.Err? {
          return Err(outcome.error);
        }
        if outcome.value.None? {
          return Ok(None);
        }
        value := outcome.value.value;
        PassOn(value);
      }
      var event := NormalizeValue(value);
      r := Ok(Some(event));
    }

    /** `normalize_value`: a message with an id in the table is the reply to that request. */
    method NormalizeValue(value: Value) returns (event: Event)
      requires Coupled()
      modifies this`inflight, this`state
      ensures Coupled()
      ensures state == match value.id case Some(id) => Forget(old(state), id) case None => old(state)
      ensures event == match ReplyTo(old(state), value.id)
                       case Some((_, kind)) => CapabilityEvent(kind, value)
                       case None => ServerEvent(value)
    {
      event := ServerEvent(value);
      if value.id.Some? {
        if value.id.value in inflight {
          event := CapabilityEvent(inflight[value.id.value], value);
        }
        ForgetRequest(value.id.value);
      }
    }
  }
}

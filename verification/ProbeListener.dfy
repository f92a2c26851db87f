/** The listener of `ipc.rs`: probe messages read line by line, watched by a heartbeat. */
module ProbeListener {
  import opened Naturals
  import opened Sequences
  import opened Wrappers

  /** `provider` is what the provider detection makes of the message, if anything. */
  datatype Message =
    | Heartbeat
    | DetachAck
    | RequestObserved(exchangeId: string, provider: Option<string>, atMs: nat)
    | ResponseObserved(exchangeId: string, provider: Option<string>, atMs: nat)
    | OtherMessage

  datatype Event = Received(message: Message) | HeartbeatTimeout(elapsedMs: nat) | ChannelDisconnected(reason: string)

  /** What one `read_line` gives; a line that is no message is `Line(None)`. */
  datatype Read = Eof | Line(message: Option<Message>) | Transient | Broken

  /** One turn of the read loop: the clock at the check, the read, the clock after it. */
  datatype Attempt = Attempt(checkedAt: nat, read: Read, doneAt: nat)

  function Elapsed(last: nat, now: nat): nat {
    SaturatingSub(now, last)
  }

  /** An event, the time of the last heartbeat, and the attempts left; no event while reading blocks. */
  function Next(timeout: nat, last: nat, attempts: seq<Attempt>): (Option<Event>, nat, seq<Attempt>) {
    if attempts == [] then (None, last, [])
    else
      var a, rest := attempts[0], attempts[1..];
      if Elapsed(last, a.checkedAt) > timeout then
        (Some(HeartbeatTimeout(Elapsed(last, a.checkedAt))), last, attempts)
      else
        match a.read
        case Eof => (Some(ChannelDisconnected("EOF")), last, rest)
        case Broken => (Some(ChannelDisconnected("IO error")), last, rest)
        case Line(Some(m)) => (Some(Received(m)), if m.Heartbeat? then a.doneAt else last, rest)
        case Line(None) => Next(timeout, last, rest)
        case Transient =>
          if Elapsed(last, a.doneAt) > timeout then
            (Some(HeartbeatTimeout(Elapsed(last, a.doneAt))), last, rest)
          else Next(timeout, last, rest)
  }

  class IpcListener {
    const heartbeatTimeout: nat
    var lastHeartbeat: nat
    /** What the reader has still to give. */
    var reader: seq<Attempt>

    constructor (timeout: nat, now: nat, attempts: seq<Attempt>)
      ensures heartbeatTimeout == timeout && lastHeartbeat == now && reader == attempts
    {
      heartbeatTimeout, lastHeartbeat, reader := timeout, now, attempts;
    }

    method CheckHeartbeatTimeout(now: nat) returns (event: Option<Event>)
      ensures event == if Elapsed(lastHeartbeat, now) > heartbeatTimeout
                       then Some(HeartbeatTimeout(Elapsed(lastHeartbeat, now))) else None
    {
      var elapsed := Elapsed(lastHeartbeat, now);
      event := if elapsed > heartbeatTimeout then Some(HeartbeatTimeout(elapsed)) else None;
    }

    method NextEvent() returns (event: Option<Event>)
      modifies this`lastHeartbeat, this`reader
      ensures (event, lastHeartbeat, reader) == Next(heartbeatTimeout, old(lastHeartbeat), old(reader))
    {
      while reader != []
        invariant lastHeartbeat == old(lastHeartbeat)
        invariant Next(heartbeatTimeout, lastHeartbeat, reader) ==
                  Next(heartbeatTimeout, old(lastHeartbeat), old(reader))
        decreases |reader|
      {
        var a := reader[0];
        event := CheckHeartbeatTimeout(a.checkedAt);
        if event.Some? {
          return;
        }
        reader := reader[1..];
        match a.read {
          case Eof => return Some(ChannelDisconnected("EOF"));
          case Broken => return Some(ChannelDisconnected("IO error"));
          case Line(Some(m)) =>
            if m.Heartbeat? {
              lastHeartbeat := a.doneAt;
            }
            return Some(Received(m));
          case Line(None) =>
          case Transient =>
            event := CheckHeartbeatTimeout(a.doneAt);
            if event.Some? {
              return;
            }
        }
      }
      event := None;
    }
  }

  // What the listener answers with.

  predicate InTime(timeout: nat, last: nat, a: Attempt) {
    Elapsed(last, a.checkedAt) <= timeout
  }

  /** Neither a message nor an end: a line of something else, or nothing yet with time left. */
  predicate PassedOver(timeout: nat, last: nat, a: Attempt) {
    a.read == Line(None) || (a.read == Transient && Elapsed(last, a.doneAt) <= timeout)
  }

  /** The attempts before `n` come in time and give nothing. */
  ghost predicate Reaches(timeout: nat, last: nat, attempts: seq<Attempt>, n: nat) {
    && n <= |attempts|
    && forall i | 0 <= i < n :: InTime(timeout, last, attempts[i]) && PassedOver(timeout, last, attempts[i])
  }

  /** The attempt at `n` is the first to come too late or to give something. */
  ghost predicate StopsAt(timeout: nat, last: nat, attempts: seq<Attempt>, n: nat) {
    && Reaches(timeout, last, attempts, n) && n < |attempts|
    && !(InTime(timeout, last, attempts[n]) && PassedOver(timeout, last, attempts[n]))
  }

  lemma {:induction false} NextStopsAt(timeout: nat, last: nat, attempts: seq<Attempt>) returns (n: nat)
    ensures Reaches(timeout, last, attempts, n)
    ensures var (event, last', rest) := Next(timeout, last, attempts);
            if n == |attempts| then event.None? && rest == []
            else
              && StopsAt(timeout, last, attempts, n) && event.Some?
              && rest == (if InTime(timeout, last, attempts[n]) then attempts[n + 1..] else attempts[n..])
              && (event.value.HeartbeatTimeout? <==>
                    !InTime(timeout, last, attempts[n]) || attempts[n].read == Transient)
              && (event.value == ChannelDisconnected("EOF") <==>
                    InTime(timeout, last, attempts[n]) && attempts[n].read == Eof)
              && (event.value == ChannelDisconnected("IO error") <==>
                    InTime(timeout, last, attempts[n]) && attempts[n].read == Broken)
              && (event.value.ChannelDisconnected? <==>
                    InTime(timeout, last, attempts[n]) && attempts[n].read in {Eof, Broken})
              && (event.value.Received? ==>
                    InTime(timeout, last, attempts[n]) && attempts[n].read == Line(Some(event.value.message)))
  {
    n := 0;
    if attempts != [] && InTime(timeout, last, attempts[0]) && PassedOver(timeout, last, attempts[0]) {
      var m := NextStopsAt(timeout, last, attempts[1..]);
      n := m + 1;
    }
  }

  lemma OneStop(timeout: nat, last: nat, attempts: seq<Attempt>, m: nat, n: nat)
    requires StopsAt(timeout, last, attempts, m) && StopsAt(timeout, last, attempts, n)
    ensures m == n
  {
  }

  lemma NoStop(timeout: nat, last: nat, attempts: seq<Attempt>, k: nat)
    requires Reaches(timeout, last, attempts, |attempts|)
    ensures !StopsAt(timeout, last, attempts, k)
  {
  }

  /** The event is decided by the first attempt that comes too late or gives
      something: a line that is no message is passed over, a message in time is
      received, and only an end of the channel in time disconnects it. */
  lemma NextAnswersExactlyWhen(timeout: nat, last: nat, attempts: seq<Attempt>, m: Message)
    ensures var event := Next(timeout, last, attempts).0;
            && (event == Some(Received(m)) <==>
                  exists n: nat :: StopsAt(timeout, last, attempts, n) && InTime(timeout, last, attempts[n]) &&
                                   attempts[n].read == Line(Some(m)))
            && (event.Some? && event.value.ChannelDisconnected? <==>
                  exists n: nat :: StopsAt(timeout, last, attempts, n) && InTime(timeout, last, attempts[n]) &&
                                   attempts[n].read in {Eof, Broken})
            && (event == Some(ChannelDisconnected("EOF")) <==>
                  exists n: nat :: StopsAt(timeout, last, attempts, n) && InTime(timeout, last, attempts[n]) &&
                                   attempts[n].read == Eof)
            && (event.Some? && event.value.HeartbeatTimeout? <==>
                  exists n: nat :: StopsAt(timeout, last, attempts, n) &&
                                   (!InTime(timeout, last, attempts[n]) || attempts[n].read == Transient))
  {
    var n := NextStopsAt(timeout, last, attempts);
    forall k: nat | StopsAt(timeout, last, attempts, k) ensures k == n {
      if n < |attempts| {
        OneStop(timeout, last, attempts, k, n);
      } else {
        NoStop(timeout, last, attempts, k);
      }
    }
  }

  // The worker that drains the listener.

  predicate Terminal(event: Event) {
    event.HeartbeatTimeout? || event.ChannelDisconnected? || event.message.DetachAck?
  }

  lemma {:induction false} NextReadsOn(timeout: nat, last: nat, attempts: seq<Attempt>)
    ensures |Next(timeout, last, attempts).2| <= |attempts|
    ensures Next(timeout, last, attempts).0.Some? && !Terminal(Next(timeout, last, attempts).0.value) ==>
              |Next(timeout, last, attempts).2| < |attempts|
  {
    if attempts != [] {
      NextReadsOn(timeout, last, attempts[1..]);
    }
  }

  /** Everything the worker sends: events up to the first terminal one. */
  function WorkerEvents(timeout: nat, last: nat, attempts: seq<Attempt>): seq<Event>
    decreases |attempts|
  {
    NextReadsOn(timeout, last, attempts);
    var (event, last', rest) := Next(timeout, last, attempts);
    if event.None? then []
    else if Terminal(event.value) then [event.value]
    else [event.value] + WorkerEvents(timeout, last', rest)
  }

  /** The messages among the lines. */
  function Messages(attempts: seq<Attempt>): seq<Message> {
    if attempts == [] then []
    else match attempts[0].read
      case Line(Some(m)) => [m] + Messages(attempts[1..])
      case _ => Messages(attempts[1..])
  }

  function MessagesIn(events: seq<Event>): seq<Message> {
    if events == [] then []
    else if events[0].Received? then [events[0].message] + MessagesIn(events[1..])
    else MessagesIn(events[1..])
  }

  lemma {:induction false} NextTakesFirstMessage(timeout: nat, last: nat, attempts: seq<Attempt>)
    ensures var (event, _, rest) := Next(timeout, last, attempts);
            if event.Some? && event.value.Received? then Messages(attempts) == [event.value.message] + Messages(rest)
            else Messages(rest) == Messages(attempts) || (event.Some? && event.value.ChannelDisconnected?)
  {
    if attempts != [] {
      NextTakesFirstMessage(timeout, last, attempts[1..]);
    }
  }

  /** The worker sends the messages of the lines in their order, skipping only
      what is no message, and nothing after the first terminal event. */
  lemma {:induction false} WorkerKeepsOrder(timeout: nat, last: nat, attempts: seq<Attempt>)
    ensures MessagesIn(WorkerEvents(timeout, last, attempts)) <= Messages(attempts)
    ensures forall i | 0 <= i < |WorkerEvents(timeout, last, attempts)| - 1 ::
              !Terminal(WorkerEvents(timeout, last, attempts)[i])
    decreases |attempts|
  {
    NextReadsOn(timeout, last, attempts);
    NextTakesFirstMessage(timeout, last, attempts);
    var (event, last', rest) := Next(timeout, last, attempts);
    if event.Some? {
      var events := WorkerEvents(timeout, last, attempts);
      if Terminal(event.value) {
        assert MessagesIn(events[1..]) == [];
      } else {
        WorkerKeepsOrder(timeout, last', rest);
        assert events[1..] == WorkerEvents(timeout, last', rest);
      }
    }
  }

  /** The time of the last heartbeat once these attempts are through. */
  function LastBeat(start: nat, read: seq<Attempt>): nat
    decreases |read|
  {
    if read == [] then start
    else LastBeat(if read[0].read == Line(Some(Heartbeat)) then read[0].doneAt else start, read[1..])
  }

  lemma {:induction false} LastBeatAppend(start: nat, a: seq<Attempt>, b: seq<Attempt>)
    ensures LastBeat(start, a + b) == LastBeat(LastBeat(start, a), b)
    decreases |a|
  {
    if a == [] {
      assert a + b == b;
    } else {
      assert (a + b)[1..] == a[1..] + b;
      LastBeatAppend(if a[0].read == Line(Some(Heartbeat)) then a[0].doneAt else start, a[1..], b);
    }
  }

  /** When `n` attempts were read, a clock stood `elapsed` past the last heartbeat, which is too long. */
  ghost predicate SilentAt(timeout: nat, start: nat, attempts: seq<Attempt>, n: nat, elapsed: nat) {
    && n <= |attempts| && elapsed > timeout
    && ((n < |attempts| && elapsed == Elapsed(LastBeat(start, attempts[..n]), attempts[n].checkedAt))
        || (0 < n && elapsed == Elapsed(LastBeat(start, attempts[..n]), attempts[n - 1].doneAt)))
  }

  lemma {:induction false} NextSilence(timeout: nat, last: nat, attempts: seq<Attempt>) returns (n: nat)
    ensures var (event, last', rest) := Next(timeout, last, attempts);
            && n <= |attempts| && rest == attempts[n..] && last' == LastBeat(last, attempts[..n])
            && (event.Some? && event.value.HeartbeatTimeout? ==>
                  SilentAt(timeout, last, attempts, n, event.value.elapsedMs))
  {
    if attempts == [] || Elapsed(last, attempts[0].checkedAt) > timeout {
      n := 0;
    } else {
      var a, rest := attempts[0], attempts[1..];
      assert attempts[..1] == [a] && [a][1..] == [];
      if a.read == Line(None) || (a.read == Transient && Elapsed(last, a.doneAt) <= timeout) {
        var m := NextSilence(timeout, last, rest);
        n := m + 1;
        assert attempts[..n] == [a] + rest[..m];
        LastBeatAppend(last, [a], rest[..m]);
      } else {
        n := 1;
      }
    }
  }

  lemma SilenceShifts(timeout: nat, last: nat, attempts: seq<Attempt>, n: nat, m: nat)
    requires n <= |attempts|
    ensures forall e | m > 0 && SilentAt(timeout, LastBeat(last, attempts[..n]), attempts[n..], m, e) ::
              SilentAt(timeout, last, attempts, n + m, e)
    ensures forall e | m == 0 && SilentAt(timeout, LastBeat(last, attempts[..n]), attempts[n..], m, e) ::
              SilentAt(timeout, last, attempts, n, e)
  {
    if m <= |attempts[n..]| {
      LastBeatAppend(last, attempts[..n], attempts[n..][..m]);
      assert attempts[..n] + attempts[n..][..m] == attempts[..n + m];
    }
  }

  /** The worker ends on a heartbeat timeout only when the clock had passed the
      last heartbeat it read by more than the timeout. */
  lemma {:induction false} TimeoutMeansSilence(timeout: nat, last: nat, attempts: seq<Attempt>) returns (n: nat)
    ensures var events := WorkerEvents(timeout, last, attempts);
            events != [] && Last(events).HeartbeatTimeout? ==>
              SilentAt(timeout, last, attempts, n, Last(events).elapsedMs)
    decreases |attempts|
  {
    NextReadsOn(timeout, last, attempts);
    n := NextSilence(timeout, last, attempts);
    var (event, last', rest) := Next(timeout, last, attempts);
    if event.Some? && !Terminal(event.value) {
      var m := TimeoutMeansSilence(timeout, last', rest);
      SilenceShifts(timeout, last, attempts, n, m);
      n := n + m;
    }
  }

  // Which messages get through.

  predicate EndsWorker(timeout: nat, last: nat, a: Attempt) {
    || !InTime(timeout, last, a)
    || a.read in {Eof, Broken, Line(Some(DetachAck))}
    || (a.read == Transient && Elapsed(last, a.doneAt) > timeout)
  }

  /** None of the first `k` attempts ends the worker. */
  ghost predicate Undisturbed(timeout: nat, start: nat, attempts: seq<Attempt>, k: nat) {
    && k <= |attempts|
    && forall i | 0 <= i < k :: !EndsWorker(timeout, LastBeat(start, attempts[..i]), attempts[i])
  }

  lemma UndisturbedRest(timeout: nat, start: nat, attempts: seq<Attempt>, k: nat)
    requires 0 < k && Undisturbed(timeout, start, attempts, k)
    ensures !EndsWorker(timeout, start, attempts[0])
    ensures Undisturbed(timeout, LastBeat(start, attempts[..1]), attempts[1..], k - 1)
    ensures LastBeat(start, attempts[..k]) == LastBeat(LastBeat(start, attempts[..1]), attempts[1..][..k - 1])
  {
    assert attempts[..0] == [];
    forall i | 0 <= i < k
      ensures LastBeat(start, attempts[..i + 1]) == LastBeat(LastBeat(start, attempts[..1]), attempts[1..][..i])
    {
      assert attempts[..i + 1] == attempts[..1] + attempts[1..][..i];
      LastBeatAppend(start, attempts[..1], attempts[1..][..i]);
    }
    var rest, last := attempts[1..], LastBeat(start, attempts[..1]);
    forall i | 0 <= i < k - 1 ensures !EndsWorker(timeout, LastBeat(last, rest[..i]), rest[i]) {
      assert rest[i] == attempts[i + 1];
    }
  }

  lemma MessagesFirst(attempts: seq<Attempt>, k: nat)
    requires 0 < k <= |attempts|
    ensures Messages(attempts[..k]) ==
            (match attempts[0].read case Line(Some(m)) => [m] case _ => []) + Messages(attempts[1..][..k - 1])
  {
    assert attempts[..k][1..] == attempts[1..][..k - 1];
  }

  lemma WorkerGoesOn(timeout: nat, last: nat, attempts: seq<Attempt>)
    requires attempts != [] && !EndsWorker(timeout, last, attempts[0])
    ensures MessagesIn(WorkerEvents(timeout, last, attempts)) ==
            (match attempts[0].read case Line(Some(m)) => [m] case _ => [])
            + MessagesIn(WorkerEvents(timeout, LastBeat(last, attempts[..1]), attempts[1..]))
  {
    assert attempts[..1] == [attempts[0]] && attempts[..1][1..] == [];
  }

  /** The worker sends every message up to the first attempt that ends it, and
      of those behind nothing but the acknowledgement of a detach. */
  lemma {:induction false} WorkerSendsExactly(timeout: nat, start: nat, attempts: seq<Attempt>, k: nat)
    requires Undisturbed(timeout, start, attempts, k)
    requires k == |attempts| || EndsWorker(timeout, LastBeat(start, attempts[..k]), attempts[k])
    ensures MessagesIn(WorkerEvents(timeout, start, attempts)) ==
            Messages(attempts[..k])
            + (if k < |attempts| && InTime(timeout, LastBeat(start, attempts[..k]), attempts[k])
                  && attempts[k].read == Line(Some(DetachAck)) then [DetachAck] else [])
    decreases |attempts|
  {
    if k == 0 {
      assert attempts[..0] == [];
    } else {
      UndisturbedRest(timeout, start, attempts, k);
      WorkerSendsExactly(timeout, LastBeat(start, attempts[..1]), attempts[1..], k - 1);
      WorkerGoesOn(timeout, start, attempts);
      MessagesFirst(attempts, k);
    }
  }

  /** Nothing is lost while the clock stays in time and the channel holds. */
  lemma UndisturbedWorkerSendsAll(timeout: nat, start: nat, attempts: seq<Attempt>)
    requires Undisturbed(timeout, start, attempts, |attempts|)
    ensures MessagesIn(WorkerEvents(timeout, start, attempts)) == Messages(attempts)
  {
    assert attempts[..|attempts|] == attempts;
    WorkerSendsExactly(timeout, start, attempts, |attempts|);
  }
}

/** Matching app-server messages to requests, as `codex_observer.rs` does it:
    what is received, held back, delivered and answered. */
module CodexCorrelation {
  import opened Sequences
  import opened Wrappers

  datatype Kind = Skill | Mcp | Plugin | App

  /** A JSON value and the `id` it carries, if that is an unsigned number. */
  datatype Value = Value(id: Option<nat>, body: string)

  /** What one read of the line channel gives; `Quiet` is a timeout or a closed channel. */
  datatype Outcome = Arrived(value: Value) | Malformed | Failed | Quiet

  datatype ReadError = TimedOut | InvalidData | IoError

  /** A message handed out: which arrival it was, and the request it answered. */
  datatype Delivery = Delivery(index: nat, reply: Option<(nat, Kind)>)

  /** `pending` holds arrivals by number; `asked[id - 2]` is what request `id` asked for. */
  datatype State = State(
    received: seq<Value>,
    pending: seq<nat>,
    log: seq<Delivery>,
    inflight: map<nat, Kind>,
    asked: seq<Kind>)

  const FIRST_ID: nat := 2
  const INITIALIZE_ID: nat := 1

  const START := State([], [], [], map[], [])

  function NextId(s: State): nat {
    |s.asked| + FIRST_ID
  }

  // Steps.

  function Receive(s: State, v: Value): State {
    s.(received := s.received + [v])
  }

  function HoldBack(s: State, k: nat): State {
    s.(pending := s.pending + [k])
  }

  function ReplyTo(s: State, id: Option<nat>): Option<(nat, Kind)> {
    if id.Some? && id.value in s.inflight then Some((id.value, s.inflight[id.value])) else None
  }

  function IdOf(received: seq<Value>, k: nat): Option<nat> {
    if k < |received| then received[k].id else None
  }

  function Deliver(s: State, k: nat): State {
    s.(log := s.log + [Delivery(k, ReplyTo(s, IdOf(s.received, k)))])
  }

  /** The first held back message with this id, by its place in the queue. */
  function Position(received: seq<Value>, pending: seq<nat>, id: nat): (r: Option<nat>)
    ensures r.Some? ==> r.value < |pending| && IdOf(received, pending[r.value]) == Some(id)
  {
    if pending == [] then None
    else if IdOf(received, pending[0]) == Some(id) then Some(0)
    else match Position(received, pending[1..], id) case Some(i) => Some(i + 1) case None => None
  }

  function RemoveAt<T>(s: seq<T>, i: nat): seq<T>
    requires i < |s|
  {
    s[..i] + s[i + 1..]
  }

  datatype Taken = Taken(state: State, result: Result<nat, ReadError>, rest: seq<Outcome>)

  /** `take_response`: reads on until a message with this id turns up or a read gives none. */
  function Take(s: State, id: nat, inbox: seq<Outcome>): Taken
    decreases |inbox|
  {
    var position := Position(s.received, s.pending, id);
    if position.Some? then
      var k := s.pending[position.value];
      Taken(Deliver(s.(pending := RemoveAt(s.pending, position.value)), k), Ok(k), inbox)
    else if inbox == [] then Taken(s, Err(TimedOut), [])
    else
      match inbox[0]
      case Arrived(v) =>
        var k := |s.received|;
        if v.id == Some(id) then Taken(Deliver(Receive(s, v), k), Ok(k), inbox[1..])
        else Take(HoldBack(Receive(s, v), k), id, inbox[1..])
      case Malformed => Taken(s, Err(InvalidData), inbox[1..])
      case Failed => Taken(s, Err(IoError), inbox[1..])
      case Quiet => Taken(s, Err(TimedOut), inbox[1..])
  }

  function Forget(s: State, id: nat): State {
    s.(inflight := s.inflight - {id})
  }

  /** `normalize_value`. */
  function Hand(s: State, k: nat): State {
    var d, id := Deliver(s, k), IdOf(s.received, k);
    if id.Some? then Forget(d, id.value) else d
  }

  /** `next_event`: the first held back message, or else the next one read; a reply leaves the table. */
  function Next(s: State, inbox: seq<Outcome>): (State, Result<Option<nat>, ReadError>, seq<Outcome>) {
    if s.pending != [] then
      (Hand(s.(pending := s.pending[1..]), s.pending[0]), Ok(Some(s.pending[0])), inbox)
    else if inbox == [] then (s, Ok(None), [])
    else
      match inbox[0]
      case Arrived(v) => (Hand(Receive(s, v), |s.received|), Ok(Some(|s.received|)), inbox[1..])
      case Malformed => (s, Err(InvalidData), inbox[1..])
      case Failed => (s, Err(IoError), inbox[1..])
      case Quiet => (s, Ok(None), inbox[1..])
  }

  /** One capability request: the id is spent even when sending fails. */
  function Ask(s: State, kind: Kind): State {
    s.(asked := s.asked + [kind], inflight := s.inflight[NextId(s) := kind])
  }

  function AskUnsent(s: State, kind: Kind): State {
    s.(asked := s.asked + [kind])
  }

  /** What a request comes to: its reply, or a notice that it is unavailable. */
  datatype Answer = Reply(kind: Kind, index: nat) | Unavailable(kind: Kind, error: ReadError)

  function Request(s: State, kind: Kind, inbox: seq<Outcome>): (State, Answer, seq<Outcome>) {
    var id := NextId(s);
    var t := Take(Ask(s, kind), id, inbox);
    match t.result
    case Ok(k) => (Forget(t.state, id), Reply(kind, k), t.rest)
    case Err(e) => (t.state, Unavailable(kind, e), t.rest)
  }

  const REQUESTS: seq<Kind> := [Skill, Mcp, Plugin, App]

  /** The requests in turn; `sent` says how many can be sent before the pipe breaks. */
  function RequestAll(s: State, kinds: seq<Kind>, sent: nat, inbox: seq<Outcome>):
    (State, Option<seq<Answer>>, seq<Outcome>)
    decreases |kinds|
  {
    if kinds == [] then (s, Some([]), inbox)
    else if sent == 0 then (AskUnsent(s, kinds[0]), None, inbox)
    else
      var (t, answer, rest) := Request(s, kinds[0], inbox);
      var (u, answers, rest') := RequestAll(t, kinds[1..], sent - 1, rest);
      (u, match answers case Some(more) => Some([answer] + more) case None => None, rest')
  }

  // Conservation.

  predicate Delivered(log: seq<Delivery>, k: nat) {
    exists i :: 0 <= i < |log| && log[i].index == k
  }

  /** Every message received is held back or was handed out, once; the queue is in arrival order. */
  ghost predicate Conserved(s: State) {
    && (forall i, j | 0 <= i < j < |s.pending| :: s.pending[i] < s.pending[j])
    && (forall k | k in s.pending :: k < |s.received|)
    && (forall d | d in s.log :: d.index < |s.received|)
    && (forall i, j | 0 <= i < j < |s.log| :: s.log[i].index != s.log[j].index)
    && (forall k: nat | k < |s.received| :: Delivered(s.log, k) <==> k !in s.pending)
  }

  /** Handing out a message that is neither held back nor handed out yet. */
  ghost predicate ConservedBut(s: State, k: nat) {
    && k < |s.received| && k !in s.pending && !Delivered(s.log, k)
    && (forall i, j | 0 <= i < j < |s.pending| :: s.pending[i] < s.pending[j])
    && (forall j | j in s.pending :: j < |s.received|)
    && (forall d | d in s.log :: d.index < |s.received|)
    && (forall i, j | 0 <= i < j < |s.log| :: s.log[i].index != s.log[j].index)
    && (forall j: nat | j < |s.received| && j != k :: Delivered(s.log, j) <==> j !in s.pending)
  }

  lemma DeliveredSnoc(log: seq<Delivery>, d: Delivery, k: nat)
    ensures Delivered(log + [d], k) <==> Delivered(log, k) || d.index == k
  {
    if Delivered(log, k) {
      var i :| 0 <= i < |log| && log[i].index == k;
      assert (log + [d])[i].index == k;
    }
    if d.index == k {
      assert (log + [d])[|log|].index == k;
    }
  }

  lemma DeliverConserves(s: State, k: nat)
    requires ConservedBut(s, k)
    ensures Conserved(Deliver(s, k))
  {
    var t := Deliver(s, k);
    var d := t.log[|s.log|];
    forall j: nat ensures Delivered(t.log, j) <==> Delivered(s.log, j) || j == k {
      DeliveredSnoc(s.log, d, j);
    }
    forall i, j | 0 <= i < j < |t.log| ensures t.log[i].index != t.log[j].index {
      assert t.log[i] == s.log[i] && (s.log[i].index == k ==> Delivered(s.log, k));
    }
  }

  lemma ReceiveIsOutstanding(s: State, v: Value)
    requires Conserved(s)
    ensures ConservedBut(Receive(s, v), |s.received|)
  {
    assert forall i | 0 <= i < |s.log| :: s.log[i] in s.log;
  }

  lemma HoldBackConserves(s: State, v: Value)
    requires Conserved(s)
    ensures Conserved(HoldBack(Receive(s, v), |s.received|))
  {
    ReceiveIsOutstanding(s, v);
    var t := HoldBack(Receive(s, v), |s.received|);
    forall i, j | 0 <= i < j < |t.pending| ensures t.pending[i] < t.pending[j] {
      assert t.pending[i] in s.pending;
    }
  }

  lemma RemoveAtMember(s: seq<nat>, i: nat, x: nat)
    requires i < |s| && forall a, b | 0 <= a < b < |s| :: s[a] < s[b]
    ensures x in RemoveAt(s, i) <==> x in s && x != s[i]
  {
    if x in s && x != s[i] {
      var j :| 0 <= j < |s| && s[j] == x;
      assert j < i ==> s[..i][j] == x;
      assert j > i ==> s[i + 1..][j - i - 1] == x;
    }
  }

  lemma RemovePending(s: State, i: nat)
    requires Conserved(s) && i < |s.pending|
    ensures ConservedBut(s.(pending := RemoveAt(s.pending, i)), s.pending[i])
  {
    var k, rest := s.pending[i], RemoveAt(s.pending, i);
    assert k in s.pending;
    forall j ensures j in rest <==> j in s.pending && j != k {
      RemoveAtMember(s.pending, i, j);
    }
  }

  lemma {:induction false} PositionIsFirst(received: seq<Value>, pending: seq<nat>, id: nat)
    ensures var p := Position(received, pending, id);
            match p
            case Some(i) => forall j | 0 <= j < i :: IdOf(received, pending[j]) != Some(id)
            case None => forall k | k in pending :: IdOf(received, k) != Some(id)
  {
    if pending != [] {
      assert pending == [pending[0]] + pending[1..];
      PositionIsFirst(received, pending[1..], id);
    }
  }

  /** `k` is the earliest message with this id that was not handed out before. */
  ghost predicate EarliestWith(received: seq<Value>, log: seq<Delivery>, id: nat, k: nat) {
    && k < |received| && received[k].id == Some(id)
    && forall j: nat | j < k && received[j].id == Some(id) :: Delivered(log, j)
  }

  /** Taking a response keeps every other message, in order, whether it is found or not. */
  lemma {:induction false} TakeConserves(s: State, id: nat, inbox: seq<Outcome>)
    requires Conserved(s)
    ensures Conserved(Take(s, id, inbox).state)
    decreases |inbox|
  {
    var position := Position(s.received, s.pending, id);
    if position.Some? {
      assert s.pending[position.value] in s.pending;
      RemovePending(s, position.value);
      DeliverConserves(s.(pending := RemoveAt(s.pending, position.value)), s.pending[position.value]);
    } else if inbox != [] && inbox[0].Arrived? {
      var v := inbox[0].value;
      if v.id == Some(id) {
        ReceiveIsOutstanding(s, v);
        DeliverConserves(Receive(s, v), |s.received|);
      } else {
        HoldBackConserves(s, v);
        TakeConserves(HoldBack(Receive(s, v), |s.received|), id, inbox[1..]);
      }
    }
  }

  lemma HeldBackIsEarliest(s: State, id: nat, i: nat)
    requires Conserved(s) && i < |s.pending| && IdOf(s.received, s.pending[i]) == Some(id)
    requires forall j | 0 <= j < i :: IdOf(s.received, s.pending[j]) != Some(id)
    ensures EarliestWith(s.received, s.log, id, s.pending[i])
  {
    forall j: nat | j < s.pending[i] && s.received[j].id == Some(id) ensures Delivered(s.log, j) {
      forall m | 0 <= m < |s.pending| ensures s.pending[m] != j {
        assert m > i ==> s.pending[i] < s.pending[m];
        assert m < i ==> IdOf(s.received, s.pending[m]) != Some(id);
      }
    }
  }

  /** A response taken is the earliest undelivered message with its id. */
  lemma {:induction false} TakeIsEarliest(s: State, id: nat, inbox: seq<Outcome>)
    requires Conserved(s)
    ensures var t := Take(s, id, inbox);
            && s.received <= t.state.received
            && (t.result.Err? ==> t.state.log == s.log &&
                                  forall k | k in t.state.pending :: IdOf(t.state.received, k) != Some(id))
            && (t.result.Ok? ==> EarliestWith(t.state.received, s.log, id, t.result.value) &&
                                 t.state.log == s.log + [Delivery(t.result.value, ReplyTo(s, Some(id)))])
    decreases |inbox|
  {
    var position := Position(s.received, s.pending, id);
    PositionIsFirst(s.received, s.pending, id);
    if position.Some? {
      HeldBackIsEarliest(s, id, position.value);
    } else if inbox != [] && inbox[0].Arrived? {
      var v, k := inbox[0].value, |s.received|;
      if v.id == Some(id) {
        forall j: nat | j < k && s.received[j].id == Some(id) ensures Delivered(s.log, j) {
          assert j !in s.pending;
        }
      } else {
        HoldBackConserves(s, v);
        TakeIsEarliest(HoldBack(Receive(s, v), k), id, inbox[1..]);
      }
    }
  }

  // When a response is found.

  /** A message with this id is held back. */
  ghost predicate HasHeldBack(s: State, id: nat) {
    exists k :: k in s.pending && IdOf(s.received, k) == Some(id)
  }

  /** The channel gives message after message until, at place `j`, one with this id. */
  ghost predicate ArrivesAt(inbox: seq<Outcome>, id: nat, j: nat) {
    && j < |inbox| && inbox[j].Arrived? && inbox[j].value.id == Some(id)
    && forall i | 0 <= i < j :: inbox[i].Arrived?
  }

  /** Before place `n` come messages with other ids only; there comes something else, or nothing more. */
  ghost predicate ReadsUpTo(inbox: seq<Outcome>, id: nat, n: nat) {
    && n <= |inbox|
    && (forall i | 0 <= i < n :: inbox[i].Arrived? && inbox[i].value.id != Some(id))
    && (n < |inbox| && inbox[n].Arrived? ==> inbox[n].value.id == Some(id))
  }

  /** What taking a response comes to when the read at place `n` settles it. */
  function Settled(received: nat, inbox: seq<Outcome>, n: nat): Result<nat, ReadError> {
    if n >= |inbox| then Err(TimedOut)
    else
      match inbox[n]
      case Arrived(_) => Ok(received + n)
      case Malformed => Err(InvalidData)
      case Failed => Err(IoError)
      case Quiet => Err(TimedOut)
  }

  lemma PositionFindsHeldBack(s: State, id: nat)
    ensures Position(s.received, s.pending, id).Some? <==> HasHeldBack(s, id)
  {
    PositionIsFirst(s.received, s.pending, id);
    match Position(s.received, s.pending, id)
    case Some(i) => assert s.pending[i] in s.pending;
    case None =>
  }

  /** With no such message held back, everything up to the first outcome that
      settles it is read, and nothing behind it. */
  lemma {:induction false} TakeReadsUpTo(s: State, id: nat, inbox: seq<Outcome>, n: nat)
    requires !HasHeldBack(s, id) && ReadsUpTo(inbox, id, n)
    requires forall k | k in s.pending :: k < |s.received|
    ensures Take(s, id, inbox).result == Settled(|s.received|, inbox, n)
    ensures Take(s, id, inbox).rest == if n < |inbox| then inbox[n + 1..] else []
    decreases |inbox|
  {
    PositionFindsHeldBack(s, id);
    if n > 0 {
      var v := inbox[0].value;
      var t := HoldBack(Receive(s, v), |s.received|);
      forall k | k in t.pending ensures IdOf(t.received, k) != Some(id) {
        assert k in s.pending || k == |s.received|;
      }
      TakeReadsUpTo(t, id, inbox[1..], n - 1);
    }
  }

  lemma {:induction false} ReadsUpToSomewhere(inbox: seq<Outcome>, id: nat) returns (n: nat)
    ensures ReadsUpTo(inbox, id, n)
  {
    if inbox == [] || !inbox[0].Arrived? || inbox[0].value.id == Some(id) {
      n := 0;
    } else {
      var m := ReadsUpToSomewhere(inbox[1..], id);
      n := m + 1;
    }
  }

  /** A response is taken exactly when it is held back already or arrives before anything that is no message. */
  lemma TakeFindsExactlyWhen(s: State, id: nat, inbox: seq<Outcome>)
    requires Conserved(s)
    ensures Take(s, id, inbox).result.Ok? <==> HasHeldBack(s, id) || exists j: nat :: ArrivesAt(inbox, id, j)
    ensures HasHeldBack(s, id) ==> Take(s, id, inbox).rest == inbox
  {
    PositionFindsHeldBack(s, id);
    if !HasHeldBack(s, id) {
      var n := ReadsUpToSomewhere(inbox, id);
      TakeReadsUpTo(s, id, inbox, n);
      if Take(s, id, inbox).result.Ok? {
        assert ArrivesAt(inbox, id, n);
      }
      forall j: nat | ArrivesAt(inbox, id, j) ensures n < |inbox| && inbox[n].Arrived? {
        assert n == j || n < j;
      }
    }
  }

  lemma ForgetConserves(s: State, id: nat)
    requires Conserved(s)
    ensures Conserved(Forget(s, id))
  {
  }

  lemma HandConserves(s: State, k: nat)
    requires ConservedBut(s, k)
    ensures Conserved(Hand(s, k))
  {
    DeliverConserves(s, k);
    if IdOf(s.received, k).Some? {
      ForgetConserves(Deliver(s, k), IdOf(s.received, k).value);
    }
  }

  lemma NextConserves(s: State, inbox: seq<Outcome>)
    requires Conserved(s)
    ensures Conserved(Next(s, inbox).0)
  {
    if s.pending != [] {
      RemovePending(s, 0);
      assert RemoveAt(s.pending, 0) == s.pending[1..];
      HandConserves(s.(pending := s.pending[1..]), s.pending[0]);
    } else if inbox != [] && inbox[0].Arrived? {
      ReceiveIsOutstanding(s, inbox[0].value);
      HandConserves(Receive(s, inbox[0].value), |s.received|);
    }
  }

  /** The next event is the earliest message not handed out yet. */
  lemma NextIsEarliest(s: State, inbox: seq<Outcome>)
    requires Conserved(s)
    ensures var (t, r, rest) := Next(s, inbox);
            && s.received <= t.received
            && (r.Err? || r.value.None? ==> t == s && s.pending == [])
            && (r.Err? <==> s.pending == [] && inbox != [] && (inbox[0].Malformed? || inbox[0].Failed?))
            && (r == Ok(None) <==> s.pending == [] && (inbox == [] || inbox[0].Quiet?))
            && (r.Ok? && r.value.Some? ==>
                  && r.value.value < |t.received|
                  && t.log == s.log + [Delivery(r.value.value, ReplyTo(s, IdOf(t.received, r.value.value)))]
                  && forall j: nat | j < r.value.value :: Delivered(s.log, j))
  {
    if s.pending != [] {
      assert s.pending[0] in s.pending;
      forall j: nat | j < s.pending[0] ensures Delivered(s.log, j) {
        assert j !in s.pending;
      }
    }
  }

  // Correlation.

  predicate Answers(s: State, d: Delivery) {
    match d.reply
    case None => true
    case Some((id, kind)) =>
      && FIRST_ID <= id < NextId(s) && kind == s.asked[id - FIRST_ID]
      && id !in s.inflight && IdOf(s.received, d.index) == Some(id)
  }

  /** An id in the table is a request still unanswered; every reply handed out
      names the request that asked, and no request is answered twice. */
  ghost predicate Correlated(s: State) {
    && (forall id | id in s.inflight :: FIRST_ID <= id < NextId(s) && s.inflight[id] == s.asked[id - FIRST_ID])
    && (forall d | d in s.log :: Answers(s, d))
    && (forall i, j | 0 <= i < j < |s.log| && s.log[i].reply.Some? && s.log[j].reply.Some? ::
          s.log[i].reply.value.0 != s.log[j].reply.value.0)
  }

  lemma HandCorrelates(s: State, k: nat)
    requires Correlated(s) && k < |s.received|
    ensures Correlated(Hand(s, k))
  {
    var t := Hand(s, k);
    forall d | d in t.log ensures Answers(t, d) {
      assert d in s.log ==> Answers(s, d);
    }
    forall i, j | 0 <= i < j < |t.log| && t.log[i].reply.Some? && t.log[j].reply.Some?
      ensures t.log[i].reply.value.0 != t.log[j].reply.value.0
    {
      assert t.log[i] == s.log[i] && s.log[i] in s.log;
      assert Answers(s, s.log[i]);
    }
  }

  /** A late reply is handed out under the name of the request that asked for it,
      which leaves the table; any other message is handed out as the server's own. */
  lemma LateReplyIsNamed(s: State, inbox: seq<Outcome>)
    requires Conserved(s) && Correlated(s)
    ensures var (t, r, _) := Next(s, inbox);
            r.Ok? && r.value.Some? ==>
              var id := IdOf(t.received, r.value.value);
              && t.log != []
              && Last(t.log).reply == (if id.Some? && id.value in s.inflight
                                       then Some((id.value, s.asked[id.value - FIRST_ID])) else None)
              && t.inflight == (if id.Some? then s.inflight - {id.value} else s.inflight)
  {
    NextIsEarliest(s, inbox);
  }

  lemma MoreReceivedCorrelates(s: State, t: State)
    requires Correlated(s) && s.received <= t.received
    requires t.log == s.log && t.inflight == s.inflight && t.asked == s.asked
    ensures Correlated(t)
  {
    forall d | d in t.log ensures Answers(t, d) {
      assert Answers(s, d);
    }
  }

  lemma NextCorrelates(s: State, inbox: seq<Outcome>)
    requires Conserved(s) && Correlated(s)
    ensures Correlated(Next(s, inbox).0)
  {
    if s.pending != [] {
      assert s.pending[0] in s.pending;
      MoreReceivedCorrelates(s, s.(pending := s.pending[1..]));
      HandCorrelates(s.(pending := s.pending[1..]), s.pending[0]);
    } else if inbox != [] && inbox[0].Arrived? {
      MoreReceivedCorrelates(s, Receive(s, inbox[0].value));
      HandCorrelates(Receive(s, inbox[0].value), |s.received|);
    }
  }

  lemma {:induction false} TakeKeepsTable(s: State, id: nat, inbox: seq<Outcome>)
    ensures Take(s, id, inbox).state.inflight == s.inflight && Take(s, id, inbox).state.asked == s.asked
    decreases |inbox|
  {
    if Position(s.received, s.pending, id).None? && inbox != [] && inbox[0].Arrived? && inbox[0].value.id != Some(id) {
      TakeKeepsTable(HoldBack(Receive(s, inbox[0].value), |s.received|), id, inbox[1..]);
    }
  }

  lemma TakeCorrelates(s: State, id: nat, inbox: seq<Outcome>)
    requires Conserved(s) && Correlated(s)
    ensures var t := Take(s, id, inbox);
            Correlated(if t.result.Ok? then Forget(t.state, id) else t.state)
  {
    var t := Take(s, id, inbox);
    TakeIsEarliest(s, id, inbox);
    TakeKeepsTable(s, id, inbox);
    if t.result.Ok? {
      var k := t.result.value;
      var u := t.state.(log := s.log);
      MoreReceivedCorrelates(s, u);
      HandCorrelates(u, k);
      assert Hand(u, k) == Forget(t.state, id);
    } else {
      MoreReceivedCorrelates(s, t.state);
    }
  }

  lemma AskKeeps(s: State, kind: Kind)
    requires Conserved(s) && Correlated(s)
    ensures Conserved(Ask(s, kind)) && Correlated(Ask(s, kind))
    ensures Conserved(AskUnsent(s, kind)) && Correlated(AskUnsent(s, kind))
  {
    forall d | d in s.log ensures Answers(Ask(s, kind), d) && Answers(AskUnsent(s, kind), d) {
      assert Answers(s, d);
    }
  }

  lemma RequestKeeps(s: State, kind: Kind, inbox: seq<Outcome>)
    requires Conserved(s) && Correlated(s)
    ensures Conserved(Request(s, kind, inbox).0) && Correlated(Request(s, kind, inbox).0)
  {
    AskKeeps(s, kind);
    TakeConserves(Ask(s, kind), NextId(s), inbox);
    ForgetConserves(Take(Ask(s, kind), NextId(s), inbox).state, NextId(s));
    TakeCorrelates(Ask(s, kind), NextId(s), inbox);
  }

  lemma {:induction false} RequestAllKeeps(s: State, kinds: seq<Kind>, sent: nat, inbox: seq<Outcome>)
    requires Conserved(s) && Correlated(s)
    ensures Conserved(RequestAll(s, kinds, sent, inbox).0) && Correlated(RequestAll(s, kinds, sent, inbox).0)
    decreases |kinds|
  {
    if kinds != [] {
      if sent == 0 {
        AskKeeps(s, kinds[0]);
      } else {
        var (t, _, rest) := Request(s, kinds[0], inbox);
        RequestKeeps(s, kinds[0], inbox);
        RequestAllKeeps(t, kinds[1..], sent - 1, rest);
      }
    }
  }

  // Whole runs.

  datatype Call = Initialize(writable: bool) | Collect(sent: nat) | NextEvent

  function Step(s: State, call: Call, inbox: seq<Outcome>): (State, seq<Outcome>) {
    match call
    case Initialize(writable) =>
      if !writable then (s, inbox)
      else
        var t := Take(s, INITIALIZE_ID, inbox);
        (t.state, t.rest)
    case Collect(sent) =>
      var (t, _, rest) := RequestAll(s, REQUESTS, sent, inbox);
      (t, rest)
    case NextEvent =>
      var (t, _, rest) := Next(s, inbox);
      (t, rest)
  }

  function Run(calls: seq<Call>, inbox: seq<Outcome>): (State, seq<Outcome>) {
    if calls == [] then (START, inbox)
    else
      var (s, rest) := Run(DropLast(calls), inbox);
      Step(s, Last(calls), rest)
  }

  /** The messages among the outcomes. */
  function Arrivals(inbox: seq<Outcome>): seq<Value> {
    if inbox == [] then []
    else if inbox[0].Arrived? then [inbox[0].value] + Arrivals(inbox[1..])
    else Arrivals(inbox[1..])
  }

  lemma {:induction false} TakeReadsOn(s: State, id: nat, inbox: seq<Outcome>)
    ensures var t := Take(s, id, inbox);
            s.received + Arrivals(inbox) == t.state.received + Arrivals(t.rest)
    decreases |inbox|
  {
    if Position(s.received, s.pending, id).None? && inbox != [] && inbox[0].Arrived? {
      var v := inbox[0].value;
      AppendAssociative(s.received, [v], Arrivals(inbox[1..]));
      if v.id != Some(id) {
        TakeReadsOn(HoldBack(Receive(s, v), |s.received|), id, inbox[1..]);
      }
    }
  }

  lemma {:induction false} RequestAllReadsOn(s: State, kinds: seq<Kind>, sent: nat, inbox: seq<Outcome>)
    ensures var (t, _, rest) := RequestAll(s, kinds, sent, inbox);
            s.received + Arrivals(inbox) == t.received + Arrivals(rest)
    decreases |kinds|
  {
    if kinds != [] && sent > 0 {
      TakeReadsOn(Ask(s, kinds[0]), NextId(s), inbox);
      var (t, _, rest) := Request(s, kinds[0], inbox);
      RequestAllReadsOn(t, kinds[1..], sent - 1, rest);
    }
  }

  lemma NextReadsOn(s: State, inbox: seq<Outcome>)
    ensures s.received + Arrivals(inbox) == Next(s, inbox).0.received + Arrivals(Next(s, inbox).2)
  {
    if s.pending == [] && inbox != [] && inbox[0].Arrived? {
      AppendAssociative(s.received, [inbox[0].value], Arrivals(inbox[1..]));
    }
  }

  lemma StepReadsOn(s: State, call: Call, inbox: seq<Outcome>)
    ensures s.received + Arrivals(inbox) == Step(s, call, inbox).0.received + Arrivals(Step(s, call, inbox).1)
  {
    match call
    case Initialize(_) => TakeReadsOn(s, INITIALIZE_ID, inbox);
    case Collect(sent) => RequestAllReadsOn(s, REQUESTS, sent, inbox);
    case NextEvent => NextReadsOn(s, inbox);
  }

  lemma StepKeeps(s: State, call: Call, inbox: seq<Outcome>)
    requires Conserved(s) && Correlated(s)
    ensures Conserved(Step(s, call, inbox).0) && Correlated(Step(s, call, inbox).0)
  {
    match call
    case Initialize(_) =>
      TakeConserves(s, INITIALIZE_ID, inbox);
      TakeCorrelates(s, INITIALIZE_ID, inbox);
      TakeKeepsTable(s, INITIALIZE_ID, inbox);
      assert Forget(Take(s, INITIALIZE_ID, inbox).state, INITIALIZE_ID) == Take(s, INITIALIZE_ID, inbox).state;
    case Collect(sent) => RequestAllKeeps(s, REQUESTS, sent, inbox);
    case NextEvent =>
      NextConserves(s, inbox);
      NextCorrelates(s, inbox);
  }

  /** After any calls, what was received is what the channel gave, each message
      is held back or was handed out once, and no request is answered twice. */
  lemma {:induction false} RunKeeps(calls: seq<Call>, inbox: seq<Outcome>)
    ensures Conserved(Run(calls, inbox).0) && Correlated(Run(calls, inbox).0)
    ensures Arrivals(inbox) == Run(calls, inbox).0.received + Arrivals(Run(calls, inbox).1)
  {
    if calls != [] {
      var (s, rest) := Run(DropLast(calls), inbox);
      RunKeeps(DropLast(calls), inbox);
      StepKeeps(s, Last(calls), rest);
      StepReadsOn(s, Last(calls), rest);
    } else {
      assert [] + Arrivals(inbox) == Arrivals(inbox);
    }
  }

  lemma RequestAnswers(s: State, kind: Kind, inbox: seq<Outcome>)
    requires Conserved(s) && Correlated(s)
    ensures var (t, answer, _) := Request(s, kind, inbox);
            && s.received <= t.received && NextId(t) == NextId(s) + 1 && answer.kind == kind
            && (answer.Reply? ==> IdOf(t.received, answer.index) == Some(NextId(s)))
  {
    AskKeeps(s, kind);
    TakeIsEarliest(Ask(s, kind), NextId(s), inbox);
    TakeKeepsTable(Ask(s, kind), NextId(s), inbox);
  }

  /** A request is answered exactly when its reply is held back already or
      arrives before anything that is no message; unanswered it stays in the table. */
  lemma RequestIsAnsweredExactlyWhen(s: State, kind: Kind, inbox: seq<Outcome>)
    requires Conserved(s) && Correlated(s)
    ensures var (t, answer, _) := Request(s, kind, inbox);
            && (answer.Reply? <==>
                  HasHeldBack(s, NextId(s)) || exists j: nat :: ArrivesAt(inbox, NextId(s), j))
            && t.inflight == (if answer.Reply? then s.inflight else s.inflight[NextId(s) := kind])
            && (answer.Reply? ==> t.log == s.log + [Delivery(answer.index, Some((NextId(s), kind)))])
            && (answer.Unavailable? ==> t.log == s.log)
  {
    AskKeeps(s, kind);
    TakeFindsExactlyWhen(Ask(s, kind), NextId(s), inbox);
    TakeIsEarliest(Ask(s, kind), NextId(s), inbox);
    TakeKeepsTable(Ask(s, kind), NextId(s), inbox);
    assert HasHeldBack(Ask(s, kind), NextId(s)) <==> HasHeldBack(s, NextId(s));
    assert NextId(s) !in s.inflight;
  }

  /** The request is still in the table, or a message was handed out under its name. */
  ghost predicate AccountedFor(s: State, id: nat) {
    id in s.inflight || exists i :: 0 <= i < |s.log| && s.log[i].reply.Some? && s.log[i].reply.value.0 == id
  }

  lemma LogGrowsAccountedFor(s: State, t: State, id: nat)
    requires AccountedFor(s, id) && s.log <= t.log
    requires id in s.inflight ==>
               id in t.inflight || (t.log != [] && Last(t.log).reply.Some? && Last(t.log).reply.value.0 == id)
    ensures AccountedFor(t, id)
  {
    if id in s.inflight && id !in t.inflight {
      assert t.log[|t.log| - 1].reply.value.0 == id;
    } else if id !in t.inflight {
      var i :| 0 <= i < |s.log| && s.log[i].reply.Some? && s.log[i].reply.value.0 == id;
      assert t.log[i] == s.log[i];
    }
  }

  lemma RequestAccounts(s: State, kind: Kind, inbox: seq<Outcome>, id: nat)
    requires Conserved(s) && Correlated(s)
    requires id == NextId(s) || AccountedFor(s, id)
    ensures AccountedFor(Request(s, kind, inbox).0, id)
  {
    var (t, answer, _) := Request(s, kind, inbox);
    RequestIsAnsweredExactlyWhen(s, kind, inbox);
    AskKeeps(s, kind);
    assert id in Ask(s, kind).inflight || AccountedFor(s, id);
    LogGrowsAccountedFor(Ask(s, kind), t, id);
  }

  /** Of the requests sent, each is in the table afterwards or was answered. */
  lemma {:induction false} RequestAllAccounts(s: State, kinds: seq<Kind>, sent: nat, inbox: seq<Outcome>, id: nat)
    requires Conserved(s) && Correlated(s)
    requires AccountedFor(s, id) || NextId(s) <= id < NextId(s) + (if sent < |kinds| then sent else |kinds|)
    ensures AccountedFor(RequestAll(s, kinds, sent, inbox).0, id)
    decreases |kinds|
  {
    if kinds != [] && sent > 0 {
      var (t, answer, rest) := Request(s, kinds[0], inbox);
      RequestKeeps(s, kinds[0], inbox);
      RequestAnswers(s, kinds[0], inbox);
      if id == NextId(s) || AccountedFor(s, id) {
        RequestAccounts(s, kinds[0], inbox, id);
      }
      RequestAllAccounts(t, kinds[1..], sent - 1, rest, id);
    } else if kinds != [] {
      LogGrowsAccountedFor(s, AskUnsent(s, kinds[0]), id);
    }
  }

  lemma TakeAccounts(s: State, id: nat, inbox: seq<Outcome>, other: nat)
    requires Conserved(s) && AccountedFor(s, other)
    ensures AccountedFor(Take(s, id, inbox).state, other)
  {
    TakeIsEarliest(s, id, inbox);
    TakeKeepsTable(s, id, inbox);
    LogGrowsAccountedFor(s, Take(s, id, inbox).state, other);
  }

  /** Whatever is called, a request leaves the table only with a message handed out under its name. */
  lemma StepAccounts(s: State, call: Call, inbox: seq<Outcome>, id: nat)
    requires Conserved(s) && Correlated(s)
    requires AccountedFor(s, id) ||
             (call.Collect? && NextId(s) <= id < NextId(s) + |REQUESTS| && id < NextId(s) + call.sent)
    ensures AccountedFor(Step(s, call, inbox).0, id)
  {
    match call
    case Initialize(writable) =>
      if writable {
        TakeAccounts(s, INITIALIZE_ID, inbox, id);
      }
    case Collect(sent) => RequestAllAccounts(s, REQUESTS, sent, inbox, id);
    case NextEvent =>
      NextIsEarliest(s, inbox);
      LateReplyIsNamed(s, inbox);
      LogGrowsAccountedFor(s, Next(s, inbox).0, id);
  }

  /** A request sent at any call of a run is, at the end, in the table or answered. */
  lemma {:induction false} SentRequestsAreAccountedFor(calls: seq<Call>, inbox: seq<Outcome>, i: nat, id: nat)
    requires i < |calls| && calls[i].Collect?
    requires var n := NextId(Run(calls[..i], inbox).0); n <= id < n + |REQUESTS| && id < n + calls[i].sent
    ensures AccountedFor(Run(calls, inbox).0, id)
    decreases |calls|
  {
    var (s, rest) := Run(DropLast(calls), inbox);
    RunKeeps(DropLast(calls), inbox);
    if i < |calls| - 1 {
      assert DropLast(calls)[..i] == calls[..i];
      SentRequestsAreAccountedFor(DropLast(calls), inbox, i, id);
    } else {
      assert calls[..i] == DropLast(calls);
    }
    StepAccounts(s, Last(calls), rest, id);
  }

  /** The answers come in the order of the requests, each reply with its own request's id. */
  ghost predicate InTurn(received: seq<Value>, kinds: seq<Kind>, answers: seq<Answer>, id: nat) {
    && |answers| == |kinds|
    && forall i | 0 <= i < |kinds| ::
         answers[i].kind == kinds[i] &&
         (answers[i].Reply? ==> IdOf(received, answers[i].index) == Some(id + i))
  }

  lemma InTurnOneMore(received: seq<Value>, kinds: seq<Kind>, answer: Answer, more: seq<Answer>, id: nat)
    requires kinds != [] && answer.kind == kinds[0]
    requires answer.Reply? ==> IdOf(received, answer.index) == Some(id)
    requires InTurn(received, kinds[1..], more, id + 1)
    ensures InTurn(received, kinds, [answer] + more, id)
  {
    forall i | 0 < i < |kinds| ensures ([answer] + more)[i] == more[i - 1] && kinds[i] == kinds[1..][i - 1] {
    }
  }

  lemma FirstThenRest(before: seq<Value>, received: seq<Value>, kinds: seq<Kind>, answer: Answer, more: seq<Answer>,
                      id: nat)
    requires before <= received && kinds != [] && answer.kind == kinds[0]
    requires answer.Reply? ==> IdOf(before, answer.index) == Some(id)
    requires InTurn(received, kinds[1..], more, id + 1)
    ensures InTurn(received, kinds, [answer] + more, id)
  {
    InTurnOneMore(received, kinds, answer, more, id);
  }

  /** Collecting answers every request in turn exactly when all can be sent;
      otherwise the replies already taken are reported nowhere. */
  lemma {:induction false} CollectAnswersInTurn(s: State, kinds: seq<Kind>, sent: nat, inbox: seq<Outcome>)
    requires Conserved(s) && Correlated(s)
    ensures var (t, answers, _) := RequestAll(s, kinds, sent, inbox);
            && s.received <= t.received
            && (answers.Some? <==> |kinds| <= sent)
            && (answers.Some? ==> InTurn(t.received, kinds, answers.value, NextId(s)))
    decreases |kinds|
  {
    if kinds != [] && sent > 0 {
      var (t, answer, rest) := Request(s, kinds[0], inbox);
      RequestKeeps(s, kinds[0], inbox);
      RequestAnswers(s, kinds[0], inbox);
      CollectAnswersInTurn(t, kinds[1..], sent - 1, rest);
      var (u, answers, _) := RequestAll(t, kinds[1..], sent - 1, rest);
      if answers.Some? {
        FirstThenRest(t.received, u.received, kinds, answer, answers.value, NextId(s));
      }
    }
  }

  lemma {:induction false} IdsAreSpent(s: State, kinds: seq<Kind>, sent: nat, inbox: seq<Outcome>)
    requires Conserved(s) && Correlated(s) && |kinds| <= sent
    ensures NextId(RequestAll(s, kinds, sent, inbox).0) == NextId(s) + |kinds|
    decreases |kinds|
  {
    if kinds != [] {
      var (t, _, rest) := Request(s, kinds[0], inbox);
      RequestKeeps(s, kinds[0], inbox);
      RequestAnswers(s, kinds[0], inbox);
      IdsAreSpent(t, kinds[1..], sent - 1, rest);
    }
  }

  /** Each answer of a collection is the one its request gets once the requests before it are through. */
  lemma {:induction false} EachIsAnsweredInTurn(s: State, kinds: seq<Kind>, sent: nat, inbox: seq<Outcome>, i: nat)
    requires i < |kinds| <= sent
    ensures var answers, before := RequestAll(s, kinds, sent, inbox).1, RequestAll(s, kinds[..i], i, inbox);
            && answers.Some? && |answers.value| == |kinds|
            && answers.value[i] == Request(before.0, kinds[i], before.2).1
    decreases |kinds|
  {
    var (t, answer, rest) := Request(s, kinds[0], inbox);
    if |kinds| > 1 {
      EachIsAnsweredInTurn(t, kinds[1..], sent - 1, rest, if i == 0 then 0 else i - 1);
    } else {
      assert kinds[1..] == [];
    }
    if i > 0 {
      assert kinds[..i][1..] == kinds[1..][..i - 1];
    }
  }

  /** A collection finds the reply to a request exactly when it is held back by
      then or still arrives before anything that is no message. */
  lemma CollectFindsExactlyWhen(s: State, kinds: seq<Kind>, sent: nat, inbox: seq<Outcome>, i: nat)
    requires Conserved(s) && Correlated(s) && i < |kinds| <= sent
    ensures var answers, (t, _, rest) := RequestAll(s, kinds, sent, inbox).1, RequestAll(s, kinds[..i], i, inbox);
            var id := NextId(s) + i;
            && answers.Some? && |answers.value| == |kinds|
            && (answers.value[i].Reply? <==> HasHeldBack(t, id) || exists j: nat :: ArrivesAt(rest, id, j))
  {
    var (t, _, rest) := RequestAll(s, kinds[..i], i, inbox);
    EachIsAnsweredInTurn(s, kinds, sent, inbox, i);
    RequestAllKeeps(s, kinds[..i], i, inbox);
    IdsAreSpent(s, kinds[..i], i, inbox);
    RequestIsAnsweredExactlyWhen(t, kinds[i], rest);
  }

  /** The first reply is taken, then the pipe breaks: it is handed out and reported nowhere. */
  lemma BrokenPipeDropsAReply()
    ensures var (s, answers, rest) := RequestAll(START, REQUESTS, 1, [Arrived(Value(Some(2), "skills"))]);
            answers.None? && rest == [] && s.pending == [] && s.log == [Delivery(0, Some((2, Skill)))]
  {
    var inbox := [Arrived(Value(Some(2), "skills"))];
    var (s, answer, rest) := Request(START, Skill, inbox);
    assert s.log == [Delivery(0, Some((2, Skill)))] && rest == [] && s.pending == [];
    assert RequestAll(s, REQUESTS[1..], 0, rest).1 == None;
  }
}

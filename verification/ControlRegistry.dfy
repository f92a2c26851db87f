/** The inspector control registry of `runtime.rs` as a transition system: calls
    that inject and detach, and worker threads, interleave at their lock, channel
    and join operations. */
module ControlRegistry {
  import opened Sequences
  import opened Wrappers

  type Pid = nat
  type ControlId = nat
  type CallId = nat

  datatype Command = RequestDetach(call: CallId) | Stop

  /** Where a worker thread is: emptying its command channel, reading the
      inspector socket, out of its loop, in its cleanup with the map locked, gone. */
  datatype Phase = Draining | Reading | Returned | Cleaning | Finished

  /** A variable or map entry that shares a worker's handle, and with it the
      sending side of its command channel. */
  datatype Holder = MapEntry(pid: Pid) | Own(call: CallId) | Replaced(call: CallId) | Caller(call: CallId)

  datatype Worker = Worker(pid: Pid, phase: Phase, queue: seq<Command>, handleTaken: bool) {
    predicate Live() {
      phase.Draining? || phase.Reading?
    }
  }

  /** Where an injection (the first six) or a detach is. */
  datatype Call =
    | HasId(pid: Pid, id: ControlId)
    | WantsInsert(pid: Pid, id: ControlId)
    | Inserting(pid: Pid, id: ControlId)
    | Stopping(pid: Pid, id: ControlId, previous: ControlId)
    | Taking(pid: Pid, id: ControlId, previous: ControlId)
    | Joining(pid: Pid, id: ControlId, previous: ControlId)
    | WantsLookup(pid: Pid)
    | LookingUp(pid: Pid)
    | Requesting(pid: Pid, id: ControlId)
    | Waiting(pid: Pid, id: ControlId, response: Option<bool>)
    | WantsRemove(pid: Pid, id: ControlId)
    | Removing(pid: Pid, id: ControlId)
  {
    predicate Injects() {
      BeforeInsert() || AfterInsert()
    }

    /** The control id is allocated and not yet in the map. */
    predicate BeforeInsert() {
      HasId? || WantsInsert? || Inserting?
    }

    /** The control is in the map and the one it replaced is being stopped. */
    predicate AfterInsert() {
      Stopping? || Taking? || Joining?
    }

    /** The worker whose handle the call created. */
    function OwnId(): Option<ControlId> {
      if Injects() && !HasId? then Some(id) else None
    }

    function ReplacedId(): Option<ControlId> {
      if AfterInsert() then Some(previous) else None
    }

    /** The worker a detach holds on to. */
    function CallerId(): Option<ControlId> {
      if Requesting? || Waiting? || WantsRemove? || Removing? then Some(id) else None
    }

    predicate HoldsLock() {
      Inserting? || LookingUp? || Removing?
    }

    predicate WantsLock() {
      WantsInsert? || WantsLookup? || WantsRemove?
    }
  }

  datatype Thread = CallThread(call: CallId) | WorkerThread(id: ControlId)

  /** `handles` is the live shared handles. `origin`, `inserted` and `takeover`
      record, for the specification, which call made an id, which ids have been
      in the map, and which call took over from one. */
  datatype State = State(
    controls: map<Pid, ControlId>,
    lock: Option<Thread>,
    nextId: ControlId,
    workers: map<ControlId, Worker>,
    handles: map<Holder, ControlId>,
    nextCall: CallId,
    calls: map<CallId, Call>,
    origin: map<ControlId, CallId>,
    inserted: set<ControlId>,
    takeover: map<ControlId, CallId>)
  {
    /** Nobody can send to the worker any more. */
    predicate Disconnected(w: ControlId) {
      forall h | h in handles :: handles[h] != w
    }
  }

  const INIT := State(map[], None, 1, map[], map[], 0, map[], map[], {}, map[])

  /** The atomic steps. The flags are what the target or the network decides. */
  datatype Action =
    | InjectAllocate(pid: Pid)
    | InjectSpawn(call: CallId)
    | InjectLock(call: CallId)
    | InjectInsert(call: CallId)
    | InjectStop(call: CallId)
    | InjectTakeHandle(call: CallId)
    | InjectJoined(call: CallId)
    | DetachStart(pid: Pid)
    | DetachLock(call: CallId)
    | DetachLookup(call: CallId)
    | DetachSend(call: CallId)
    | DetachGiveUp(call: CallId)
    | DetachReceive(call: CallId)
    | DetachRelock(call: CallId)
    | DetachRemove(call: CallId)
    | WorkerTake(id: ControlId, granted: bool)
    | WorkerDisconnected(id: ControlId)
    | WorkerDrained(id: ControlId)
    | WorkerRead(id: ControlId, exits: bool)
    | WorkerLock(id: ControlId)
    | WorkerCleanup(id: ControlId)

  predicate WorkerAt(s: State, w: ControlId, phase: Phase) {
    w in s.workers && s.workers[w].phase == phase
  }

  /** The entry of `pid`, if any, is of a known worker. */
  predicate EntryKnown(s: State, pid: Pid) {
    pid in s.controls ==> s.controls[pid] in s.workers
  }

  predicate Enabled(s: State, a: Action) {
    match a
    case InjectAllocate(pid) => true
    case InjectSpawn(c) => c in s.calls && s.calls[c].HasId?
    case InjectLock(c) => c in s.calls && s.calls[c].WantsInsert? && s.lock.None?
    case InjectInsert(c) =>
      c in s.calls && s.calls[c].Inserting? && s.calls[c].id in s.workers && EntryKnown(s, s.calls[c].pid)
    case InjectStop(c) => c in s.calls && s.calls[c].Stopping? && s.calls[c].previous in s.workers
    case InjectTakeHandle(c) =>
      && c in s.calls && s.calls[c].Taking?
      && s.calls[c].previous in s.workers && !s.workers[s.calls[c].previous].handleTaken
    case InjectJoined(c) =>
      c in s.calls && s.calls[c].Joining? && WorkerAt(s, s.calls[c].previous, Finished) && s.calls[c].id in s.workers
    case DetachStart(pid) => true
    case DetachLock(c) => c in s.calls && s.calls[c].WantsLookup? && s.lock.None?
    case DetachLookup(c) => c in s.calls && s.calls[c].LookingUp? && EntryKnown(s, s.calls[c].pid)
    case DetachSend(c) => c in s.calls && s.calls[c].Requesting? && s.calls[c].id in s.workers
    case DetachGiveUp(c) =>
      c in s.calls && s.calls[c].Waiting? && s.calls[c].response.None? && s.calls[c].id in s.workers
    case DetachReceive(c) =>
      c in s.calls && s.calls[c].Waiting? && s.calls[c].response.Some? && s.calls[c].id in s.workers
    case DetachRelock(c) => c in s.calls && s.calls[c].WantsRemove? && s.lock.None?
    case DetachRemove(c) =>
      c in s.calls && s.calls[c].Removing? && s.calls[c].id in s.workers && EntryKnown(s, s.calls[c].pid)
    case WorkerTake(w, _) => WorkerAt(s, w, Draining) && s.workers[w].queue != []
    case WorkerDisconnected(w) => WorkerAt(s, w, Draining) && s.workers[w].queue == [] && s.Disconnected(w)
    case WorkerDrained(w) => WorkerAt(s, w, Draining) && s.workers[w].queue == [] && !s.Disconnected(w)
    case WorkerRead(w, _) => WorkerAt(s, w, Reading)
    case WorkerLock(w) => WorkerAt(s, w, Returned) && s.lock.None?
    case WorkerCleanup(w) => WorkerAt(s, w, Cleaning)
  }

  /** Sending fails silently once the receiver is gone. */
  function Send(ws: map<ControlId, Worker>, w: ControlId, command: Command): map<ControlId, Worker>
    requires w in ws
  {
    if ws[w].Live() then ws[w := ws[w].(queue := ws[w].queue + [command])] else ws
  }

  /** The worker's loop returns: its receiver, and all that is queued, is dropped. */
  function Return(ws: map<ControlId, Worker>, w: ControlId): map<ControlId, Worker>
    requires w in ws
  {
    ws[w := ws[w].(phase := Returned, queue := [])]
  }

  function Move(s: State, c: CallId, call: Call): State {
    s.(calls := s.calls[c := call])
  }

  function End(s: State, c: CallId): State {
    s.(calls := s.calls - {c})
  }

  predicate IsWorkerStep(a: Action) {
    a.WorkerTake? || a.WorkerDisconnected? || a.WorkerDrained? || a.WorkerRead? || a.WorkerLock? || a.WorkerCleanup?
  }

  /** The worker handles the next command: it stops, or asks the target to detach
      and reports to the call, if that is still waiting. */
  function TakeCommand(s: State, w: ControlId, granted: bool): State
    requires Enabled(s, WorkerTake(w, granted))
  {
    match s.workers[w].queue[0]
    case Stop => s.(workers := Return(s.workers, w))
    case RequestDetach(c) =>
      var s' := s.(workers := s.workers[w := s.workers[w].(queue := s.workers[w].queue[1..])]);
      if c in s.calls && s.calls[c].Waiting? && s.calls[c].id == w && s.calls[c].response.None? then
        Move(s', c, Waiting(s.calls[c].pid, w, Some(granted)))
      else s'
  }

  /** The worker's entry, if the map still holds it under the worker's pid. */
  predicate EntryMatches(s: State, w: ControlId)
    requires w in s.workers
  {
    s.workers[w].pid in s.controls && s.controls[s.workers[w].pid] == w
  }

  /** `remove_active_control_if_matches`, then the lock is released and the thread is gone. */
  function Cleanup(s: State, w: ControlId): State
    requires w in s.workers
  {
    var pid := s.workers[w].pid;
    var s' := s.(lock := None, workers := s.workers[w := s.workers[w].(phase := Finished)]);
    if EntryMatches(s, w) then s'.(controls := s.controls - {pid}, handles := s.handles - {MapEntry(pid)}) else s'
  }

  function ApplyWorker(s: State, a: Action): (s': State)
    requires Enabled(s, a) && IsWorkerStep(a)
    ensures !a.WorkerCleanup? ==> s'.controls == s.controls && s'.inserted == s.inserted
  {
    match a
    case WorkerTake(w, granted) => TakeCommand(s, w, granted)
    case WorkerDisconnected(w) => s.(workers := Return(s.workers, w))
    case WorkerDrained(w) => s.(workers := s.workers[w := s.workers[w].(phase := Reading)])
    case WorkerRead(w, exits) =>
      if exits then s.(workers := Return(s.workers, w))
      else s.(workers := s.workers[w := s.workers[w].(phase := Draining)])
    case WorkerLock(w) =>
      s.(lock := Some(WorkerThread(w)), workers := s.workers[w := s.workers[w].(phase := Cleaning)])
    case WorkerCleanup(w) => Cleanup(s, w)
  }

  /** `controls.insert`, then the lock is released. */
  function Insert(s: State, c: CallId): State
    requires Enabled(s, InjectInsert(c))
  {
    var Inserting(pid, id) := s.calls[c];
    var s' := s.(lock := None, controls := s.controls[pid := id], handles := s.handles[MapEntry(pid) := id],
                 inserted := s.inserted + {id});
    if pid in s.controls then
      var previous := s.controls[pid];
      Move(s'.(handles := s'.handles[Replaced(c) := previous], takeover := s.takeover[previous := c]),
           c, Stopping(pid, id, previous))
    else
      End(s'.(handles := s'.handles - {Own(c)}), c)
  }

  /** `controls.remove(&pid)` at the end of a granted detach: whatever is there. */
  function Remove(s: State, c: CallId): State
    requires Enabled(s, DetachRemove(c))
  {
    var pid := s.calls[c].pid;
    End(s.(lock := None, controls := s.controls - {pid}, handles := s.handles - {MapEntry(pid), Caller(c)}), c)
  }

  function Apply(s: State, a: Action): (s': State)
    requires Enabled(s, a)
    ensures !a.InjectInsert? && !a.DetachRemove? && !a.WorkerCleanup? ==>
              s'.controls == s.controls && s'.inserted == s.inserted
  {
    match a
    case InjectAllocate(pid) =>
      s.(nextId := s.nextId + 1, nextCall := s.nextCall + 1,
         calls := s.calls[s.nextCall := HasId(pid, s.nextId)], origin := s.origin[s.nextId := s.nextCall])
    case InjectSpawn(c) =>
      var HasId(pid, id) := s.calls[c];
      Move(s.(workers := s.workers[id := Worker(pid, Draining, [], false)], handles := s.handles[Own(c) := id]),
           c, WantsInsert(pid, id))
    case InjectLock(c) =>
      Move(s.(lock := Some(CallThread(c))), c, Inserting(s.calls[c].pid, s.calls[c].id))
    case InjectInsert(c) => Insert(s, c)
    case InjectStop(c) =>
      var Stopping(pid, id, previous) := s.calls[c];
      Move(s.(workers := Send(s.workers, previous, Stop)), c, Taking(pid, id, previous))
    case InjectTakeHandle(c) =>
      var Taking(pid, id, previous) := s.calls[c];
      Move(s.(workers := s.workers[previous := s.workers[previous].(handleTaken := true)]), c,
           Joining(pid, id, previous))
    case InjectJoined(c) => End(s.(handles := s.handles - {Replaced(c), Own(c)}), c)
    case DetachStart(pid) =>
      s.(nextCall := s.nextCall + 1, calls := s.calls[s.nextCall := WantsLookup(pid)])
    case DetachLock(c) => Move(s.(lock := Some(CallThread(c))), c, LookingUp(s.calls[c].pid))
    case DetachLookup(c) =>
      var pid := s.calls[c].pid;
      if pid in s.controls then
        Move(s.(lock := None, handles := s.handles[Caller(c) := s.controls[pid]]), c, Requesting(pid, s.controls[pid]))
      else
        End(s.(lock := None), c)
    case DetachSend(c) =>
      var Requesting(pid, id) := s.calls[c];
      if s.workers[id].Live() then
        Move(s.(workers := Send(s.workers, id, RequestDetach(c))), c, Waiting(pid, id, None))
      else
        End(s.(handles := s.handles - {Caller(c)}), c)
    case DetachGiveUp(c) => End(s.(handles := s.handles - {Caller(c)}), c)
    case DetachReceive(c) =>
      var Waiting(pid, id, response) := s.calls[c];
      if response == Some(true) then Move(s, c, WantsRemove(pid, id))
      else End(s.(handles := s.handles - {Caller(c)}), c)
    case DetachRelock(c) =>
      Move(s.(lock := Some(CallThread(c))), c, Removing(s.calls[c].pid, s.calls[c].id))
    case DetachRemove(c) => Remove(s, c)
    case _ => ApplyWorker(s, a)
  }

  ghost predicate Steps(s: State, a: Action, s': State) {
    Enabled(s, a) && s' == Apply(s, a)
  }

  /** A run from the initial state. */
  ghost predicate Run(actions: seq<Action>, s: State) {
    if actions == [] then s == INIT
    else exists before :: Run(DropLast(actions), before) && Steps(before, Last(actions), s)
  }

  ghost predicate Reachable(s: State) {
    exists actions :: Run(actions, s)
  }

  // What every step keeps.

  /** The worker that a holder, if it exists, must be sharing. */
  function Target(s: State, h: Holder): Option<ControlId> {
    match h
    case MapEntry(pid) => if pid in s.controls then Some(s.controls[pid]) else None
    case Own(c) => if c in s.calls then s.calls[c].OwnId() else None
    case Replaced(c) => if c in s.calls then s.calls[c].ReplacedId() else None
    case Caller(c) => if c in s.calls then s.calls[c].CallerId() else None
  }

  /** Handles are dropped and shared exactly as the entries and calls come and go. */
  ghost predicate HandleOk(s: State, h: Holder) {
    && (h in s.handles ==> Target(s, h) == Some(s.handles[h]) && s.handles[h] in s.workers)
    && (Target(s, h).Some? ==> h in s.handles)
  }

  /** An entry is of a worker of that pid. */
  ghost predicate EntryOk(s: State, pid: Pid) {
    pid in s.controls ==>
      var w := s.controls[pid];
      w in s.workers && s.workers[w].pid == pid && w in s.inserted
  }

  ghost predicate CallOk(s: State, c: CallId) {
    c in s.calls ==>
      var call := s.calls[c];
      && c < s.nextCall
      && (call.HoldsLock() <==> s.lock == Some(CallThread(c)))
      && (call.Injects() ==> call.id < s.nextId && call.id in s.origin && s.origin[call.id] == c)
      && (call.HasId? ==> call.id !in s.workers)
      && (call.Injects() && call.id in s.workers ==> s.workers[call.id].pid == call.pid)
      && (call.BeforeInsert() ==> call.id !in s.inserted)
      && (call.AfterInsert() ==>
            && call.previous in s.workers
            && call.previous in s.takeover && s.takeover[call.previous] == c
            && (!call.Joining? ==> !s.workers[call.previous].handleTaken)
            && (!call.Stopping? && s.workers[call.previous].Live() ==> Stop in s.workers[call.previous].queue))
  }

  ghost predicate WorkerOk(s: State, w: ControlId) {
    w in s.workers ==>
      && w < s.nextId && w in s.origin
      && (s.workers[w].phase.Cleaning? <==> s.lock == Some(WorkerThread(w)))
      && (s.workers[w].handleTaken ==> w in s.takeover)
      && (w in s.takeover ==>
            && !EntryMatches(s, w)
            && (s.workers[w].phase.Finished? || Target(s, Replaced(s.takeover[w])) == Some(w)))
  }

  ghost predicate RecordsOk(s: State) {
    && (forall w | w in s.origin :: w < s.nextId)
    && (forall w | w in s.inserted :: w in s.workers)
    && (forall w | w in s.takeover :: w in s.inserted)
    && match s.lock
       case None => true
       case Some(CallThread(c)) => c in s.calls
       case Some(WorkerThread(w)) => w in s.workers
  }

  ghost predicate Inv(s: State) {
    && (forall h :: HandleOk(s, h))
    && (forall pid :: EntryOk(s, pid))
    && (forall c :: CallOk(s, c))
    && (forall w :: WorkerOk(s, w))
    && RecordsOk(s)
  }

  /** A live worker may read its queue, be sent to, or leave its loop. */
  lemma WorkerChanges(s: State, w: ControlId, worker: Worker)
    requires Inv(s) && w in s.workers
    requires worker.pid == s.workers[w].pid && worker.handleTaken == s.workers[w].handleTaken
    requires s.workers[w].Live() && !worker.phase.Cleaning? && !worker.phase.Finished?
    requires worker.Live() && Stop in s.workers[w].queue ==> Stop in worker.queue
    ensures Inv(s.(workers := s.workers[w := worker]))
  {
    var s' := s.(workers := s.workers[w := worker]);
    assert WorkerOk(s, w) && EntryOk(s, s.workers[w].pid) && HandleOk(s, MapEntry(s.workers[w].pid));
    forall h ensures HandleOk(s', h) { assert HandleOk(s, h); }
    forall pid ensures EntryOk(s', pid) { assert EntryOk(s, pid); }
    forall d ensures CallOk(s', d) { assert CallOk(s, d) && HandleOk(s, Own(d)); }
    forall v ensures WorkerOk(s', v) { assert WorkerOk(s, v); }
  }

  /** A detach goes on with the same handle. */
  lemma CallAdvances(s: State, c: CallId, call: Call)
    requires Inv(s) && c in s.calls && !s.calls[c].Injects() && !call.Injects()
    requires call.pid == s.calls[c].pid && call.CallerId() == s.calls[c].CallerId()
    requires call.HoldsLock() == s.calls[c].HoldsLock()
    ensures Inv(Move(s, c, call))
  {
    var s' := Move(s, c, call);
    assert CallOk(s, c) && HandleOk(s, Own(c)) && HandleOk(s, Replaced(c)) && HandleOk(s, Caller(c));
    forall h ensures HandleOk(s', h) { assert HandleOk(s, h); }
    forall pid ensures EntryOk(s', pid) { assert EntryOk(s, pid); }
    forall d ensures CallOk(s', d) { assert CallOk(s, d) && HandleOk(s, Own(d)); }
    forall v ensures WorkerOk(s', v) { assert WorkerOk(s, v); }
  }

  /** A detach gives up its handle and ends. */
  lemma DetachEnds(s: State, c: CallId)
    requires Inv(s) && c in s.calls && s.calls[c].CallerId().Some? && !s.calls[c].HoldsLock()
    ensures Inv(End(s.(handles := s.handles - {Caller(c)}), c))
  {
    var s' := End(s.(handles := s.handles - {Caller(c)}), c);
    assert CallOk(s, c) && HandleOk(s, Own(c)) && HandleOk(s, Replaced(c)) && HandleOk(s, Caller(c));
    forall h ensures HandleOk(s', h) { assert HandleOk(s, h); }
    forall pid ensures EntryOk(s', pid) { assert EntryOk(s, pid); }
    forall d ensures CallOk(s', d) { assert CallOk(s, d) && HandleOk(s, Own(d)); }
    forall v ensures WorkerOk(s', v) { assert WorkerOk(s, v); }
  }

  /** A call takes the free lock. */
  lemma CallLocks(s: State, c: CallId, call: Call)
    requires Inv(s) && c in s.calls && s.lock.None? && s.calls[c].WantsLock() && call.HoldsLock()
    requires call.pid == s.calls[c].pid
    requires call.OwnId() == s.calls[c].OwnId() && call.CallerId() == s.calls[c].CallerId()
    ensures Inv(Move(s.(lock := Some(CallThread(c))), c, call))
  {
    var s' := Move(s.(lock := Some(CallThread(c))), c, call);
    assert CallOk(s, c) && HandleOk(s, Own(c)) && HandleOk(s, Replaced(c)) && HandleOk(s, Caller(c));
    forall h ensures HandleOk(s', h) { assert HandleOk(s, h); }
    forall pid ensures EntryOk(s', pid) { assert EntryOk(s, pid); }
    forall d ensures CallOk(s', d) { assert CallOk(s, d) && HandleOk(s, Own(d)); }
    forall v ensures WorkerOk(s', v) { assert WorkerOk(s, v); }
  }

  lemma InjectAllocateKeeps(s: State, pid: Pid)
    requires Inv(s) && Enabled(s, InjectAllocate(pid))
    ensures Inv(Apply(s, InjectAllocate(pid)))
  {
    var s' := Apply(s, InjectAllocate(pid));
    assert CallOk(s, s.nextCall) && HandleOk(s, Own(s.nextCall));
    assert HandleOk(s, Replaced(s.nextCall)) && HandleOk(s, Caller(s.nextCall));
    assert WorkerOk(s, s.nextId);
    forall h ensures HandleOk(s', h) { assert HandleOk(s, h); }
    forall pid ensures EntryOk(s', pid) { assert EntryOk(s, pid); }
    forall d ensures CallOk(s', d) { assert CallOk(s, d) && HandleOk(s, Own(d)); }
    forall v ensures WorkerOk(s', v) { assert WorkerOk(s, v); }
  }

  lemma InjectSpawnKeeps(s: State, c: CallId)
    requires Inv(s) && Enabled(s, InjectSpawn(c))
    ensures Inv(Apply(s, InjectSpawn(c)))
  {
    var s' := Apply(s, InjectSpawn(c));
    assert CallOk(s, c) && HandleOk(s, Own(c)) && HandleOk(s, Replaced(c)) && HandleOk(s, Caller(c));
    var p := s.calls[c].pid;
    assert EntryOk(s, p) && HandleOk(s, MapEntry(p));
    assert p in s.controls ==> WorkerOk(s, s.controls[p]);
    assert WorkerOk(s, s.calls[c].id);
    forall h ensures HandleOk(s', h) { assert HandleOk(s, h); }
    forall pid ensures EntryOk(s', pid) { assert EntryOk(s, pid); }
    forall d ensures CallOk(s', d) { assert CallOk(s, d) && HandleOk(s, Own(d)); }
    forall v ensures WorkerOk(s', v) { assert WorkerOk(s, v); }
  }

  lemma InsertOverKeeps(s: State, c: CallId)
    requires Inv(s) && Enabled(s, InjectInsert(c))
    requires s.calls[c].pid in s.controls
    ensures Inv(Insert(s, c))
  {
    var s' := Insert(s, c);
    assert CallOk(s, c) && HandleOk(s, Own(c)) && HandleOk(s, Replaced(c)) && HandleOk(s, Caller(c));
    var p := s.calls[c].pid;
    assert EntryOk(s, p) && HandleOk(s, MapEntry(p));
    assert p in s.controls ==> WorkerOk(s, s.controls[p]);
    forall h ensures HandleOk(s', h) { assert HandleOk(s, h); }
    forall pid ensures EntryOk(s', pid) { assert EntryOk(s, pid); }
    forall d ensures CallOk(s', d) { assert CallOk(s, d) && HandleOk(s, Own(d)); }
    forall v ensures WorkerOk(s', v) { assert WorkerOk(s, v); }
  }

  lemma InsertNewKeeps(s: State, c: CallId)
    requires Inv(s) && Enabled(s, InjectInsert(c))
    requires s.calls[c].pid !in s.controls
    ensures Inv(Insert(s, c))
  {
    var s' := Insert(s, c);
    assert CallOk(s, c) && HandleOk(s, Own(c)) && HandleOk(s, Replaced(c)) && HandleOk(s, Caller(c));
    var p := s.calls[c].pid;
    assert EntryOk(s, p) && HandleOk(s, MapEntry(p));
    forall h ensures HandleOk(s', h) { assert HandleOk(s, h); }
    forall pid ensures EntryOk(s', pid) { assert EntryOk(s, pid); }
    forall d ensures CallOk(s', d) { assert CallOk(s, d) && HandleOk(s, Own(d)); }
    forall v ensures WorkerOk(s', v) { assert WorkerOk(s, v); }
  }

  lemma InjectInsertKeeps(s: State, c: CallId)
    requires Inv(s) && Enabled(s, InjectInsert(c))
    ensures Inv(Apply(s, InjectInsert(c)))
  {
    if s.calls[c].pid in s.controls {
      InsertOverKeeps(s, c);
    } else {
      InsertNewKeeps(s, c);
    }
  }

  lemma InjectTakeHandleKeeps(s: State, c: CallId)
    requires Inv(s) && Enabled(s, InjectTakeHandle(c))
    ensures Inv(Apply(s, InjectTakeHandle(c)))
  {
    var s' := Apply(s, InjectTakeHandle(c));
    assert CallOk(s, c) && HandleOk(s, Own(c)) && HandleOk(s, Replaced(c)) && HandleOk(s, Caller(c));
    forall h ensures HandleOk(s', h) { assert HandleOk(s, h); }
    forall pid ensures EntryOk(s', pid) { assert EntryOk(s, pid); }
    forall d ensures CallOk(s', d) { assert CallOk(s, d) && HandleOk(s, Own(d)); }
    forall v ensures WorkerOk(s', v) { assert WorkerOk(s, v); }
  }

  lemma InjectJoinedKeeps(s: State, c: CallId)
    requires Inv(s) && Enabled(s, InjectJoined(c))
    ensures Inv(Apply(s, InjectJoined(c)))
  {
    var s' := Apply(s, InjectJoined(c));
    assert CallOk(s, c) && HandleOk(s, Own(c)) && HandleOk(s, Replaced(c)) && HandleOk(s, Caller(c));
    assert WorkerOk(s, s.calls[c].previous);
    forall h ensures HandleOk(s', h) { assert HandleOk(s, h); }
    forall pid ensures EntryOk(s', pid) { assert EntryOk(s, pid); }
    forall d ensures CallOk(s', d) { assert CallOk(s, d) && HandleOk(s, Own(d)); }
    forall v ensures WorkerOk(s', v) { assert WorkerOk(s, v); }
  }

  lemma DetachStartKeeps(s: State, pid: Pid)
    requires Inv(s) && Enabled(s, DetachStart(pid))
    ensures Inv(Apply(s, DetachStart(pid)))
  {
    var s' := Apply(s, DetachStart(pid));
    assert CallOk(s, s.nextCall) && HandleOk(s, Own(s.nextCall));
    assert HandleOk(s, Replaced(s.nextCall)) && HandleOk(s, Caller(s.nextCall));
    assert WorkerOk(s, s.nextId);
    forall h ensures HandleOk(s', h) { assert HandleOk(s, h); }
    forall pid ensures EntryOk(s', pid) { assert EntryOk(s, pid); }
    forall d ensures CallOk(s', d) { assert CallOk(s, d) && HandleOk(s, Own(d)); }
    forall v ensures WorkerOk(s', v) { assert WorkerOk(s, v); }
  }

  lemma DetachLookupKeeps(s: State, c: CallId)
    requires Inv(s) && Enabled(s, DetachLookup(c))
    ensures Inv(Apply(s, DetachLookup(c)))
  {
    var s' := Apply(s, DetachLookup(c));
    assert CallOk(s, c) && HandleOk(s, Own(c)) && HandleOk(s, Replaced(c)) && HandleOk(s, Caller(c));
    var p := s.calls[c].pid;
    assert EntryOk(s, p) && HandleOk(s, MapEntry(p));
    assert p in s.controls ==> WorkerOk(s, s.controls[p]);
    forall h ensures HandleOk(s', h) { assert HandleOk(s, h); }
    forall pid ensures EntryOk(s', pid) { assert EntryOk(s, pid); }
    forall d ensures CallOk(s', d) { assert CallOk(s, d) && HandleOk(s, Own(d)); }
    forall v ensures WorkerOk(s', v) { assert WorkerOk(s, v); }
  }

  lemma DetachRemoveKeeps(s: State, c: CallId)
    requires Inv(s) && Enabled(s, DetachRemove(c))
    ensures Inv(Apply(s, DetachRemove(c)))
  {
    var s' := Apply(s, DetachRemove(c));
    assert CallOk(s, c) && HandleOk(s, Own(c)) && HandleOk(s, Replaced(c)) && HandleOk(s, Caller(c));
    var p := s.calls[c].pid;
    assert EntryOk(s, p) && HandleOk(s, MapEntry(p));
    assert p in s.controls ==> WorkerOk(s, s.controls[p]);
    forall h ensures HandleOk(s', h) { assert HandleOk(s, h); }
    forall pid ensures EntryOk(s', pid) { assert EntryOk(s, pid); }
    forall d ensures CallOk(s', d) { assert CallOk(s, d) && HandleOk(s, Own(d)); }
    forall v ensures WorkerOk(s', v) { assert WorkerOk(s, v); }
  }

  lemma WorkerLockKeeps(s: State, w: ControlId)
    requires Inv(s) && Enabled(s, WorkerLock(w))
    ensures Inv(Apply(s, WorkerLock(w)))
  {
    var s' := Apply(s, WorkerLock(w));
    assert WorkerOk(s, w) && EntryOk(s, s.workers[w].pid) && HandleOk(s, MapEntry(s.workers[w].pid));
    forall h ensures HandleOk(s', h) { assert HandleOk(s, h); }
    forall pid ensures EntryOk(s', pid) { assert EntryOk(s, pid); }
    forall d ensures CallOk(s', d) { assert CallOk(s, d) && HandleOk(s, Own(d)); }
    forall v ensures WorkerOk(s', v) { assert WorkerOk(s, v); }
  }

  lemma WorkerCleanupKeeps(s: State, w: ControlId)
    requires Inv(s) && Enabled(s, WorkerCleanup(w))
    ensures Inv(Apply(s, WorkerCleanup(w)))
  {
    var s' := Apply(s, WorkerCleanup(w));
    assert WorkerOk(s, w) && EntryOk(s, s.workers[w].pid) && HandleOk(s, MapEntry(s.workers[w].pid));
    forall h ensures HandleOk(s', h) { assert HandleOk(s, h); }
    forall pid ensures EntryOk(s', pid) { assert EntryOk(s, pid); }
    forall d ensures CallOk(s', d) { assert CallOk(s, d) && HandleOk(s, Own(d)); }
    forall v ensures WorkerOk(s', v) { assert WorkerOk(s, v); }
  }

  lemma StopSent(s: State, c: CallId)
    requires Inv(s) && c in s.calls && s.calls[c].Stopping? && s.calls[c].previous in s.workers
    requires s.workers[s.calls[c].previous].Live() ==> Stop in s.workers[s.calls[c].previous].queue
    ensures Inv(Move(s, c, Taking(s.calls[c].pid, s.calls[c].id, s.calls[c].previous)))
  {
    var s' := Move(s, c, Taking(s.calls[c].pid, s.calls[c].id, s.calls[c].previous));
    assert CallOk(s, c) && HandleOk(s, Own(c)) && HandleOk(s, Replaced(c)) && HandleOk(s, Caller(c));
    forall h ensures HandleOk(s', h) { assert HandleOk(s, h); }
    forall pid ensures EntryOk(s', pid) { assert EntryOk(s, pid); }
    forall d ensures CallOk(s', d) { assert CallOk(s, d) && HandleOk(s, Own(d)); }
    forall v ensures WorkerOk(s', v) { assert WorkerOk(s, v); }
  }

  lemma InjectStopKeeps(s: State, c: CallId)
    requires Inv(s) && Enabled(s, InjectStop(c))
    ensures Inv(Apply(s, InjectStop(c)))
  {
    var Stopping(pid, id, previous) := s.calls[c];
    var sent := s.(workers := Send(s.workers, previous, Stop));
    if s.workers[previous].Live() {
      WorkerChanges(s, previous, sent.workers[previous]);
    }
    StopSent(sent, c);
  }

  lemma DetachSendKeeps(s: State, c: CallId)
    requires Inv(s) && Enabled(s, DetachSend(c))
    ensures Inv(Apply(s, DetachSend(c)))
  {
    var Requesting(pid, id) := s.calls[c];
    if s.workers[id].Live() {
      var sent := s.(workers := Send(s.workers, id, RequestDetach(c)));
      WorkerChanges(s, id, sent.workers[id]);
      CallAdvances(sent, c, Waiting(pid, id, None));
    } else {
      DetachEnds(s, c);
    }
  }

  lemma WorkerTakeKeeps(s: State, w: ControlId, granted: bool)
    requires Inv(s) && Enabled(s, WorkerTake(w, granted))
    ensures Inv(Apply(s, WorkerTake(w, granted)))
  {
    var worker := s.workers[w];
    match worker.queue[0] {
      case Stop => WorkerChanges(s, w, worker.(phase := Returned, queue := []));
      case RequestDetach(c) =>
        assert worker.queue == [worker.queue[0]] + worker.queue[1..];
        WorkerChanges(s, w, worker.(queue := worker.queue[1..]));
        if c in s.calls && s.calls[c].Waiting? && s.calls[c].id == w && s.calls[c].response.None? {
          CallAdvances(s.(workers := s.workers[w := worker.(queue := worker.queue[1..])]), c,
                       Waiting(s.calls[c].pid, w, Some(granted)));
        }
    }
  }

  lemma StepKeepsInv(s: State, a: Action)
    requires Inv(s) && Enabled(s, a)
    ensures Inv(Apply(s, a))
  {
    match a {
      case InjectAllocate(pid) => InjectAllocateKeeps(s, pid);
      case InjectSpawn(c) => InjectSpawnKeeps(s, c);
      case InjectLock(c) => CallLocks(s, c, Inserting(s.calls[c].pid, s.calls[c].id));
      case InjectInsert(c) => InjectInsertKeeps(s, c);
      case InjectStop(c) => InjectStopKeeps(s, c);
      case InjectTakeHandle(c) => InjectTakeHandleKeeps(s, c);
      case InjectJoined(c) => InjectJoinedKeeps(s, c);
      case DetachStart(pid) => DetachStartKeeps(s, pid);
      case DetachLock(c) => CallLocks(s, c, LookingUp(s.calls[c].pid));
      case DetachLookup(c) => DetachLookupKeeps(s, c);
      case DetachSend(c) => DetachSendKeeps(s, c);
      case DetachGiveUp(c) => DetachEnds(s, c);
      case DetachReceive(c) =>
        if s.calls[c].response == Some(true) {
          CallAdvances(s, c, WantsRemove(s.calls[c].pid, s.calls[c].id));
        } else {
          DetachEnds(s, c);
        }
      case DetachRelock(c) => CallLocks(s, c, Removing(s.calls[c].pid, s.calls[c].id));
      case DetachRemove(c) => DetachRemoveKeeps(s, c);
      case WorkerTake(w, granted) => WorkerTakeKeeps(s, w, granted);
      case WorkerDisconnected(w) => WorkerChanges(s, w, s.workers[w].(phase := Returned, queue := []));
      case WorkerDrained(w) => WorkerChanges(s, w, s.workers[w].(phase := Reading));
      case WorkerRead(w, exits) =>
        WorkerChanges(s, w, if exits then s.workers[w].(phase := Returned, queue := [])
                            else s.workers[w].(phase := Draining));
      case WorkerLock(w) => WorkerLockKeeps(s, w);
      case WorkerCleanup(w) => WorkerCleanupKeeps(s, w);
    }
  }

  /** Every reachable state satisfies the invariant. */
  lemma {:induction false} RunKeepsInv(actions: seq<Action>, s: State)
    requires Run(actions, s)
    ensures Inv(s)
  {
    if actions != [] {
      var before :| Run(DropLast(actions), before) && Steps(before, Last(actions), s);
      RunKeepsInv(DropLast(actions), before);
      StepKeepsInv(before, Last(actions));
    }
  }

  // What the invariant gives.

  /** Every live worker is in the map, or held by a call in progress, or has
      lost its last sender and so leaves its loop. */
  lemma LiveWorkersAreAccountedFor(s: State, w: ControlId)
    requires Reachable(s) && w in s.workers && s.workers[w].Live()
    ensures || EntryMatches(s, w)
            || (exists c :: c in s.calls &&
                            Some(w) in {s.calls[c].OwnId(), s.calls[c].ReplacedId(), s.calls[c].CallerId()})
            || s.Disconnected(w)
    ensures s.Disconnected(w) <==> forall h :: Target(s, h) != Some(w)
  {
    var actions :| Run(actions, s);
    RunKeepsInv(actions, s);
    forall h | Target(s, h) == Some(w) ensures h in s.handles && s.handles[h] == w {
      assert HandleOk(s, h);
    }
    if !s.Disconnected(w) {
      var h :| h in s.handles && s.handles[h] == w;
      assert HandleOk(s, h) && Target(s, h) == Some(w);
      match h
      case MapEntry(pid) => assert EntryOk(s, pid);
      case Own(c) => assert s.calls[c].OwnId() == Some(w);
      case Replaced(c) => assert s.calls[c].ReplacedId() == Some(w);
      case Caller(c) => assert s.calls[c].CallerId() == Some(w);
    }
  }

  /** With no call in progress, a live worker is in the map under its pid or disconnected. */
  lemma QuietRegistry(s: State, w: ControlId)
    requires Reachable(s) && s.calls == map[] && w in s.workers && s.workers[w].Live()
    ensures EntryMatches(s, w) <==> !s.Disconnected(w)
  {
    LiveWorkersAreAccountedFor(s, w);
    if EntryMatches(s, w) {
      assert Target(s, MapEntry(s.workers[w].pid)) == Some(w);
    }
  }

  /** A worker that was replaced is gone, or the call that replaced it is still seeing to it. */
  lemma ReplacedWorkersAreSeenOff(s: State, w: ControlId)
    requires Reachable(s) && w in s.takeover
    ensures w in s.workers && !EntryMatches(s, w)
    ensures s.workers[w].phase.Finished? || exists c :: c in s.calls && s.calls[c].ReplacedId() == Some(w)
  {
    var actions :| Run(actions, s);
    RunKeepsInv(actions, s);
    assert WorkerOk(s, w);
    if !s.workers[w].phase.Finished? {
      assert s.calls[s.takeover[w]].ReplacedId() == Some(w);
    }
  }

  /** The thread that takes a step. */
  function Actor(a: Action): Option<Thread> {
    match a
    case InjectAllocate(_) => None
    case DetachStart(_) => None
    case InjectSpawn(c) => Some(CallThread(c))
    case InjectLock(c) => Some(CallThread(c))
    case InjectInsert(c) => Some(CallThread(c))
    case InjectStop(c) => Some(CallThread(c))
    case InjectTakeHandle(c) => Some(CallThread(c))
    case InjectJoined(c) => Some(CallThread(c))
    case DetachLock(c) => Some(CallThread(c))
    case DetachLookup(c) => Some(CallThread(c))
    case DetachSend(c) => Some(CallThread(c))
    case DetachGiveUp(c) => Some(CallThread(c))
    case DetachReceive(c) => Some(CallThread(c))
    case DetachRelock(c) => Some(CallThread(c))
    case DetachRemove(c) => Some(CallThread(c))
    case WorkerTake(w, _) => Some(WorkerThread(w))
    case WorkerDisconnected(w) => Some(WorkerThread(w))
    case WorkerDrained(w) => Some(WorkerThread(w))
    case WorkerRead(w, _) => Some(WorkerThread(w))
    case WorkerLock(w) => Some(WorkerThread(w))
    case WorkerCleanup(w) => Some(WorkerThread(w))
  }

  predicate Unfinished(s: State, t: Thread) {
    match t
    case CallThread(c) => c in s.calls
    case WorkerThread(w) => w in s.workers && !s.workers[w].phase.Finished?
  }

  /** `t` cannot go on before `u` does: `u` holds the lock that `t` wants, is the
      worker that `t` joins, or holds the join handle that `t` wants to take. */
  predicate WaitsFor(s: State, t: Thread, u: Thread) {
    match t
    case CallThread(c) =>
      c in s.calls && (
        || (s.calls[c].WantsLock() && s.lock == Some(u))
        || (s.calls[c].Joining? && u == WorkerThread(s.calls[c].previous) && Unfinished(s, u))
        || (s.calls[c].Taking? && s.calls[c].previous in s.workers && s.workers[s.calls[c].previous].handleTaken
            && s.calls[c].previous in s.takeover && u == CallThread(s.takeover[s.calls[c].previous])))
    case WorkerThread(w) => WorkerAt(s, w, Returned) && s.lock == Some(u)
  }

  /** How far a thread is from the lock: holders 0, those who want it 1, joiners 2. */
  function WaitRank(s: State, t: Thread): nat {
    match t
    case CallThread(c) => if c !in s.calls || s.calls[c].HoldsLock() then 0 else if s.calls[c].Joining? then 2 else 1
    case WorkerThread(w) => if WorkerAt(s, w, Cleaning) then 0 else 1
  }

  lemma LockHolderIsKnown(s: State)
    requires Inv(s)
    ensures match s.lock
            case None => true
            case Some(CallThread(c)) => c in s.calls && s.calls[c].HoldsLock()
            case Some(WorkerThread(w)) => WorkerAt(s, w, Cleaning)
  {
    match s.lock
    case None =>
    case Some(CallThread(c)) => assert CallOk(s, c);
    case Some(WorkerThread(w)) => assert WorkerOk(s, w);
  }

  lemma WaitsGoDown(s: State, t: Thread, u: Thread)
    requires Inv(s) && WaitsFor(s, t, u)
    ensures WaitRank(s, u) < WaitRank(s, t)
  {
    match t
    case CallThread(c) =>
      assert CallOk(s, c);
      LockHolderIsKnown(s);
    case WorkerThread(w) => LockHolderIsKnown(s);
  }

  lemma {:induction false} PathGoesDown(s: State, threads: seq<Thread>)
    requires Inv(s) && |threads| >= 2
    requires forall i | 0 <= i < |threads| - 1 :: WaitsFor(s, threads[i], threads[i + 1])
    ensures WaitRank(s, threads[|threads| - 1]) < WaitRank(s, threads[0])
  {
    WaitsGoDown(s, threads[0], threads[1]);
    if |threads| > 2 {
      forall i | 0 <= i < |threads[1..]| - 1 ensures WaitsFor(s, threads[1..][i], threads[1..][i + 1]) {
        assert WaitsFor(s, threads[i + 1], threads[i + 2]);
      }
      PathGoesDown(s, threads[1..]);
    }
  }

  /** Lock and join waits never form a cycle. */
  lemma NoWaitCycle(s: State, threads: seq<Thread>)
    requires Reachable(s) && |threads| >= 2
    requires forall i | 0 <= i < |threads| - 1 :: WaitsFor(s, threads[i], threads[i + 1])
    ensures threads[0] != threads[|threads| - 1]
  {
    var actions :| Run(actions, s);
    RunKeepsInv(actions, s);
    PathGoesDown(s, threads);
  }

  /** Whoever holds the lock can finish with it. */
  lemma HolderStep(s: State) returns (a: Action)
    requires Inv(s) && s.lock.Some?
    ensures Actor(a) == s.lock && Enabled(s, a)
  {
    LockHolderIsKnown(s);
    match s.lock.value
    case WorkerThread(w) => a := WorkerCleanup(w);
    case CallThread(c) =>
      assert EntryOk(s, s.calls[c].pid) && HandleOk(s, Own(c)) && HandleOk(s, Caller(c));
      a := if s.calls[c].Inserting? then InjectInsert(c)
           else if s.calls[c].LookingUp? then DetachLookup(c)
           else DetachRemove(c);
  }

  /** A thread that neither wants a taken lock nor joins a running worker has a step. */
  lemma OwnStep(s: State, t: Thread) returns (a: Action)
    requires Inv(s) && Unfinished(s, t)
    requires s.lock.Some? ==>
               match t
               case CallThread(c) => !s.calls[c].WantsLock()
               case WorkerThread(w) => !WorkerAt(s, w, Returned)
    requires t.CallThread? && s.calls[t.call].Joining? ==> WorkerAt(s, s.calls[t.call].previous, Finished)
    ensures Actor(a) == Some(t) && Enabled(s, a)
  {
    match t
    case WorkerThread(w) =>
      a := match s.workers[w].phase
        case Draining =>
          if s.workers[w].queue != [] then WorkerTake(w, true)
          else if s.Disconnected(w) then WorkerDisconnected(w) else WorkerDrained(w)
        case Reading => WorkerRead(w, false)
        case Returned => WorkerLock(w)
        case Cleaning => WorkerCleanup(w)
        case Finished => WorkerCleanup(w);
    case CallThread(c) =>
      assert CallOk(s, c) && EntryOk(s, s.calls[c].pid);
      assert HandleOk(s, Own(c)) && HandleOk(s, Caller(c));
      a := match s.calls[c]
        case HasId(_, _) => InjectSpawn(c)
        case WantsInsert(_, _) => InjectLock(c)
        case Inserting(_, _) => InjectInsert(c)
        case Stopping(_, _, _) => InjectStop(c)
        case Taking(_, _, _) => InjectTakeHandle(c)
        case Joining(_, _, _) => InjectJoined(c)
        case WantsLookup(_) => DetachLock(c)
        case LookingUp(_) => DetachLookup(c)
        case Requesting(_, _) => DetachSend(c)
        case Waiting(_, _, response) => if response.None? then DetachGiveUp(c) else DetachReceive(c)
        case WantsRemove(_, _) => DetachRelock(c)
        case Removing(_, _) => DetachRemove(c);
  }

  /** No deadlock: every unfinished thread can take a step, or waits for one that
      can, or waits for one that waits for one that can. */
  lemma SomebodyCanGoOn(s: State, t: Thread) returns (u: Thread, a: Action)
    requires Reachable(s) && Unfinished(s, t)
    ensures t == u || WaitsFor(s, t, u) || exists v :: WaitsFor(s, t, v) && WaitsFor(s, v, u)
    ensures Actor(a) == Some(u) && Enabled(s, a)
  {
    var actions :| Run(actions, s);
    RunKeepsInv(actions, s);
    var blocked := t;
    if t.CallThread? && s.calls[t.call].Joining? && !WorkerAt(s, s.calls[t.call].previous, Finished) {
      assert CallOk(s, t.call);
      blocked := WorkerThread(s.calls[t.call].previous);
      assert WaitsFor(s, t, blocked);
    }
    if (blocked.CallThread? && s.calls[blocked.call].WantsLock() && s.lock.Some?)
       || (blocked.WorkerThread? && WorkerAt(s, blocked.id, Returned) && s.lock.Some?) {
      u := s.lock.value;
      assert WaitsFor(s, blocked, u);
      a := HolderStep(s);
    } else {
      u := blocked;
      a := OwnStep(s, u);
    }
  }

  /** A worker that has been told to stop, or that nobody can send to any more. */
  predicate Doomed(s: State, w: ControlId) {
    w in s.workers && s.workers[w].Live() && (Stop in s.workers[w].queue || s.Disconnected(w))
  }

  /** The commands up to and including the first stop. */
  function UntilStop(queue: seq<Command>): nat {
    if queue == [] then 0 else if queue[0].Stop? then 1 else 1 + UntilStop(queue[1..])
  }

  /** A bound on the steps a doomed worker still takes in its loop. */
  function StepsLeft(s: State, w: ControlId): nat
    requires w in s.workers
  {
    UntilStop(s.workers[w].queue) + 1 + if s.workers[w].phase.Reading? then 1 else 0
  }

  lemma {:induction false} SendAfterStop(queue: seq<Command>, command: Command)
    requires Stop in queue
    ensures UntilStop(queue + [command]) == UntilStop(queue)
  {
    assert queue == [queue[0]] + queue[1..];
    if !queue[0].Stop? {
      assert (queue + [command])[1..] == queue[1..] + [command];
      SendAfterStop(queue[1..], command);
    }
  }

  lemma TakeCounts(s: State, w: ControlId, granted: bool)
    requires Enabled(s, WorkerTake(w, granted)) && Doomed(s, w)
    ensures var s' := TakeCommand(s, w, granted);
            && w in s'.workers
            && (s'.workers[w].Live() ==>
                  && (Stop in s.workers[w].queue ==> Stop in s'.workers[w].queue)
                  && StepsLeft(s', w) < StepsLeft(s, w))
  {
    var queue := s.workers[w].queue;
    assert queue == [queue[0]] + queue[1..];
    assert UntilStop(queue) == if queue[0].Stop? then 1 else 1 + UntilStop(queue[1..]);
  }

  lemma OwnStepCounts(s: State, a: Action, w: ControlId)
    requires Inv(s) && Enabled(s, a) && Doomed(s, w) && Actor(a) == Some(WorkerThread(w))
    ensures w in Apply(s, a).workers
    ensures Apply(s, a).workers[w].Live() ==>
              && (Stop in s.workers[w].queue ==> Stop in Apply(s, a).workers[w].queue)
              && StepsLeft(Apply(s, a), w) < StepsLeft(s, w)
  {
    match a {
      case WorkerTake(_, granted) => TakeCounts(s, w, granted);
      case WorkerDisconnected(_) =>
      case WorkerDrained(_) =>
      case WorkerRead(_, exits) =>
      case WorkerLock(_) =>
      case WorkerCleanup(_) =>
    }
  }

  lemma WorkerMakesNoHandle(s: State, a: Action)
    requires Enabled(s, a) && IsWorkerStep(a)
    ensures forall h | h in Apply(s, a).handles :: h in s.handles && Apply(s, a).handles[h] == s.handles[h]
  {
  }

  /** A worker without handles gets none: handles are copied from handles, or made with the worker. */
  lemma NoNewHandles(s: State, a: Action, w: ControlId)
    requires Inv(s) && Enabled(s, a) && w in s.workers && s.Disconnected(w)
    ensures Apply(s, a).Disconnected(w)
  {
    match a {
      case InjectSpawn(c) => assert CallOk(s, c);
      case InjectInsert(c) => assert HandleOk(s, Own(c)) && HandleOk(s, MapEntry(s.calls[c].pid));
      case DetachLookup(c) => assert HandleOk(s, MapEntry(s.calls[c].pid));
      case _ =>
        if IsWorkerStep(a) {
          WorkerMakesNoHandle(s, a);
        }
    }
  }

  lemma OtherTakes(s: State, v: ControlId, granted: bool, w: ControlId)
    requires Enabled(s, WorkerTake(v, granted)) && v != w && w in s.workers
    ensures var s' := TakeCommand(s, v, granted); w in s'.workers && s'.workers[w] == s.workers[w]
  {
  }

  lemma OtherWorkerStep(s: State, a: Action, v: ControlId, w: ControlId)
    requires Enabled(s, a) && Actor(a) == Some(WorkerThread(v)) && v != w && w in s.workers
    ensures w in Apply(s, a).workers && Apply(s, a).workers[w] == s.workers[w]
  {
    match a {
      case WorkerTake(_, granted) => OtherTakes(s, v, granted, w);
      case WorkerDisconnected(_) =>
      case WorkerDrained(_) =>
      case WorkerRead(_, exits) =>
      case WorkerLock(_) =>
      case WorkerCleanup(_) =>
    }
  }

  lemma SentTo(s: State, to: ControlId, command: Command, w: ControlId, h: Holder)
    requires Inv(s) && to in s.workers && w in s.workers && Target(s, h) == Some(to)
    ensures var before, after := s.workers[w], Send(s.workers, to, command)[w];
            && after.phase == before.phase && after.pid == before.pid
            && (after == before ||
                (before.queue < after.queue && |after.queue| == |before.queue| + 1 && !s.Disconnected(w)))
  {
    assert HandleOk(s, h);
  }

  lemma CallSends(s: State, a: Action, w: ControlId)
    requires Inv(s) && Enabled(s, a) && w in s.workers
    requires Actor(a).None? || Actor(a).value.CallThread?
    ensures w in Apply(s, a).workers
    ensures Apply(s, a).workers[w].phase == s.workers[w].phase && Apply(s, a).workers[w].pid == s.workers[w].pid
    ensures var before, after := s.workers[w].queue, Apply(s, a).workers[w].queue;
            after == before || (before < after && |after| == |before| + 1 && !s.Disconnected(w))
  {
    match a {
      case InjectSpawn(c) => assert CallOk(s, c);
      case InjectStop(c) => SentTo(s, s.calls[c].previous, Stop, w, Replaced(c));
      case DetachSend(c) => SentTo(s, s.calls[c].id, RequestDetach(c), w, Caller(c));
      case InjectTakeHandle(c) =>
      case _ => assert Apply(s, a).workers == s.workers;
    }
  }

  /** Only the worker itself takes from its queue or changes phase; a send goes
      to the end, and needs a handle. */
  lemma QueueOnlyGrows(s: State, a: Action, w: ControlId)
    requires Inv(s) && Enabled(s, a) && w in s.workers && s.workers[w].Live() && Actor(a) != Some(WorkerThread(w))
    ensures w in Apply(s, a).workers && Apply(s, a).workers[w].phase == s.workers[w].phase
    ensures var before, after := s.workers[w].queue, Apply(s, a).workers[w].queue;
            after == before || (before < after && |after| == |before| + 1 && !s.Disconnected(w))
  {
    match Actor(a)
    case Some(WorkerThread(v)) => OtherWorkerStep(s, a, v, w);
    case _ => CallSends(s, a, w);
  }

  /** A doomed worker never waits again: each of its own steps uses up one of
      those left or takes it out of the loop, and no other thread's step gives
      it more. So it leaves its loop within `StepsLeft` steps of its own. */
  lemma DoomedWorkerLeaves(s: State, a: Action, w: ControlId)
    requires Inv(s) && Enabled(s, a) && Doomed(s, w)
    ensures w in Apply(s, a).workers
    ensures Apply(s, a).workers[w].Live() ==>
              && Doomed(Apply(s, a), w)
              && StepsLeft(Apply(s, a), w) <= StepsLeft(s, w) - if Actor(a) == Some(WorkerThread(w)) then 1 else 0
  {
    if s.Disconnected(w) {
      NoNewHandles(s, a, w);
    }
    if Actor(a) == Some(WorkerThread(w)) {
      OwnStepCounts(s, a, w);
    } else {
      QueueOnlyGrows(s, a, w);
      var before, after := s.workers[w].queue, Apply(s, a).workers[w].queue;
      if after != before {
        assert after == before + [after[|before|]];
        SendAfterStop(before, after[|before|]);
      }
    }
  }

  // Who may touch an entry.

  /** The step takes the entry of `pid` away from the control it names, or gives it to another. */
  predicate Displaces(s: State, a: Action, pid: Pid)
    requires Enabled(s, a)
  {
    match a
    case InjectInsert(c) => s.calls[c].pid == pid
    case DetachRemove(c) => s.calls[c].pid == pid
    case WorkerCleanup(w) => pid in s.controls && s.controls[pid] == w
    case _ => false
  }

  /** An entry changes in exactly three kinds of step: an insertion for its pid,
      the end of a granted detach for its pid, and the cleanup of its own worker.
      So the cleanup of a worker that was replaced leaves its successor alone. */
  lemma EntryChangesExactlyWhen(s: State, a: Action, pid: Pid)
    requires Inv(s) && Enabled(s, a) && pid in s.controls
    ensures Displaces(s, a, pid) <==> !(pid in Apply(s, a).controls && Apply(s, a).controls[pid] == s.controls[pid])
  {
    assert EntryOk(s, pid);
    match a {
      case InjectInsert(c) => assert CallOk(s, c);
      case WorkerCleanup(w) =>
      case DetachRemove(c) =>
      case _ =>
    }
  }

  /** A control that has been in the map and is there no more. */
  predicate Gone(s: State, w: ControlId) {
    w in s.inserted && w in s.workers && !EntryMatches(s, w)
  }

  lemma NoReturn(s: State, a: Action, w: ControlId)
    requires Inv(s) && Enabled(s, a) && Gone(s, w)
    ensures w in Apply(s, a).inserted
    ensures var pid := s.workers[w].pid;
            pid in Apply(s, a).controls ==> Apply(s, a).controls[pid] != w
  {
    match a {
      case InjectInsert(c) => assert CallOk(s, c);
      case DetachRemove(c) =>
      case WorkerCleanup(v) =>
      case _ =>
    }
  }

  lemma StepKeepsWorker(s: State, a: Action, w: ControlId)
    requires Inv(s) && Enabled(s, a) && w in s.workers
    ensures w in Apply(s, a).workers && Apply(s, a).workers[w].pid == s.workers[w].pid
  {
    match Actor(a)
    case Some(WorkerThread(v)) =>
      if v != w {
        OtherWorkerStep(s, a, v, w);
      } else {
        match a {
          case WorkerTake(_, granted) =>
          case WorkerDisconnected(_) =>
          case WorkerDrained(_) =>
          case WorkerRead(_, exits) =>
          case WorkerLock(_) =>
          case WorkerCleanup(_) =>
        }
      }
    case _ => CallSends(s, a, w);
  }

  /** Control ids are never reused: a control that is gone does not come back. */
  lemma GoneForGood(s: State, a: Action, w: ControlId)
    requires Inv(s) && Enabled(s, a) && Gone(s, w)
    ensures Gone(Apply(s, a), w)
  {
    StepKeepsWorker(s, a, w);
    NoReturn(s, a, w);
  }

  /** A run from `s` to `s'`. */
  ghost predicate Leads(s: State, actions: seq<Action>, s': State)
    decreases |actions|
  {
    if actions == [] then s == s'
    else Enabled(s, actions[0]) && Leads(Apply(s, actions[0]), actions[1..], s')
  }

  /** How many steps the worker takes in its loop along the run. */
  function LoopSteps(s: State, actions: seq<Action>, w: ControlId): nat
    decreases |actions|
  {
    if actions == [] || !Enabled(s, actions[0]) then 0
    else
      LoopSteps(Apply(s, actions[0]), actions[1..], w) +
      if w in s.workers && s.workers[w].Live() && Actor(actions[0]) == Some(WorkerThread(w)) then 1 else 0
  }

  lemma StepStaysOut(s: State, a: Action, w: ControlId)
    requires Inv(s) && Enabled(s, a) && w in s.workers && !s.workers[w].Live()
    ensures w in Apply(s, a).workers && !Apply(s, a).workers[w].Live()
  {
    match Actor(a)
    case Some(WorkerThread(v)) =>
      if v != w {
        OtherWorkerStep(s, a, v, w);
      } else {
        assert !a.WorkerTake? && !a.WorkerDisconnected? && !a.WorkerDrained? && !a.WorkerRead?;
      }
    case _ => CallSends(s, a, w);
  }

  /** A worker that has left its loop does not come back to it. */
  lemma {:induction false} StaysOut(s: State, actions: seq<Action>, s': State, w: ControlId)
    requires Inv(s) && w in s.workers && !s.workers[w].Live() && Leads(s, actions, s')
    ensures w in s'.workers && !s'.workers[w].Live()
    ensures LoopSteps(s, actions, w) == 0
    decreases |actions|
  {
    if actions != [] {
      StepStaysOut(s, actions[0], w);
      StepKeepsInv(s, actions[0]);
      StaysOut(Apply(s, actions[0]), actions[1..], s', w);
    }
  }

  /** Along any run a doomed worker takes at most `StepsLeft` steps in its loop,
      and while it is there it is never kept from taking the next one. */
  lemma {:induction false} DoomedWorkerRunsOut(s: State, actions: seq<Action>, s': State, w: ControlId)
    returns (next: Action)
    requires Inv(s) && Doomed(s, w) && Leads(s, actions, s')
    ensures w in s'.workers
    ensures LoopSteps(s, actions, w) <= StepsLeft(s, w)
    ensures s'.workers[w].Live() ==>
              && Doomed(s', w) && LoopSteps(s, actions, w) + StepsLeft(s', w) <= StepsLeft(s, w)
              && Actor(next) == Some(WorkerThread(w)) && Enabled(s', next)
    decreases |actions|
  {
    if actions == [] {
      next := OwnStep(s, WorkerThread(w));
    } else {
      next := actions[0];
      DoomedWorkerLeaves(s, actions[0], w);
      StepKeepsInv(s, actions[0]);
      var after := Apply(s, actions[0]);
      if after.workers[w].Live() {
        next := DoomedWorkerRunsOut(after, actions[1..], s', w);
      } else {
        StaysOut(after, actions[1..], s', w);
      }
    }
  }

  /** No step of the run takes the entry of `pid` away from its control. */
  ghost predicate Undisturbed(s: State, actions: seq<Action>, pid: Pid)
    decreases |actions|
  {
    actions == [] || (
      Enabled(s, actions[0]) && !Displaces(s, actions[0], pid) && Undisturbed(Apply(s, actions[0]), actions[1..], pid))
  }

  lemma InsertedStays(s: State, a: Action, w: ControlId)
    requires Enabled(s, a) && w in s.inserted
    ensures w in Apply(s, a).inserted
  {
  }

  lemma {:induction false} StaysGone(s: State, actions: seq<Action>, s': State, w: ControlId)
    requires Inv(s) && Gone(s, w) && Leads(s, actions, s')
    ensures Gone(s', w) && s'.workers[w].pid == s.workers[w].pid
    decreases |actions|
  {
    if actions != [] {
      StepKeepsInv(s, actions[0]);
      StepKeepsWorker(s, actions[0], w);
      GoneForGood(s, actions[0], w);
      StaysGone(Apply(s, actions[0]), actions[1..], s', w);
    }
  }

  /** After a lookup has found control `w`, the entry is still `w` exactly when
      no step has disturbed it. So the removal that ends a granted detach takes
      away the control that was detached exactly when nothing disturbed the entry
      in between; otherwise it takes away a successor, or nothing. */
  lemma {:induction false} EntryStandsExactlyWhen(s: State, actions: seq<Action>, s': State, pid: Pid)
    requires Inv(s) && pid in s.controls && Leads(s, actions, s')
    ensures Undisturbed(s, actions, pid) <==> pid in s'.controls && s'.controls[pid] == s.controls[pid]
    decreases |actions|
  {
    if actions != [] {
      var w, next := s.controls[pid], Apply(s, actions[0]);
      assert EntryOk(s, pid);
      StepKeepsInv(s, actions[0]);
      EntryChangesExactlyWhen(s, actions[0], pid);
      if Displaces(s, actions[0], pid) {
        StepKeepsWorker(s, actions[0], w);
        InsertedStays(s, actions[0], w);
        StaysGone(next, actions[1..], s', w);
      } else {
        EntryStandsExactlyWhen(next, actions[1..], s', pid);
      }
    }
  }

  /** An entry of a thread that is already gone: a detach through it can only fail. */
  predicate DeadEntry(s: State, pid: Pid) {
    pid in s.controls && WorkerAt(s, s.controls[pid], Finished)
  }

  lemma FinishedOnlyByCleanup(s: State, a: Action, w: ControlId)
    requires Inv(s) && Enabled(s, a) && w in s.workers && !a.WorkerCleanup?
    ensures w in Apply(s, a).workers
    ensures Apply(s, a).workers[w].phase.Finished? ==> s.workers[w].phase.Finished?
  {
    match Actor(a)
    case Some(WorkerThread(v)) =>
      if v != w {
        OtherWorkerStep(s, a, v, w);
      }
    case _ => CallSends(s, a, w);
  }

  lemma NoDeadEntryOtherwise(s: State, a: Action, pid: Pid)
    requires Inv(s) && Enabled(s, a) && !a.InjectInsert? && !a.DetachRemove? && !a.WorkerCleanup?
    ensures DeadEntry(Apply(s, a), pid) ==> DeadEntry(s, pid)
  {
    if pid in s.controls {
      assert EntryOk(s, pid);
      FinishedOnlyByCleanup(s, a, s.controls[pid]);
    }
  }

  /** A step leaves a dead entry where there was none exactly when it inserts a
      control whose worker has already cleaned up. */
  lemma DeadEntryArisesExactlyWhen(s: State, a: Action, pid: Pid)
    requires Inv(s) && Enabled(s, a)
    ensures DeadEntry(Apply(s, a), pid) && !DeadEntry(s, pid)
            <==> !DeadEntry(s, pid) && a.InjectInsert? && s.calls[a.call].pid == pid &&
                 WorkerAt(s, s.calls[a.call].id, Finished)
  {
    assert EntryOk(s, pid);
    match a {
      case InjectInsert(c) => assert CallOk(s, c);
      case DetachRemove(c) =>
      case WorkerCleanup(w) => assert EntryOk(s, s.workers[w].pid);
      case _ => NoDeadEntryOtherwise(s, a, pid);
    }
  }

  // Two states that do come about, from any reachable state in which the lock is free.

  lemma Reach(s: State, a: Action) returns (s': State)
    requires Reachable(s) && Enabled(s, a)
    ensures Reachable(s') && s' == Apply(s, a)
  {
    var actions :| Run(actions, s);
    s' := Apply(s, a);
    assert DropLast(actions + [a]) == actions && Last(actions + [a]) == a;
    assert Steps(s, a, s');
    assert Run(actions + [a], s');
  }

  /** An injection up to the point where it wants the lock. */
  lemma InjectionStarts(s: State, pid: Pid) returns (s': State)
    requires Reachable(s)
    ensures Reachable(s')
    ensures s' == s.(nextId := s.nextId + 1, nextCall := s.nextCall + 1,
                     workers := s.workers[s.nextId := Worker(pid, Draining, [], false)],
                     handles := s.handles[Own(s.nextCall) := s.nextId],
                     calls := s.calls[s.nextCall := WantsInsert(pid, s.nextId)],
                     origin := s.origin[s.nextId := s.nextCall])
  {
    var numbered := Reach(s, InjectAllocate(pid));
    s' := Reach(numbered, InjectSpawn(s.nextCall));
    assert s'.calls == s.calls[s.nextCall := WantsInsert(pid, s.nextId)];
  }

  /** From there to the insertion. */
  lemma InjectionInserts(s: State, c: CallId) returns (s': State)
    requires Reachable(s) && s.lock.None? && c in s.calls && s.calls[c].WantsInsert?
    requires s.calls[c].id in s.workers && EntryKnown(s, s.calls[c].pid)
    ensures Reachable(s') && s'.lock.None? && s'.workers == s.workers
    ensures s'.controls == s.controls[s.calls[c].pid := s.calls[c].id]
    ensures forall d | d in s.calls && d != c :: d in s'.calls && s'.calls[d] == s.calls[d]
  {
    var locked := Reach(s, InjectLock(c));
    s' := Reach(locked, InjectInsert(c));
  }

  /** A detach up to its request. */
  lemma DetachRequests(s: State, pid: Pid) returns (s': State)
    requires Reachable(s) && s.lock.None? && pid in s.controls && s.controls[pid] in s.workers
    ensures Reachable(s') && s'.lock.None? && s'.workers == s.workers && s'.controls == s.controls
    ensures s.nextCall in s'.calls && s'.calls[s.nextCall] == Requesting(pid, s.controls[pid])
  {
    var started := Reach(s, DetachStart(pid));
    var locked := Reach(started, DetachLock(s.nextCall));
    s' := Reach(locked, DetachLookup(s.nextCall));
  }

  /** The worker grants it. */
  lemma DetachIsGranted(s: State, c: CallId) returns (s': State)
    requires Reachable(s) && c in s.calls && s.calls[c].Requesting? && s.lock.None?
    requires WorkerAt(s, s.calls[c].id, Draining) && s.workers[s.calls[c].id].queue == []
    ensures Reachable(s') && s'.lock.None? && s'.controls == s.controls && s.calls[c].id in s'.workers
    ensures c in s'.calls && s'.calls[c] == WantsRemove(s.calls[c].pid, s.calls[c].id)
  {
    var w := s.calls[c].id;
    var sent := Reach(s, DetachSend(c));
    var granted := Reach(sent, WorkerTake(w, true));
    s' := Reach(granted, DetachReceive(c));
  }

  lemma NewIdIsNew(s: State, c: CallId)
    requires Reachable(s) && c in s.calls
    ensures s.nextId !in s.workers && c != s.nextCall
  {
    var actions :| Run(actions, s);
    RunKeepsInv(actions, s);
    assert WorkerOk(s, s.nextId) && CallOk(s, c);
  }

  /** The removal that ends a granted detach can take away a control that was
      injected since: a live worker that the detach never asked. */
  lemma DetachCanRemoveSuccessor(s: State, pid: Pid) returns (s': State, c: CallId, successor: ControlId)
    requires Reachable(s) && s.lock.None? && pid !in s.controls
    ensures Reachable(s') && Enabled(s', DetachRemove(c)) && s'.calls[c] == Removing(pid, s.nextId)
    ensures pid in s'.controls && s'.controls[pid] == successor != s.nextId
    ensures successor in s'.workers && s'.workers[successor].Live()
    ensures pid !in Apply(s', DetachRemove(c)).controls
  {
    var first := InjectionStarts(s, pid);
    var inserted := InjectionInserts(first, s.nextCall);
    var asked := DetachRequests(inserted, pid);
    c := inserted.nextCall;
    var granted := DetachIsGranted(asked, c);
    var second := InjectionStarts(granted, pid);
    successor := granted.nextId;
    NewIdIsNew(granted, c);
    var replaced := InjectionInserts(second, granted.nextCall);
    s' := Reach(replaced, DetachRelock(c));
  }

  /** A worker whose connection fails at once. */
  lemma WorkerFailsEarly(s: State, c: CallId) returns (s': State)
    requires Reachable(s) && s.lock.None? && c in s.calls && s.calls[c].WantsInsert? && s.calls[c].pid !in s.controls
    requires s.calls[c].id in s.workers && s.workers[s.calls[c].id] == Worker(s.calls[c].pid, Draining, [], false)
    requires Own(c) in s.handles && s.handles[Own(c)] == s.calls[c].id
    ensures Reachable(s') && s'.lock.None? && s'.calls == s.calls && s'.controls == s.controls
    ensures WorkerAt(s', s.calls[c].id, Finished)
  {
    var w := s.calls[c].id;
    assert !s.Disconnected(w);
    var reading := Reach(s, WorkerDrained(w));
    var returned := Reach(reading, WorkerRead(w, true));
    var cleaning := Reach(returned, WorkerLock(w));
    s' := Reach(cleaning, WorkerCleanup(w));
  }

  /** A control whose worker is already gone can get into the map and stay
      there: it was inserted after its worker had cleaned up. */
  lemma DeadEntryIsReachable(s: State, pid: Pid) returns (s': State)
    requires Reachable(s) && s.lock.None? && pid !in s.controls
    ensures Reachable(s') && s'.lock.None? && DeadEntry(s', pid)
  {
    var started := InjectionStarts(s, pid);
    var failed := WorkerFailsEarly(started, s.nextCall);
    s' := InjectionInserts(failed, s.nextCall);
  }
}

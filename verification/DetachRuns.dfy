/** What a run of the registry did for each of its calls: where a detach comes
    from, what the target answered it, and when it may take an entry away. */
module DetachRuns {
  import opened ControlRegistry
  import opened Sequences
  import opened Wrappers

  /** The state at the end of a run. */
  function Final(actions: seq<Action>): State {
    if actions == [] then INIT
    else
      var before := Final(DropLast(actions));
      if Enabled(before, Last(actions)) then Apply(before, Last(actions)) else before
  }

  lemma {:induction false} RunIsFinal(actions: seq<Action>, s: State)
    requires Run(actions, s)
    ensures s == Final(actions)
    ensures actions != [] ==> Run(DropLast(actions), Final(DropLast(actions))) &&
                              Enabled(Final(DropLast(actions)), Last(actions))
  {
    if actions != [] {
      var before :| Run(DropLast(actions), before) && Steps(before, Last(actions), s);
      RunIsFinal(DropLast(actions), before);
    }
  }

  // What happened, read off the actions.

  /** Step `i` begins call `c` as a detach of `pid`. */
  ghost predicate Began(actions: seq<Action>, i: int, c: CallId, pid: Pid) {
    0 <= i < |actions| && actions[i] == DetachStart(pid) && Final(actions[..i]).nextCall == c
  }

  /** Step `i` begins call `c` as an injection into `pid`, and gives it the control id `w`. */
  ghost predicate Allocated(actions: seq<Action>, i: int, c: CallId, pid: Pid, w: ControlId) {
    && 0 <= i < |actions| && actions[i] == InjectAllocate(pid)
    && Final(actions[..i]).nextCall == c && Final(actions[..i]).nextId == w
  }

  /** In step `i` detach `c` finds control `w` in the map under `pid`. */
  ghost predicate Found(actions: seq<Action>, i: int, c: CallId, pid: Pid, w: ControlId) {
    && 0 <= i < |actions| && actions[i] == DetachLookup(c)
    && pid in Final(actions[..i]).controls && Final(actions[..i]).controls[pid] == w
  }

  predicate AtHead(s: State, w: ControlId, c: CallId)
    requires w in s.workers
  {
    s.workers[w].queue != [] && s.workers[w].queue[0] == RequestDetach(c)
  }

  /** In step `i` worker `w` comes to the request of detach `c`, and the target answers it. */
  ghost predicate Answered(actions: seq<Action>, i: int, w: ControlId, c: CallId, granted: bool) {
    && 0 <= i < |actions| && actions[i] == WorkerTake(w, granted)
    && w in Final(actions[..i]).workers && AtHead(Final(actions[..i]), w, c)
  }

  lemma StillHappened(actions: seq<Action>, a: Action, i: int)
    requires 0 <= i < |actions|
    ensures (actions + [a])[..i] == actions[..i] && (actions + [a])[i] == actions[i]
  {
  }

  lemma JustHappened(actions: seq<Action>, a: Action)
    ensures (actions + [a])[..|actions|] == actions && (actions + [a])[|actions|] == a
  {
  }

  // The calls a step touches.

  /** The call that a step begins, moves or answers. */
  function Touched(s: State, a: Action): Option<CallId>
    requires Enabled(s, a)
  {
    match a
    case InjectAllocate(_) => Some(s.nextCall)
    case DetachStart(_) => Some(s.nextCall)
    case WorkerTake(w, _) => if s.workers[w].queue[0].RequestDetach? then Some(s.workers[w].queue[0].call) else None
    case _ => match Actor(a) case Some(CallThread(c)) => Some(c) case _ => None
  }

  predicate IsInject(a: Action) {
    a.InjectSpawn? || a.InjectLock? || a.InjectInsert? || a.InjectStop? || a.InjectTakeHandle? || a.InjectJoined?
  }

  lemma InjectTouches(s: State, a: Action, c: CallId)
    requires Enabled(s, a) && IsInject(a) && a.call != c
    ensures c in Apply(s, a).calls <==> c in s.calls
    ensures c in s.calls ==> Apply(s, a).calls[c] == s.calls[c]
  {
  }

  predicate IsDetach(a: Action) {
    || a.DetachLock? || a.DetachLookup? || a.DetachSend? || a.DetachGiveUp? || a.DetachReceive? || a.DetachRelock?
    || a.DetachRemove?
  }

  lemma DetachTouches(s: State, a: Action, c: CallId)
    requires Enabled(s, a) && IsDetach(a) && a.call != c
    ensures c in Apply(s, a).calls <==> c in s.calls
    ensures c in s.calls ==> Apply(s, a).calls[c] == s.calls[c]
  {
  }

  lemma CallTouches(s: State, a: Action, c: CallId)
    requires Enabled(s, a) && !IsWorkerStep(a) && Touched(s, a) != Some(c)
    ensures c in Apply(s, a).calls <==> c in s.calls
    ensures c in s.calls ==> Apply(s, a).calls[c] == s.calls[c]
  {
    if IsInject(a) {
      InjectTouches(s, a, c);
    } else if IsDetach(a) {
      DetachTouches(s, a, c);
    }
  }

  lemma IsWorkers(s: State, a: Action)
    requires Enabled(s, a) && IsWorkerStep(a)
    ensures Apply(s, a) == ApplyWorker(s, a)
  {
  }

  lemma TakeTouches(s: State, w: ControlId, granted: bool, c: CallId)
    requires Enabled(s, WorkerTake(w, granted)) && !AtHead(s, w, c)
    ensures c in TakeCommand(s, w, granted).calls <==> c in s.calls
    ensures c in s.calls ==> TakeCommand(s, w, granted).calls[c] == s.calls[c]
  {
  }

  lemma WorkerTouches(s: State, a: Action, c: CallId)
    requires Enabled(s, a) && IsWorkerStep(a) && Touched(s, a) != Some(c)
    ensures c in Apply(s, a).calls <==> c in s.calls
    ensures c in s.calls ==> Apply(s, a).calls[c] == s.calls[c]
  {
    IsWorkers(s, a);
    if a.WorkerTake? {
      TakeTouches(s, a.id, a.granted, c);
    }
  }

  lemma OthersStay(s: State, a: Action, c: CallId)
    requires Enabled(s, a) && Touched(s, a) != Some(c)
    ensures c in Apply(s, a).calls <==> c in s.calls
    ensures c in s.calls ==> Apply(s, a).calls[c] == s.calls[c]
  {
    if IsWorkerStep(a) {
      WorkerTouches(s, a, c);
    } else {
      CallTouches(s, a, c);
    }
  }

  lemma CallNumbers(s: State, a: Action)
    requires Enabled(s, a) && !IsWorkerStep(a)
    ensures Apply(s, a).nextCall == if a.InjectAllocate? || a.DetachStart? then s.nextCall + 1 else s.nextCall
  {
  }

  lemma WorkersBeginNone(s: State, a: Action)
    requires Enabled(s, a) && IsWorkerStep(a)
    ensures Apply(s, a).nextCall == s.nextCall
  {
    IsWorkers(s, a);
  }

  // Where each call comes from.

  ghost predicate Story(actions: seq<Action>, call: Call, c: CallId) {
    && (call.Injects() ==> exists i :: Allocated(actions, i, c, call.pid, call.id))
    && (!call.Injects() ==> exists i :: Began(actions, i, c, call.pid))
    && (call.CallerId().Some? ==> exists i :: Found(actions, i, c, call.pid, call.id))
    && (call.Waiting? && call.response.Some? ==> exists i :: Answered(actions, i, call.id, c, call.response.value))
    && (call.WantsRemove? || call.Removing? ==> exists i :: Answered(actions, i, call.id, c, true))
  }

  ghost predicate AllStories(actions: seq<Action>, s: State) {
    forall c | c in s.calls :: Story(actions, s.calls[c], c)
  }

  lemma StoryStays(actions: seq<Action>, a: Action, call: Call, c: CallId)
    requires Story(actions, call, c)
    ensures Story(actions + [a], call, c)
  {
    forall i | 0 <= i < |actions| ensures (actions + [a])[..i] == actions[..i] && (actions + [a])[i] == actions[i] {
      StillHappened(actions, a, i);
    }
    if call.Injects() {
      var i :| Allocated(actions, i, c, call.pid, call.id);
      assert Allocated(actions + [a], i, c, call.pid, call.id);
    }
    if !call.Injects() {
      var i :| Began(actions, i, c, call.pid);
      assert Began(actions + [a], i, c, call.pid);
    }
    if call.CallerId().Some? {
      var i :| Found(actions, i, c, call.pid, call.id);
      assert Found(actions + [a], i, c, call.pid, call.id);
    }
    if call.Waiting? && call.response.Some? {
      var i :| Answered(actions, i, call.id, c, call.response.value);
      assert Answered(actions + [a], i, call.id, c, call.response.value);
    }
    if call.WantsRemove? || call.Removing? {
      var i :| Answered(actions, i, call.id, c, true);
      assert Answered(actions + [a], i, call.id, c, true);
    }
  }

  lemma CallBegins(actions: seq<Action>, a: Action)
    requires a.InjectAllocate? || a.DetachStart?
    ensures var s' := Apply(Final(actions), a);
            Final(actions).nextCall in s'.calls &&
            Story(actions + [a], s'.calls[Final(actions).nextCall], Final(actions).nextCall)
  {
    var s := Final(actions);
    JustHappened(actions, a);
    match a {
      case InjectAllocate(pid) => assert Allocated(actions + [a], |actions|, s.nextCall, pid, s.nextId);
      case DetachStart(pid) => assert Began(actions + [a], |actions|, s.nextCall, pid);
    }
  }

  lemma InjectGoesOn(s: State, a: Action)
    requires Enabled(s, a) && IsInject(a)
    ensures a.call in s.calls && s.calls[a.call].Injects()
    ensures a.call in Apply(s, a).calls ==>
              && Apply(s, a).calls[a.call].Injects()
              && Apply(s, a).calls[a.call].pid == s.calls[a.call].pid
              && Apply(s, a).calls[a.call].id == s.calls[a.call].id
  {
  }

  /** The steps of a detach: it finds a control, asks it, and goes on to the removal when that was granted. */
  ghost predicate Follows(s: State, call: Call, call': Call) {
    && call'.pid == call.pid && !call.Injects() && !call'.Injects()
    && (call'.CallerId().Some? ==>
          call'.CallerId() == call.CallerId() ||
          (call.LookingUp? && call.pid in s.controls && call'.id == s.controls[call.pid]))
    && (call'.Waiting? ==> call'.response.None?)
    && (call'.WantsRemove? || call'.Removing? ==>
          call == Waiting(call.pid, call'.id, Some(true)) || call == WantsRemove(call.pid, call'.id))
  }

  lemma DetachGoesOn(s: State, a: Action)
    requires Enabled(s, a) && IsDetach(a)
    ensures a.call in s.calls
    ensures a.call in Apply(s, a).calls ==> Follows(s, s.calls[a.call], Apply(s, a).calls[a.call])
    ensures a.call in Apply(s, a).calls && s.calls[a.call].LookingUp? ==> a.DetachLookup?
  {
  }

  lemma DetachStoryGoesOn(actions: seq<Action>, a: Action)
    requires Enabled(Final(actions), a) && IsDetach(a)
    requires a.call in Final(actions).calls && Story(actions, Final(actions).calls[a.call], a.call)
    requires a.call in Apply(Final(actions), a).calls
    ensures Story(actions + [a], Apply(Final(actions), a).calls[a.call], a.call)
  {
    var s := Final(actions);
    var call, call' := s.calls[a.call], Apply(s, a).calls[a.call];
    DetachGoesOn(s, a);
    StoryStays(actions, a, call, a.call);
    JustHappened(actions, a);
    if call'.CallerId().Some? && call'.CallerId() != call.CallerId() {
      assert Found(actions + [a], |actions|, a.call, call.pid, call'.id);
    }
  }

  /** The answer goes to the call that asked, if it is still waiting for one. */
  lemma TakeAnswers(s: State, w: ControlId, granted: bool, c: CallId)
    requires Enabled(s, WorkerTake(w, granted)) && AtHead(s, w, c) && c in s.calls
    ensures c in TakeCommand(s, w, granted).calls
    ensures TakeCommand(s, w, granted).calls[c] ==
            var call := s.calls[c];
            if call.Waiting? && call.id == w && call.response.None? then Waiting(call.pid, w, Some(granted)) else call
  {
  }

  lemma AnswerIsStory(actions: seq<Action>, call: Call, c: CallId, granted: bool, i: int)
    requires Story(actions, call, c) && call.Waiting?
    requires Answered(actions, i, call.id, c, granted)
    ensures Story(actions, Waiting(call.pid, call.id, Some(granted)), c)
  {
  }

  lemma AnswerGoesOn(actions: seq<Action>, w: ControlId, granted: bool, c: CallId, call: Call)
    requires w in Final(actions).workers && AtHead(Final(actions), w, c)
    requires Story(actions + [WorkerTake(w, granted)], call, c)
    requires call.Waiting? && call.id == w
    ensures Story(actions + [WorkerTake(w, granted)], Waiting(call.pid, w, Some(granted)), c)
  {
    JustHappened(actions, WorkerTake(w, granted));
    AnswerIsStory(actions + [WorkerTake(w, granted)], call, c, granted, |actions|);
  }

  lemma TakeBeginsNone(s: State, w: ControlId, granted: bool, c: CallId)
    requires Enabled(s, WorkerTake(w, granted))
    ensures c in TakeCommand(s, w, granted).calls <==> c in s.calls
  {
  }

  lemma CallStoryGoesOn(actions: seq<Action>, a: Action, c: CallId)
    requires Enabled(Final(actions), a) && !IsWorkerStep(a) && Touched(Final(actions), a) == Some(c)
    requires c in Final(actions).calls ==> Story(actions, Final(actions).calls[c], c)
    requires c in Apply(Final(actions), a).calls
    ensures Story(actions + [a], Apply(Final(actions), a).calls[c], c)
  {
    var s := Final(actions);
    if a.InjectAllocate? || a.DetachStart? {
      CallBegins(actions, a);
    } else if IsInject(a) {
      InjectGoesOn(s, a);
      StoryStays(actions, a, s.calls[c], c);
    } else {
      DetachGoesOn(s, a);
      DetachStoryGoesOn(actions, a);
    }
  }

  lemma TakenStoryGoesOn(actions: seq<Action>, w: ControlId, granted: bool, c: CallId)
    requires Enabled(Final(actions), WorkerTake(w, granted)) && AtHead(Final(actions), w, c)
    requires c in Final(actions).calls && Story(actions, Final(actions).calls[c], c)
    ensures c in TakeCommand(Final(actions), w, granted).calls
    ensures Story(actions + [WorkerTake(w, granted)], TakeCommand(Final(actions), w, granted).calls[c], c)
  {
    var s := Final(actions);
    TakeAnswers(s, w, granted, c);
    StoryStays(actions, WorkerTake(w, granted), s.calls[c], c);
    if s.calls[c].Waiting? && s.calls[c].id == w {
      AnswerGoesOn(actions, w, granted, c, s.calls[c]);
    }
  }

  /** The story of a call goes on with the step that touches it. */
  lemma StoryGoesOn(actions: seq<Action>, a: Action, c: CallId)
    requires Enabled(Final(actions), a) && Touched(Final(actions), a) == Some(c)
    requires c in Final(actions).calls ==> Story(actions, Final(actions).calls[c], c)
    requires c in Apply(Final(actions), a).calls
    ensures Story(actions + [a], Apply(Final(actions), a).calls[c], c)
  {
    if IsWorkerStep(a) {
      IsWorkers(Final(actions), a);
      TakeBeginsNone(Final(actions), a.id, a.granted, c);
      TakenStoryGoesOn(actions, a.id, a.granted, c);
    } else {
      CallStoryGoesOn(actions, a, c);
    }
  }

  lemma {:induction false} RunHasStories(actions: seq<Action>, s: State)
    requires Run(actions, s)
    ensures AllStories(actions, s)
  {
    RunIsFinal(actions, s);
    if actions != [] {
      var init, a := DropLast(actions), Last(actions);
      RunHasStories(init, Final(init));
      LastPutBack(actions);
      forall c | c in s.calls ensures Story(actions, s.calls[c], c) {
        if Touched(Final(init), a) == Some(c) {
          StoryGoesOn(init, a, c);
        } else {
          OthersStay(Final(init), a, c);
          StoryStays(init, a, s.calls[c], c);
        }
      }
    }
  }

  // What allows a removal.

  lemma StoryOfRemoval(actions: seq<Action>, call: Call, c: CallId) returns (begun: int, found: int, granted: int)
    requires Story(actions, call, c) && (call.WantsRemove? || call.Removing?)
    ensures Began(actions, begun, c, call.pid) && Found(actions, found, c, call.pid, call.id)
    ensures Answered(actions, granted, call.id, c, true)
  {
    begun :| Began(actions, begun, c, call.pid);
    found :| Found(actions, found, c, call.pid, call.id);
    granted :| Answered(actions, granted, call.id, c, true);
  }

  /** A detach about to remove an entry found the control it holds on to in the
      map, under its own pid, and that worker's target has granted its request. */
  lemma RemovalFollowsGrant(actions: seq<Action>, s: State, c: CallId) returns (begun: int, found: int, granted: int)
    requires Run(actions, s) && c in s.calls && (s.calls[c].WantsRemove? || s.calls[c].Removing?)
    ensures Began(actions, begun, c, s.calls[c].pid) && Found(actions, found, c, s.calls[c].pid, s.calls[c].id)
    ensures Answered(actions, granted, s.calls[c].id, c, true)
  {
    RunHasStories(actions, s);
    begun, found, granted := StoryOfRemoval(actions, s.calls[c], c);
  }

  // Requests wait in the queue of the worker they are meant for.

  predicate WaitsOn(s: State, w: ControlId, c: CallId) {
    c < s.nextCall && (c in s.calls ==> s.calls[c].Waiting? && s.calls[c].id == w && s.calls[c].response.None?)
  }

  /** A request in the queue is of a call that waits for its answer, unless it
      has given up, and it is there only once. */
  ghost predicate QueueOk(s: State, w: ControlId) {
    w in s.workers ==>
      var q := s.workers[w].queue;
      && (forall i | 0 <= i < |q| && q[i].RequestDetach? :: WaitsOn(s, w, q[i].call))
      && (forall i, j | 0 <= i < j < |q| && q[i].RequestDetach? && q[i] == q[j] :: q[i].call !in s.calls)
  }

  ghost predicate QueuesOk(s: State) {
    && (forall w :: QueueOk(s, w))
    && (forall c | c in s.calls :: c < s.nextCall)
  }

  /** The detach holds on to `w` and is about to ask it. */
  predicate AboutToAsk(s: State, c: CallId, w: ControlId) {
    c in s.calls && s.calls[c].Requesting? && s.calls[c].id == w
  }

  /** What a step does to the queue of a worker. */
  ghost predicate QueueMoves(s: State, a: Action, w: ControlId, q: seq<Command>) {
    if w !in s.workers then q == []
    else
      var before := s.workers[w].queue;
      if a.WorkerTake? && a.id == w then q == [] || (before != [] && q == before[1..])
      else
        || q == before || q == [] || q == before + [Stop]
        || (a.DetachSend? && q == before + [RequestDetach(a.call)] && AboutToAsk(s, a.call, w))
  }

  lemma CallMovesQueue(s: State, a: Action, w: ControlId)
    requires Enabled(s, a) && !IsWorkerStep(a) && w in Apply(s, a).workers
    ensures QueueMoves(s, a, w, Apply(s, a).workers[w].queue)
  {
  }

  lemma WorkersAfterTake(s: State, v: ControlId, granted: bool)
    requires Enabled(s, WorkerTake(v, granted))
    ensures TakeCommand(s, v, granted).workers ==
            if s.workers[v].queue[0].Stop? then Return(s.workers, v)
            else s.workers[v := s.workers[v].(queue := s.workers[v].queue[1..])]
  {
  }

  lemma TakeMovesQueue(s: State, v: ControlId, granted: bool, w: ControlId)
    requires Enabled(s, WorkerTake(v, granted)) && w in TakeCommand(s, v, granted).workers
    ensures w in s.workers
    ensures var q, before := TakeCommand(s, v, granted).workers[w].queue, s.workers[w].queue;
            if v == w then q == [] || q == before[1..] else q == before
  {
    WorkersAfterTake(s, v, granted);
  }

  lemma OtherWorkersStay(s: State, a: Action, w: ControlId)
    requires Enabled(s, a) && IsWorkerStep(a) && !a.WorkerTake? && w in ApplyWorker(s, a).workers && a.id != w
    ensures w in s.workers && ApplyWorker(s, a).workers[w] == s.workers[w]
  {
  }

  lemma OwnQueueAfter(s: State, a: Action)
    requires Enabled(s, a) && IsWorkerStep(a) && !a.WorkerTake?
    ensures a.id in s.workers && a.id in ApplyWorker(s, a).workers
    ensures ApplyWorker(s, a).workers[a.id].queue == s.workers[a.id].queue ||
            ApplyWorker(s, a).workers[a.id].queue == []
  {
  }

  lemma OwnStepMovesQueue(s: State, a: Action, w: ControlId)
    requires Enabled(s, a) && IsWorkerStep(a) && !a.WorkerTake? && w in ApplyWorker(s, a).workers
    ensures w in s.workers
    ensures ApplyWorker(s, a).workers[w].queue == s.workers[w].queue || ApplyWorker(s, a).workers[w].queue == []
  {
    if a.id == w {
      OwnQueueAfter(s, a);
    } else {
      OtherWorkersStay(s, a, w);
    }
  }

  lemma WorkerMovesQueue(s: State, a: Action, w: ControlId)
    requires Enabled(s, a) && IsWorkerStep(a) && w in Apply(s, a).workers
    ensures w in s.workers && QueueMoves(s, a, w, Apply(s, a).workers[w].queue)
  {
    IsWorkers(s, a);
    if a.WorkerTake? {
      TakeMovesQueue(s, a.id, a.granted, w);
    } else {
      OwnStepMovesQueue(s, a, w);
    }
  }

  lemma WorkerKeepsCalls(s: State, a: Action, c: CallId)
    requires Enabled(s, a) && IsWorkerStep(a)
    ensures c in Apply(s, a).calls <==> c in s.calls
  {
    if Touched(s, a) == Some(c) {
      IsWorkers(s, a);
      TakeBeginsNone(s, a.id, a.granted, c);
    } else {
      OthersStay(s, a, c);
    }
  }

  lemma CallsOkAfter(s: State, a: Action)
    requires Enabled(s, a) && forall c | c in s.calls :: c < s.nextCall
    ensures forall c | c in Apply(s, a).calls :: c < Apply(s, a).nextCall
  {
    if IsWorkerStep(a) {
      WorkersBeginNone(s, a);
      forall c | c in Apply(s, a).calls ensures c in s.calls {
        WorkerKeepsCalls(s, a, c);
      }
    } else {
      CallNumbers(s, a);
      forall c | c in Apply(s, a).calls ensures c in s.calls || c < Apply(s, a).nextCall {
        if Touched(s, a) != Some(c) {
          OthersStay(s, a, c);
        } else if IsInject(a) {
          InjectGoesOn(s, a);
        } else if IsDetach(a) {
          DetachGoesOn(s, a);
        }
      }
    }
  }

  lemma WaiterGivesUp(s: State, a: Action)
    requires Enabled(s, a) && IsDetach(a)
    requires s.calls[a.call].Waiting? && s.calls[a.call].response.None?
    ensures a.call !in Apply(s, a).calls
  {
  }

  lemma CallStillWaits(s: State, a: Action, w: ControlId, c: CallId)
    requires Enabled(s, a) && !IsWorkerStep(a) && WaitsOn(s, w, c)
    ensures c in Apply(s, a).calls ==> c in s.calls && Apply(s, a).calls[c] == s.calls[c]
  {
    if Touched(s, a) != Some(c) {
      OthersStay(s, a, c);
    } else if IsInject(a) {
      InjectGoesOn(s, a);
    } else if IsDetach(a) {
      WaiterGivesUp(s, a);
    }
  }

  /** A call that waits goes on waiting, or is gone, unless its request comes to be answered. */
  lemma StillWaits(s: State, a: Action, w: ControlId, c: CallId)
    requires QueuesOk(s) && Enabled(s, a) && WaitsOn(s, w, c)
    requires a.WorkerTake? && a.id == w ==> !AtHead(s, w, c)
    ensures WaitsOn(Apply(s, a), w, c)
  {
    if IsWorkerStep(a) {
      WorkersBeginNone(s, a);
      WorkerKeepsCalls(s, a, c);
      if Touched(s, a) != Some(c) {
        OthersStay(s, a, c);
      } else {
        assert QueueOk(s, a.id);
        assert WaitsOn(s, a.id, c);
      }
    } else {
      CallNumbers(s, a);
      CallStillWaits(s, a, w, c);
    }
  }

  lemma GoneStaysGone(s: State, a: Action, c: CallId)
    requires Enabled(s, a) && c < s.nextCall && c !in s.calls
    ensures c !in Apply(s, a).calls && c < Apply(s, a).nextCall
  {
    if IsWorkerStep(a) {
      WorkersBeginNone(s, a);
      WorkerKeepsCalls(s, a, c);
    } else {
      CallNumbers(s, a);
      if Touched(s, a) != Some(c) {
        OthersStay(s, a, c);
      } else if IsInject(a) {
        InjectGoesOn(s, a);
      } else if IsDetach(a) {
        DetachGoesOn(s, a);
      }
    }
  }

  predicate WaitsLike(call: Call, w: ControlId) {
    call.Waiting? && call.id == w && call.response.None?
  }

  lemma AskerWaits(s: State, a: Action, w: ControlId)
    requires Enabled(s, a) && a.DetachSend? && AboutToAsk(s, a.call, w)
    ensures a.call in Apply(s, a).calls ==> WaitsLike(Apply(s, a).calls[a.call], w)
  {
  }

  /** A request that was queued before the step still waits. */
  lemma QueuedStillWaits(s: State, a: Action, w: ControlId, i: nat)
    requires QueuesOk(s) && Enabled(s, a) && w in s.workers
    requires i < |s.workers[w].queue| && s.workers[w].queue[i].RequestDetach?
    requires a.WorkerTake? && a.id == w ==> i > 0
    ensures WaitsOn(Apply(s, a), w, s.workers[w].queue[i].call)
  {
    var c := s.workers[w].queue[i].call;
    assert QueueOk(s, w) && WaitsOn(s, w, c);
    if a.WorkerTake? && a.id == w && AtHead(s, w, c) {
      assert s.workers[w].queue[0] == s.workers[w].queue[i];
      GoneStaysGone(s, a, c);
    } else {
      StillWaits(s, a, w, c);
    }
  }

  lemma StepQueue(s: State, a: Action, w: ControlId)
    requires Enabled(s, a) && w in Apply(s, a).workers
    ensures QueueMoves(s, a, w, Apply(s, a).workers[w].queue)
  {
    if IsWorkerStep(a) {
      WorkerMovesQueue(s, a, w);
    } else {
      CallMovesQueue(s, a, w);
    }
  }

  lemma NewRequestWaits(s: State, a: Action, w: ControlId)
    requires QueuesOk(s) && Enabled(s, a) && a.DetachSend? && AboutToAsk(s, a.call, w)
    ensures WaitsOn(Apply(s, a), w, a.call)
  {
    AskerWaits(s, a, w);
    CallNumbers(s, a);
  }

  lemma QueueStaysOk(s: State, a: Action, w: ControlId)
    requires QueuesOk(s) && Enabled(s, a)
    ensures QueueOk(Apply(s, a), w)
  {
    var s' := Apply(s, a);
    if w in s'.workers && s'.workers[w].queue != [] {
      StepQueue(s, a, w);
      var q, before := s'.workers[w].queue, s.workers[w].queue;
      var shift := if a.WorkerTake? && a.id == w then 1 else 0;
      assert QueueOk(s, w);
      forall i | 0 <= i < |q| && q[i].RequestDetach? ensures WaitsOn(s', w, q[i].call) {
        if i + shift < |before| {
          assert q[i] == before[i + shift];
          QueuedStillWaits(s, a, w, i + shift);
        } else {
          NewRequestWaits(s, a, w);
        }
      }
      forall i, j | 0 <= i < j < |q| && q[i].RequestDetach? && q[i] == q[j] ensures q[i].call !in s'.calls {
        assert q[i] == before[i + shift];
        assert WaitsOn(s, w, q[i].call);
        assert j + shift < |before|;
        assert q[j] == before[j + shift];
        GoneStaysGone(s, a, q[i].call);
      }
    }
  }

  lemma {:induction false} RunKeepsQueues(actions: seq<Action>, s: State)
    requires Run(actions, s)
    ensures QueuesOk(s)
  {
    RunIsFinal(actions, s);
    if actions != [] {
      var before, a := Final(DropLast(actions)), Last(actions);
      RunKeepsQueues(DropLast(actions), before);
      CallsOkAfter(before, a);
      forall w ensures QueueOk(s, w) {
        QueueStaysOk(before, a, w);
      }
    }
  }

  // A request once sent is answered or lost with its worker.

  /** While the worker lives, the request of this detach is in its queue. */
  ghost predicate Queued(s: State, w: ControlId, c: CallId) {
    w in s.workers && (s.workers[w].Live() ==> RequestDetach(c) in s.workers[w].queue)
  }

  ghost predicate Owed(s: State, c: CallId) {
    c in s.calls && s.calls[c].Waiting? && s.calls[c].response.None? ==> Queued(s, s.calls[c].id, c)
  }

  lemma TakeKeepsQueued(s: State, v: ControlId, granted: bool, w: ControlId, c: CallId)
    requires Enabled(s, WorkerTake(v, granted)) && Queued(s, w, c) && !(v == w && AtHead(s, w, c))
    ensures Queued(TakeCommand(s, v, granted), w, c)
  {
    WorkersAfterTake(s, v, granted);
    var q := s.workers[v].queue;
    assert q == [q[0]] + q[1..];
  }

  lemma CallKeepsQueued(s: State, a: Action, w: ControlId, c: CallId)
    requires Enabled(s, a) && !IsWorkerStep(a) && Queued(s, w, c)
    requires a.InjectSpawn? ==> s.calls[a.call].id != w
    ensures Queued(Apply(s, a), w, c)
  {
  }

  lemma WorkerKeepsQueued(s: State, a: Action, w: ControlId, c: CallId)
    requires Enabled(s, a) && IsWorkerStep(a) && Queued(s, w, c)
    requires !(a.WorkerTake? && a.id == w && AtHead(s, w, c))
    ensures Queued(ApplyWorker(s, a), w, c)
  {
    if a.WorkerTake? {
      TakeKeepsQueued(s, a.id, a.granted, w, c);
    }
  }

  lemma StepKeepsQueued(s: State, a: Action, w: ControlId, c: CallId)
    requires Enabled(s, a) && Queued(s, w, c)
    requires a.InjectSpawn? ==> s.calls[a.call].id != w
    requires !(a.WorkerTake? && a.id == w && AtHead(s, w, c))
    ensures Queued(Apply(s, a), w, c)
  {
    if IsWorkerStep(a) {
      IsWorkers(s, a);
      WorkerKeepsQueued(s, a, w, c);
    } else {
      CallKeepsQueued(s, a, w, c);
    }
  }

  /** A detach that was no waiter before waits with its request in the queue. */
  lemma AskerIsOwed(s: State, a: Action, c: CallId)
    requires Enabled(s, a) && !IsWorkerStep(a) && Touched(s, a) == Some(c)
    ensures Owed(Apply(s, a), c)
  {
  }

  lemma TakerIsOwed(s: State, w: ControlId, granted: bool, c: CallId)
    requires Enabled(s, WorkerTake(w, granted)) && AtHead(s, w, c) && Owed(s, c)
    ensures Owed(TakeCommand(s, w, granted), c)
  {
    if c in s.calls && s.calls[c].Waiting? && s.calls[c].response.None? && s.calls[c].id != w {
      TakeKeepsQueued(s, w, granted, s.calls[c].id, c);
    }
  }

  lemma StepKeepsOwed(s: State, a: Action, c: CallId)
    requires Inv(s) && Enabled(s, a) && Owed(s, c)
    ensures Owed(Apply(s, a), c)
  {
    if Touched(s, a) != Some(c) {
      OthersStay(s, a, c);
      if c in s.calls && s.calls[c].Waiting? && s.calls[c].response.None? {
        assert a.InjectSpawn? ==> CallOk(s, a.call);
        StepKeepsQueued(s, a, s.calls[c].id, c);
      }
    } else if IsWorkerStep(a) {
      IsWorkers(s, a);
      TakerIsOwed(s, a.id, a.granted, c);
    } else {
      AskerIsOwed(s, a, c);
    }
  }

  /** A detach that waits unanswered has its request in the queue of its worker, as long as that lives. */
  lemma {:induction false} RequestsAreQueued(actions: seq<Action>, s: State, c: CallId)
    requires Run(actions, s)
    ensures Owed(s, c)
  {
    RunIsFinal(actions, s);
    if actions != [] {
      var before := Final(DropLast(actions));
      RequestsAreQueued(DropLast(actions), before, c);
      RunKeepsInv(DropLast(actions), before);
      StepKeepsOwed(before, Last(actions), c);
    }
  }

  // The answer decides.

  predicate ActsOn(call: Call, granted: bool) {
    (call.Waiting? && call.response == Some(granted)) || (granted && (call.WantsRemove? || call.Removing?))
  }

  /** The detach has its answer and acts on it, or is over. */
  predicate Stands(s: State, c: CallId, granted: bool) {
    c < s.nextCall && (c in s.calls ==> ActsOn(s.calls[c], granted))
  }

  lemma DetachActsOn(s: State, a: Action, granted: bool)
    requires Enabled(s, a) && IsDetach(a) && ActsOn(s.calls[a.call], granted)
    ensures a.call in Apply(s, a).calls ==> ActsOn(Apply(s, a).calls[a.call], granted)
    ensures a.DetachReceive? ==> (a.call in Apply(s, a).calls <==> granted)
  {
  }

  lemma WorkersLetStand(s: State, a: Action, c: CallId, granted: bool)
    requires Enabled(s, a) && IsWorkerStep(a) && Stands(s, c, granted)
    ensures Stands(Apply(s, a), c, granted)
  {
    WorkersBeginNone(s, a);
    WorkerKeepsCalls(s, a, c);
    if Touched(s, a) == Some(c) {
      if c in s.calls {
        IsWorkers(s, a);
        TakeAnswers(s, a.id, a.granted, c);
      }
    } else {
      OthersStay(s, a, c);
    }
  }

  lemma CallsLetStand(s: State, a: Action, c: CallId, granted: bool)
    requires Enabled(s, a) && !IsWorkerStep(a) && Stands(s, c, granted) && c in s.calls
    ensures Stands(Apply(s, a), c, granted)
  {
    CallNumbers(s, a);
    if Touched(s, a) != Some(c) {
      OthersStay(s, a, c);
    } else if IsInject(a) {
      InjectGoesOn(s, a);
    } else if IsDetach(a) {
      DetachActsOn(s, a, granted);
    }
  }

  lemma AnswerSticks(s: State, a: Action, c: CallId, granted: bool)
    requires Enabled(s, a) && Stands(s, c, granted)
    ensures Stands(Apply(s, a), c, granted)
  {
    if c !in s.calls {
      GoneStaysGone(s, a, c);
    } else if IsWorkerStep(a) {
      WorkersLetStand(s, a, c, granted);
    } else {
      CallsLetStand(s, a, c, granted);
    }
  }

  lemma {:induction false} PrefixRuns(actions: seq<Action>, s: State, k: nat)
    requires Run(actions, s) && k <= |actions|
    ensures Run(actions[..k], Final(actions[..k]))
    ensures k < |actions| ==> Enabled(Final(actions[..k]), actions[k]) &&
                              Final(actions[..k + 1]) == Apply(Final(actions[..k]), actions[k])
  {
    RunIsFinal(actions, s);
    if k == |actions| {
      assert actions[..k] == actions;
    } else {
      var init := DropLast(actions);
      PrefixRuns(init, Final(init), k);
      assert init[..k] == actions[..k];
      if k < |init| {
        assert init[..k + 1] == actions[..k + 1];
      } else {
        assert actions[..k] == init && actions[..k + 1] == actions;
      }
    }
  }

  /** What stands after some steps of a run stands at its end. */
  lemma {:induction false} StandsOn(actions: seq<Action>, s: State, k: nat, c: CallId, granted: bool)
    requires Run(actions, s) && k <= |actions| && Stands(Final(actions[..k]), c, granted)
    ensures Stands(s, c, granted)
    decreases |actions| - k
  {
    RunIsFinal(actions, s);
    if k == |actions| {
      assert actions[..k] == actions;
    } else {
      PrefixRuns(actions, s, k);
      AnswerSticks(Final(actions[..k]), actions[k], c, granted);
      StandsOn(actions, s, k + 1, c, granted);
    }
  }

  lemma AnsweredStands(s: State, w: ControlId, c: CallId, granted: bool)
    requires QueuesOk(s) && Enabled(s, WorkerTake(w, granted)) && AtHead(s, w, c)
    ensures Stands(Apply(s, WorkerTake(w, granted)), c, granted)
  {
    var a := WorkerTake(w, granted);
    assert QueueOk(s, w) && WaitsOn(s, w, c);
    WorkersBeginNone(s, a);
    WorkerKeepsCalls(s, a, c);
    if c in s.calls {
      IsWorkers(s, a);
      TakeAnswers(s, w, granted, c);
    }
  }

  lemma AnswerStands(actions: seq<Action>, s: State, i: int, w: ControlId, c: CallId, granted: bool)
    requires Run(actions, s) && Answered(actions, i, w, c, granted)
    ensures Stands(s, c, granted)
  {
    var before := Final(actions[..i]);
    PrefixRuns(actions, s, i);
    RunKeepsQueues(actions[..i], before);
    AnsweredStands(before, w, c, granted);
    StandsOn(actions, s, i + 1, c, granted);
  }

  /** The call ends without an answer. */
  ghost predicate Ends(s: State, a: Action, c: CallId) {
    || (a == DetachLookup(c) && c in s.calls && s.calls[c].pid !in s.controls)
    || (a == DetachSend(c) && forall w | AboutToAsk(s, c, w) && w in s.workers :: !s.workers[w].Live())
    || a == DetachGiveUp(c)
  }

  lemma FailingEnds(s: State, a: Action, c: CallId)
    requires QueuesOk(s) && Enabled(s, a) && Ends(s, a, c)
    ensures Stands(Apply(s, a), c, false)
  {
    if a == DetachSend(c) {
      assert AboutToAsk(s, c, s.calls[c].id);
    }
    CallNumbers(s, a);
  }

  /** In step `i` detach `c` finds no entry, cannot send, gives up waiting, or is refused by the target. */
  ghost predicate FailsAt(actions: seq<Action>, i: int, c: CallId) {
    && 0 <= i < |actions|
    && (Ends(Final(actions[..i]), actions[i], c) || exists w :: Answered(actions, i, w, c, false))
  }

  lemma FailureStands(actions: seq<Action>, s: State, i: int, c: CallId)
    requires Run(actions, s) && FailsAt(actions, i, c)
    ensures Stands(s, c, false)
  {
    if w :| Answered(actions, i, w, c, false) {
      AnswerStands(actions, s, i, w, c, false);
    } else {
      PrefixRuns(actions, s, i);
      RunKeepsQueues(actions[..i], Final(actions[..i]));
      FailingEnds(Final(actions[..i]), actions[i], c);
      StandsOn(actions, s, i + 1, c, false);
    }
  }

  lemma NoRemovalAfterFailure(s: State, c: CallId)
    requires Stands(s, c, false)
    ensures !Enabled(s, DetachRelock(c)) && !Enabled(s, DetachRemove(c))
  {
  }

  /** A detach that found nothing, could not send, gave up or was refused never
      comes to remove an entry. */
  lemma FailedDetachNeverRemoves(actions: seq<Action>, s: State, i: int, c: CallId)
    requires Run(actions, s) && FailsAt(actions, i, c)
    ensures !Enabled(s, DetachRelock(c)) && !Enabled(s, DetachRemove(c))
  {
    FailureStands(actions, s, i, c);
    NoRemovalAfterFailure(s, c);
  }

  lemma StoryOfAnswer(actions: seq<Action>, call: Call, c: CallId)
    requires Story(actions, call, c) && call.Waiting? && call.response.Some?
    ensures exists i :: Answered(actions, i, call.id, c, call.response.value)
  {
  }

  /** The answer a detach is about to receive is the one its target gave. */
  lemma ReceivedIsAnswered(actions: seq<Action>, s: State, c: CallId)
    requires Run(actions, s) && c in s.calls && s.calls[c].Waiting? && s.calls[c].response.Some?
    ensures s.calls[c].response == Some(true) <==> exists i, w :: Answered(actions, i, w, c, true)
  {
    RunHasStories(actions, s);
    StoryOfAnswer(actions, s.calls[c], c);
    if i, w :| Answered(actions, i, w, c, true) {
      AnswerStands(actions, s, i, w, c, true);
    }
  }

  lemma ReceivingGoesOn(s: State, c: CallId)
    requires Enabled(s, DetachReceive(c))
    ensures c in Apply(s, DetachReceive(c)).calls <==> s.calls[c].response == Some(true)
  {
  }

  /** A detach that receives its answer goes on to the removal if and only if the target granted it. */
  lemma DetachGoesOnExactlyWhen(actions: seq<Action>, s: State, c: CallId)
    requires Run(actions, s) && Enabled(s, DetachReceive(c))
    ensures c in Apply(s, DetachReceive(c)).calls <==> exists i, w :: Answered(actions, i, w, c, true)
  {
    ReceivedIsAnswered(actions, s, c);
    ReceivingGoesOn(s, c);
  }

  // Where entries come from.

  /** The step puts control `w` into the map under `pid`. */
  predicate Inserts(s: State, a: Action, pid: Pid, w: ControlId)
    requires Enabled(s, a)
  {
    a.InjectInsert? && s.calls[a.call].pid == pid && s.calls[a.call].id == w
  }

  ghost predicate HasEntry(s: State, pid: Pid, w: ControlId) {
    pid in s.controls && s.controls[pid] == w
  }

  lemma EntryAppearsExactlyWhen(s: State, a: Action, pid: Pid, w: ControlId)
    requires Inv(s) && Enabled(s, a)
    ensures HasEntry(Apply(s, a), pid, w) && !HasEntry(s, pid, w) <==> Inserts(s, a, pid, w)
  {
    assert EntryOk(s, pid);
    if a.InjectInsert? {
      assert CallOk(s, a.call);
    }
  }

  /** The removal that ends a detach takes the entry of its pid and no other. */
  lemma DetachRemovesItsPid(s: State, c: CallId)
    requires Enabled(s, DetachRemove(c))
    ensures Apply(s, DetachRemove(c)).controls == s.controls - {s.calls[c].pid}
  {
  }

  /** Injection `c` puts control `w`, made for `pid`, into the map in step `k`. */
  ghost predicate PutIn(actions: seq<Action>, i: int, k: int, c: CallId, pid: Pid, w: ControlId) {
    Allocated(actions, i, c, pid, w) && 0 <= k < |actions| && actions[k] == InjectInsert(c)
  }

  lemma PutInStays(actions: seq<Action>, a: Action, i: int, k: int, c: CallId, pid: Pid, w: ControlId)
    requires PutIn(actions, i, k, c, pid, w)
    ensures PutIn(actions + [a], i, k, c, pid, w)
  {
    StillHappened(actions, a, i);
    StillHappened(actions, a, k);
  }

  lemma JustPutIn(actions: seq<Action>, c: CallId, pid: Pid, w: ControlId) returns (i: int)
    requires Run(actions, Final(actions)) && Enabled(Final(actions), InjectInsert(c))
    requires Inserts(Final(actions), InjectInsert(c), pid, w)
    ensures PutIn(actions + [InjectInsert(c)], i, |actions|, c, pid, w)
  {
    RunHasStories(actions, Final(actions));
    assert Story(actions, Final(actions).calls[c], c);
    i :| Allocated(actions, i, c, pid, w);
    StillHappened(actions, InjectInsert(c), i);
    JustHappened(actions, InjectInsert(c));
  }

  /** Every entry was put in by an injection into its pid, under the id allocated for it. */
  lemma {:induction false} EntriesComeFromInjections(actions: seq<Action>, s: State, pid: Pid)
    returns (i: int, k: int, c: CallId)
    requires Run(actions, s) && pid in s.controls
    ensures PutIn(actions, i, k, c, pid, s.controls[pid])
  {
    RunIsFinal(actions, s);
    assert actions == [] ==> s == INIT;
    var init, a := DropLast(actions), Last(actions);
    var before := Final(init);
    RunKeepsInv(init, before);
    EntryAppearsExactlyWhen(before, a, pid, s.controls[pid]);
    LastPutBack(actions);
    if HasEntry(before, pid, s.controls[pid]) {
      i, k, c := EntriesComeFromInjections(init, before, pid);
      PutInStays(init, a, i, k, c, pid, s.controls[pid]);
    } else {
      c, k := a.call, |init|;
      i := JustPutIn(init, c, pid, s.controls[pid]);
    }
  }
}

/** The sessionizer of `console/mod.rs`: exchanges of one process become one
    session while each starts at most `SESSION_WINDOW_MS` after the one before. */
module Sessions {
  import opened Naturals
  import opened OrderedMap
  import opened Sequences
  import opened StableSort
  import opened StringOrder
  import opened Wrappers
  import Decimal

  const SESSION_WINDOW_MS: nat := 5 * 60 * 1000

  datatype Exchange = Exchange(
    requestId: string,
    exchangeId: Option<string>,
    pid: nat,
    targetDisplayName: string,
    provider: string,
    model: Option<string>,
    startedAtMs: nat,
    completedAtMs: nat,
    durationMs: nat,
    requestSummary: string,
    responseStatus: Option<nat>,
    toolCountFinal: nat,
    hasResponse: bool,
    hasToolVisibility: bool)

  /** A timeline item copies every field of its exchange, so it is one. */
  datatype Session = Session(
    sessionId: string,
    pid: nat,
    targetDisplayName: string,
    startedAtMs: nat,
    completedAtMs: nat,
    lastExchangeStartedAtMs: nat,
    exchangeCount: nat,
    timelineItems: seq<Exchange>)

  predicate ByStart(a: Exchange, b: Exchange) {
    a.startedAtMs < b.startedAtMs || (a.startedAtMs == b.startedAtMs && AtMost(a.requestId, b.requestId))
  }

  predicate ByCompletion(a: Session, b: Session) {
    a.completedAtMs > b.completedAtMs || (a.completedAtMs == b.completedAtMs && AtMost(a.sessionId, b.sessionId))
  }

  predicate PidOrder(a: nat, b: nat) {
    a <= b
  }

  lemma OrdersAreTotal()
    ensures TotalPreorder(ByStart) && TotalPreorder(ByCompletion) && TotalOrder(PidOrder)
  {
    AtMostIsTotalOrder();
  }

  function SessionId(pid: nat, startedAtMs: nat, ordinal: nat): string {
    Decimal.Render(pid) + "-" + Decimal.Render(startedAtMs) + "-" + Decimal.Render(ordinal)
  }

  function Open(pid: nat, ordinal: nat, e: Exchange): Session {
    Session(SessionId(pid, e.startedAtMs, ordinal), pid, e.targetDisplayName, e.startedAtMs, e.completedAtMs,
            e.startedAtMs, 0, [])
  }

  function Append(s: Session, e: Exchange): Session {
    s.(completedAtMs := Max(s.completedAtMs, e.completedAtMs), lastExchangeStartedAtMs := e.startedAtMs,
       exchangeCount := s.exchangeCount + 1, timelineItems := s.timelineItems + [e])
  }

  predicate StartsNew(ss: seq<Session>, e: Exchange) {
    ss == [] || SaturatingSub(e.startedAtMs, Last(ss).lastExchangeStartedAtMs) > SESSION_WINDOW_MS
  }

  /** The sessions of one process after one more exchange. */
  function AddExchange(ss: seq<Session>, pid: nat, e: Exchange): seq<Session> {
    if StartsNew(ss, e) then ss + [Append(Open(pid, |ss| + 1, e), e)]
    else DropLast(ss) + [Append(Last(ss), e)]
  }

  function SessionsOf(pid: nat, xs: seq<Exchange>): seq<Session> {
    if xs == [] then [] else AddExchange(SessionsOf(pid, DropLast(xs)), pid, Last(xs))
  }

  function HasPid(pid: nat): Exchange -> bool {
    (e: Exchange) => e.pid == pid
  }

  /** `entry(pid).or_default().push(exchange)`. */
  function PushByPid(groups: Entries<nat, seq<Exchange>>, e: Exchange): Entries<nat, seq<Exchange>> {
    var before := match Lookup(groups, e.pid) case None => [] case Some(xs) => xs;
    Upsert(PidOrder, groups, e.pid, before + [e])
  }

  function GroupByPid(exchanges: seq<Exchange>): Entries<nat, seq<Exchange>> {
    if exchanges == [] then [] else PushByPid(GroupByPid(DropLast(exchanges)), Last(exchanges))
  }

  function SessionsOfGroups(groups: Entries<nat, seq<Exchange>>): seq<Session> {
    if groups == [] then []
    else SessionsOfGroups(DropLast(groups)) + SessionsOf(Last(groups).0, Sort(ByStart, Last(groups).1))
  }

  function SessionDetails(exchanges: seq<Exchange>): seq<Session> {
    Sort(ByCompletion, SessionsOfGroups(GroupByPid(exchanges)))
  }

  /** `soFar` was pushed behind `before`, but for its last session. */
  ghost predicate SplitAt(soFar: seq<Session>, before: seq<Session>, sessions: seq<Session>,
                          current: Option<Session>, ordinal: nat)
  {
    && ordinal == |soFar|
    && (current.None? <==> soFar == [])
    && match current
       case None => sessions == before
       case Some(last) => sessions == before + DropLast(soFar) && last == Last(soFar)
  }

  lemma SplitAtEnd(soFar: seq<Session>, before: seq<Session>, sessions: seq<Session>, current: Option<Session>,
                   ordinal: nat)
    requires SplitAt(soFar, before, sessions, current, ordinal)
    ensures before + soFar == if current.Some? then sessions + [current.value] else sessions
  {
    if current.Some? {
      LastPutBack(soFar);
      assert before + (DropLast(soFar) + [Last(soFar)]) == (before + DropLast(soFar)) + [Last(soFar)];
    }
  }

  lemma SplitAtStep(soFar: seq<Session>, before: seq<Session>, sessions: seq<Session>, current: Option<Session>,
                    ordinal: nat, pid: nat, e: Exchange)
    requires SplitAt(soFar, before, sessions, current, ordinal)
    ensures current.None? ==> StartsNew(soFar, e)
    ensures current.Some? ==>
              (StartsNew(soFar, e) <==>
               SaturatingSub(e.startedAtMs, current.value.lastExchangeStartedAtMs) > SESSION_WINDOW_MS)
    ensures StartsNew(soFar, e) ==>
              SplitAt(AddExchange(soFar, pid, e), before,
                      if current.Some? then sessions + [current.value] else sessions,
                      Some(Append(Open(pid, ordinal + 1, e), e)), ordinal + 1)
    ensures !StartsNew(soFar, e) ==>
              SplitAt(AddExchange(soFar, pid, e), before, sessions, Some(Append(current.value, e)), ordinal)
  {
    var r := AddExchange(soFar, pid, e);
    if StartsNew(soFar, e) {
      assert DropLast(r) == soFar;
      if current.Some? {
        assert soFar == DropLast(soFar) + [current.value];
      } else {
        assert before + DropLast(r) == before;
      }
    } else {
      assert DropLast(r) == DropLast(soFar);
    }
  }

  /** The loop body over one process; `sorted` are its exchanges in start order. */
  method PushSessionsOf(pid: nat, sorted: seq<Exchange>, before: seq<Session>) returns (sessions: seq<Session>)
    ensures sessions == before + SessionsOf(pid, sorted)
  {
    sessions := before;
    var current: Option<Session> := None;
    var ordinal := 0;
    for i := 0 to |sorted|
      invariant SplitAt(SessionsOf(pid, sorted[..i]), before, sessions, current, ordinal)
    {
      var exchange := sorted[i];
      ghost var soFar := SessionsOf(pid, sorted[..i]);
      assert SessionsOf(pid, sorted[..i + 1]) == AddExchange(soFar, pid, exchange) by {
        assert DropLast(sorted[..i + 1]) == sorted[..i];
      }
      SplitAtStep(soFar, before, sessions, current, ordinal, pid, exchange);
      if current.None?
         || SaturatingSub(exchange.startedAtMs, current.value.lastExchangeStartedAtMs) > SESSION_WINDOW_MS {
        if current.Some? {
          sessions := sessions + [current.value];
        }
        ordinal := ordinal + 1;
        current := Some(Open(pid, ordinal, exchange));
      }
      current := Some(Append(current.value, exchange));
    }
    assert sorted[..|sorted|] == sorted;
    SplitAtEnd(SessionsOf(pid, sorted), before, sessions, current, ordinal);
    if current.Some? {
      sessions := sessions + [current.value];
    }
  }

  method BuildSessionDetails(exchanges: seq<Exchange>) returns (sessions: seq<Session>)
    ensures sessions == SessionDetails(exchanges)
  {
    sessions := [];
    var groups: Entries<nat, seq<Exchange>> := [];
    for i := 0 to |exchanges|
      invariant groups == GroupByPid(exchanges[..i])
    {
      groups := PushByPid(groups, exchanges[i]);
      assert DropLast(exchanges[..i + 1]) == exchanges[..i];
    }
    assert exchanges[..|exchanges|] == exchanges;

    for g := 0 to |groups|
      invariant sessions == SessionsOfGroups(groups[..g])
    {
      sessions := PushSessionsOf(groups[g].0, Sort(ByStart, groups[g].1), sessions);
      assert DropLast(groups[..g + 1]) == groups[..g];
    }
    assert groups[..|groups|] == groups;
    sessions := Sort(ByCompletion, sessions);
  }

  // What one process's exchanges become.

  function AllItems(ss: seq<Session>): seq<Exchange> {
    if ss == [] then [] else AllItems(DropLast(ss)) + Last(ss).timelineItems
  }

  predicate Near(a: Exchange, b: Exchange) {
    b.startedAtMs <= a.startedAtMs + SESSION_WINDOW_MS
  }

  /** The summary fields say what the timeline says. */
  ghost predicate Summarises(s: Session) {
    && s.timelineItems != []
    && s.exchangeCount == |s.timelineItems|
    && s.startedAtMs == s.timelineItems[0].startedAtMs
    && s.targetDisplayName == s.timelineItems[0].targetDisplayName
    && s.lastExchangeStartedAtMs == Last(s.timelineItems).startedAtMs
    && (forall e | e in s.timelineItems :: e.completedAtMs <= s.completedAtMs)
    && (exists e :: e in s.timelineItems && e.completedAtMs == s.completedAtMs)
  }

  lemma OpenSummarises(pid: nat, ordinal: nat, e: Exchange)
    ensures Summarises(Append(Open(pid, ordinal, e), e))
  {
    assert e in Append(Open(pid, ordinal, e), e).timelineItems;
  }

  lemma AppendSummarises(s: Session, e: Exchange)
    requires Summarises(s)
    ensures Summarises(Append(s, e))
  {
    var r := Append(s, e);
    assert r.timelineItems == s.timelineItems + [e];
    var top :| top in s.timelineItems && top.completedAtMs == s.completedAtMs;
    assert top in r.timelineItems && e in r.timelineItems;
  }

  /** The `k`-th session of a process, counted from one. */
  ghost predicate Numbered(pid: nat, s: Session, k: nat) {
    && s.pid == pid
    && s.sessionId == SessionId(pid, s.startedAtMs, k)
    && s.startedAtMs <= s.lastExchangeStartedAtMs
    && Summarises(s)
  }

  predicate Before(s: Session, t: Session) {
    s.lastExchangeStartedAtMs + SESSION_WINDOW_MS < t.startedAtMs
  }

  /** The sessions of one process: each sums up its timeline, and starts more
      than the window after the one before. */
  ghost predicate InOrder(pid: nat, ss: seq<Session>) {
    && (forall k | 0 <= k < |ss| :: Numbered(pid, ss[k], k + 1))
    && (forall j, k | 0 <= j < k < |ss| :: Before(ss[j], ss[k]))
  }

  lemma SnocInOrder(pid: nat, ss: seq<Session>, s: Session)
    requires InOrder(pid, ss) && Numbered(pid, s, |ss| + 1)
    requires forall j | 0 <= j < |ss| :: Before(ss[j], s)
    ensures InOrder(pid, ss + [s])
  {
  }

  lemma OpenInOrder(pid: nat, ss: seq<Session>, e: Exchange)
    requires InOrder(pid, ss) && StartsNew(ss, e)
    ensures InOrder(pid, ss + [Append(Open(pid, |ss| + 1, e), e)])
  {
    var s := Append(Open(pid, |ss| + 1, e), e);
    OpenSummarises(pid, |ss| + 1, e);
    forall j | 0 <= j < |ss| ensures Before(ss[j], s) {
      assert j == |ss| - 1 || Before(ss[j], ss[|ss| - 1]);
      assert Numbered(pid, ss[|ss| - 1], |ss|);
    }
    SnocInOrder(pid, ss, s);
  }

  lemma AppendInOrder(pid: nat, ss: seq<Session>, e: Exchange)
    requires InOrder(pid, ss) && ss != [] && Last(ss).lastExchangeStartedAtMs <= e.startedAtMs
    ensures InOrder(pid, DropLast(ss) + [Append(Last(ss), e)])
  {
    var s := Append(Last(ss), e);
    assert Numbered(pid, ss[|ss| - 1], |ss|);
    AppendSummarises(Last(ss), e);
    forall j | 0 <= j < |ss| - 1 ensures Before(ss[j], s) {
      assert Before(ss[j], ss[|ss| - 1]);
    }
    SnocInOrder(pid, DropLast(ss), s);
  }

  lemma AddExchangeInOrder(pid: nat, ss: seq<Session>, e: Exchange)
    requires InOrder(pid, ss)
    requires ss != [] ==> Last(ss).lastExchangeStartedAtMs <= e.startedAtMs
    ensures InOrder(pid, AddExchange(ss, pid, e))
    ensures Last(AddExchange(ss, pid, e)).lastExchangeStartedAtMs == e.startedAtMs
  {
    if StartsNew(ss, e) {
      OpenInOrder(pid, ss, e);
    } else {
      AppendInOrder(pid, ss, e);
    }
  }

  lemma {:induction false} SessionsOfInOrder(pid: nat, xs: seq<Exchange>)
    requires Sorted(ByStart, xs)
    ensures InOrder(pid, SessionsOf(pid, xs))
    ensures xs != [] ==> SessionsOf(pid, xs) != [] &&
                         Last(SessionsOf(pid, xs)).lastExchangeStartedAtMs == Last(xs).startedAtMs
  {
    if xs != [] {
      var init, e := DropLast(xs), Last(xs);
      SessionsOfInOrder(pid, init);
      assert init != [] ==> ByStart(Last(init), e);
      AddExchangeInOrder(pid, SessionsOf(pid, init), e);
    }
  }

  lemma AddExchangeAddsItem(ss: seq<Session>, pid: nat, e: Exchange)
    ensures AllItems(AddExchange(ss, pid, e)) == AllItems(ss) + [e]
  {
    var r := AddExchange(ss, pid, e);
    if StartsNew(ss, e) {
      assert DropLast(r) == ss && Last(r).timelineItems == [e];
    } else {
      assert DropLast(r) == DropLast(ss);
      var a, b := AllItems(DropLast(ss)), Last(ss).timelineItems;
      assert a + (b + [e]) == (a + b) + [e];
    }
  }

  /** The timelines, one after another, are the exchanges. */
  lemma {:induction false} SessionsOfKeepsAll(pid: nat, xs: seq<Exchange>)
    ensures AllItems(SessionsOf(pid, xs)) == xs
  {
    if xs != [] {
      SessionsOfKeepsAll(pid, DropLast(xs));
      AddExchangeAddsItem(SessionsOf(pid, DropLast(xs)), pid, Last(xs));
      LastPutBack(xs);
    }
  }

  /** Which session holds the `i`-th of all items. */
  function SessionAt(ss: seq<Session>, i: nat): (k: nat)
    requires i < |AllItems(ss)|
    ensures k < |ss|
  {
    if i >= |AllItems(DropLast(ss))| then |ss| - 1 else SessionAt(DropLast(ss), i)
  }

  lemma {:induction false} SessionAtHolds(ss: seq<Session>, i: nat)
    requires i < |AllItems(ss)|
    ensures AllItems(ss)[i] in ss[SessionAt(ss, i)].timelineItems
  {
    if i < |AllItems(DropLast(ss))| {
      SessionAtHolds(DropLast(ss), i);
    }
  }

  lemma {:induction false} HeldAtSessionAt(ss: seq<Session>, k: nat, e: Exchange) returns (i: nat)
    requires k < |ss| && e in ss[k].timelineItems
    ensures i < |AllItems(ss)| && AllItems(ss)[i] == e && SessionAt(ss, i) == k
  {
    if k == |ss| - 1 {
      var n :| 0 <= n < |ss[k].timelineItems| && ss[k].timelineItems[n] == e;
      i := |AllItems(DropLast(ss))| + n;
    } else {
      i := HeldAtSessionAt(DropLast(ss), k, e);
    }
  }

  /** No gap above the window from the `i`-th to the `j`-th exchange. */
  ghost predicate Unbroken(xs: seq<Exchange>, i: nat, j: nat)
    requires i <= j < |xs|
  {
    forall k | i < k <= j :: Near(xs[k - 1], xs[k])
  }

  /** Which session of the process holds its `i`-th exchange. */
  function Place(pid: nat, xs: seq<Exchange>, i: nat): (k: nat)
    requires i < |xs|
    ensures k < |SessionsOf(pid, xs)|
  {
    SessionsOfKeepsAll(pid, xs);
    SessionAt(SessionsOf(pid, xs), i)
  }

  lemma PlaceStays(pid: nat, xs: seq<Exchange>, i: nat)
    requires i < |xs| - 1
    ensures Place(pid, xs, i) == Place(pid, DropLast(xs), i)
  {
    var ss, e := SessionsOf(pid, DropLast(xs)), Last(xs);
    SessionsOfKeepsAll(pid, xs);
    SessionsOfKeepsAll(pid, DropLast(xs));
    assert DropLast(AddExchange(ss, pid, e)) == if StartsNew(ss, e) then ss else DropLast(ss);
  }

  lemma NewestIsInLast(pid: nat, xs: seq<Exchange>)
    requires xs != []
    ensures Place(pid, xs, |xs| - 1) == |SessionsOf(pid, xs)| - 1
  {
    var ss, e := SessionsOf(pid, DropLast(xs)), Last(xs);
    SessionsOfKeepsAll(pid, xs);
    SessionsOfKeepsAll(pid, DropLast(xs));
    assert DropLast(AddExchange(ss, pid, e)) == if StartsNew(ss, e) then ss else DropLast(ss);
  }

  lemma OneMoreSessionExactlyWhen(pid: nat, xs: seq<Exchange>)
    requires Sorted(ByStart, xs) && |xs| >= 2
    ensures |SessionsOf(pid, xs)| ==
            |SessionsOf(pid, DropLast(xs))| + if Near(xs[|xs| - 2], Last(xs)) then 0 else 1
  {
    SessionsOfInOrder(pid, DropLast(xs));
    assert ByStart(xs[|xs| - 2], xs[|xs| - 1]);
  }

  lemma UnbrokenAlone(xs: seq<Exchange>, i: nat)
    requires i < |xs|
    ensures Unbroken(xs, i, i)
  {
  }

  lemma UnbrokenInit(xs: seq<Exchange>, i: nat, j: nat)
    requires i <= j < |xs| - 1
    ensures Unbroken(xs, i, j) <==> Unbroken(DropLast(xs), i, j)
  {
  }

  lemma OlderPlaceExactlyWhen(pid: nat, xs: seq<Exchange>, i: nat, j: nat)
    requires i <= j < |xs| - 1
    ensures Place(pid, xs, i) == Place(pid, xs, j) <==> Place(pid, DropLast(xs), i) == Place(pid, DropLast(xs), j)
    ensures Unbroken(xs, i, j) <==> Unbroken(DropLast(xs), i, j)
  {
    PlaceStays(pid, xs, i);
    PlaceStays(pid, xs, j);
    UnbrokenInit(xs, i, j);
  }

  lemma NewestPlaceExactlyWhen(pid: nat, xs: seq<Exchange>, i: nat)
    requires Sorted(ByStart, xs) && i < |xs| - 1
    ensures Place(pid, xs, i) == Place(pid, xs, |xs| - 1) <==>
            Place(pid, DropLast(xs), i) == Place(pid, DropLast(xs), |xs| - 2) && Near(xs[|xs| - 2], Last(xs))
  {
    PlaceStays(pid, xs, i);
    NewestIsInLast(pid, xs);
    NewestIsInLast(pid, DropLast(xs));
    OneMoreSessionExactlyWhen(pid, xs);
  }

  lemma UnbrokenSnoc(xs: seq<Exchange>, i: nat)
    requires i < |xs| - 1
    ensures Unbroken(xs, i, |xs| - 1) <==> Unbroken(DropLast(xs), i, |xs| - 2) && Near(xs[|xs| - 2], Last(xs))
  {
  }

  /** Exchanges of one process share a session exactly when no gap between them exceeds the window. */
  lemma {:induction false} SamePlaceExactlyWhen(pid: nat, xs: seq<Exchange>, i: nat, j: nat)
    requires Sorted(ByStart, xs) && i <= j < |xs|
    ensures Place(pid, xs, i) == Place(pid, xs, j) <==> Unbroken(xs, i, j)
    decreases |xs|
  {
    if i == j {
      UnbrokenAlone(xs, i);
    } else if j < |xs| - 1 {
      SamePlaceExactlyWhen(pid, DropLast(xs), i, j);
      OlderPlaceExactlyWhen(pid, xs, i, j);
    } else {
      SamePlaceExactlyWhen(pid, DropLast(xs), i, |xs| - 2);
      NewestPlaceExactlyWhen(pid, xs, i);
      UnbrokenSnoc(xs, i);
    }
  }

  // Grouping by process.

  function Exchanges(groups: Entries<nat, seq<Exchange>>, pid: nat): seq<Exchange> {
    match Lookup(groups, pid) case None => [] case Some(xs) => xs
  }

  lemma {:induction false} GroupByPidIsFilter(xs: seq<Exchange>, pid: nat)
    ensures Ascending(PidOrder, GroupByPid(xs))
    ensures Exchanges(GroupByPid(xs), pid) == Filter(HasPid(pid), xs)
    ensures Lookup(GroupByPid(xs), pid).None? <==> Filter(HasPid(pid), xs) == []
  {
    if xs != [] {
      var groups, e := GroupByPid(DropLast(xs)), Last(xs);
      GroupByPidIsFilter(DropLast(xs), pid);
      UpsertAscending(PidOrder, groups, e.pid, Exchanges(groups, e.pid) + [e]);
      UpsertLookup(PidOrder, groups, e.pid, Exchanges(groups, e.pid) + [e], pid);
    }
  }

  /** The exchanges of one process in the order the sessionizer reads them. */
  function InStartOrder(exchanges: seq<Exchange>, pid: nat): seq<Exchange> {
    Sort(ByStart, Filter(HasPid(pid), exchanges))
  }

  lemma InStartOrderMembers(exchanges: seq<Exchange>, pid: nat)
    ensures Sorted(ByStart, InStartOrder(exchanges, pid))
    ensures forall e :: e in InStartOrder(exchanges, pid) <==> e in exchanges && e.pid == pid
  {
    OrdersAreTotal();
    SortKeeps(ByStart, Filter(HasPid(pid), exchanges));
    FilterMembers(HasPid(pid), exchanges);
  }

  lemma SessionsOfPid(pid: nat, xs: seq<Exchange>, s: Session)
    ensures s in SessionsOf(pid, Sort(ByStart, xs)) ==> s.pid == pid
  {
    OrdersAreTotal();
    SortKeeps(ByStart, xs);
    var ss := SessionsOf(pid, Sort(ByStart, xs));
    SessionsOfInOrder(pid, Sort(ByStart, xs));
    if s in ss {
      var k :| 0 <= k < |ss| && ss[k] == s;
      assert Numbered(pid, ss[k], k + 1);
    }
  }

  lemma {:induction false} GroupsMembers(groups: Entries<nat, seq<Exchange>>, s: Session)
    requires Ascending(PidOrder, groups)
    ensures s in SessionsOfGroups(groups) <==> s in SessionsOf(s.pid, Sort(ByStart, Exchanges(groups, s.pid)))
  {
    if groups != [] {
      var init := DropLast(groups);
      GroupsMembers(init, s);
      SessionsOfPid(Last(groups).0, Last(groups).1, s);
      if Last(groups).0 == s.pid {
        TopOnlyOnce(PidOrder, groups);
      }
    }
  }

  /** A session is in the output exactly when it is one of its own process's sessions. */
  lemma DetailsAreSessionsOf(exchanges: seq<Exchange>, s: Session)
    ensures s in SessionDetails(exchanges) <==> s in SessionsOf(s.pid, InStartOrder(exchanges, s.pid))
  {
    var groups := GroupByPid(exchanges);
    OrdersAreTotal();
    SortKeeps(ByCompletion, SessionsOfGroups(groups));
    GroupByPidIsFilter(exchanges, s.pid);
    GroupsMembers(groups, s);
  }

  // Sessions are the gap components of each process's exchanges.

  ghost predicate Together(exchanges: seq<Exchange>, a: Exchange, b: Exchange) {
    exists s :: s in SessionDetails(exchanges) && a in s.timelineItems && b in s.timelineItems
  }

  ghost predicate HasFollower(exchanges: seq<Exchange>, c: Exchange) {
    exists d :: d in exchanges && d.pid == c.pid && c.startedAtMs < d.startedAtMs && Near(c, d)
  }

  /** From `a` on to `b`, every exchange of the process is followed within the window by a later one. */
  ghost predicate Chained(exchanges: seq<Exchange>, a: Exchange, b: Exchange) {
    forall c | c in exchanges && c.pid == a.pid && a.startedAtMs <= c.startedAtMs < b.startedAtMs ::
      HasFollower(exchanges, c)
  }

  lemma {:induction false} FirstAfter(xs: seq<Exchange>, i: nat, j: nat, at: nat) returns (d: Exchange)
    requires i <= j < |xs|
    requires Unbroken(xs, i, j)
    requires xs[i].startedAtMs <= at < xs[j].startedAtMs
    ensures d in xs && at < d.startedAtMs <= at + SESSION_WINDOW_MS
    decreases j
  {
    if at < xs[j - 1].startedAtMs {
      d := FirstAfter(xs, i, j - 1, at);
    } else {
      assert Near(xs[j - 1], xs[j]);
      d := xs[j];
    }
  }

  lemma UnbrokenIsChained(exchanges: seq<Exchange>, xs: seq<Exchange>, i: nat, j: nat)
    requires i <= j < |xs| && Sorted(ByStart, xs)
    requires forall e :: e in xs <==> e in exchanges && e.pid == xs[i].pid
    requires Unbroken(xs, i, j)
    ensures Chained(exchanges, xs[i], xs[j])
  {
    var a, b := xs[i], xs[j];
    forall c | c in exchanges && c.pid == a.pid && a.startedAtMs <= c.startedAtMs < b.startedAtMs
      ensures HasFollower(exchanges, c)
    {
      assert c in xs;
      var d := FirstAfter(xs, i, j, c.startedAtMs);
      assert d in xs;
    }
  }

  lemma TogetherAreChained(exchanges: seq<Exchange>, s: Session, a: Exchange, b: Exchange)
    requires s in SessionDetails(exchanges) && a in s.timelineItems && b in s.timelineItems
    requires a.startedAtMs <= b.startedAtMs
    ensures a in exchanges && b in exchanges && a.pid == b.pid && Chained(exchanges, a, b)
  {
    var xs := InStartOrder(exchanges, s.pid);
    InStartOrderMembers(exchanges, s.pid);
    DetailsAreSessionsOf(exchanges, s);
    var ss := SessionsOf(s.pid, xs);
    SessionsOfKeepsAll(s.pid, xs);
    var k :| 0 <= k < |ss| && ss[k] == s;
    var i := HeldAtSessionAt(ss, k, a);
    var j := HeldAtSessionAt(ss, k, b);
    assert a in xs && b in xs;
    if a.startedAtMs < b.startedAtMs {
      assert i > j ==> ByStart(xs[j], xs[i]);
      assert Place(s.pid, xs, i) == Place(s.pid, xs, j);
      SamePlaceExactlyWhen(s.pid, xs, i, j);
      UnbrokenIsChained(exchanges, xs, i, j);
    }
  }

  lemma FollowedIsNear(exchanges: seq<Exchange>, xs: seq<Exchange>, k: nat)
    requires 0 < k < |xs| && Sorted(ByStart, xs)
    requires forall e | e in exchanges && e.pid == xs[k - 1].pid :: e in xs
    requires HasFollower(exchanges, xs[k - 1])
    ensures Near(xs[k - 1], xs[k])
  {
    var c := xs[k - 1];
    var d :| d in exchanges && d.pid == c.pid && c.startedAtMs < d.startedAtMs && Near(c, d);
    var n :| 0 <= n < |xs| && xs[n] == d;
    assert n < k - 1 ==> ByStart(xs[n], c);
    assert k < n ==> ByStart(xs[k], xs[n]);
  }

  lemma ChainedIsUnbroken(exchanges: seq<Exchange>, xs: seq<Exchange>, i: nat, j: nat)
    requires i <= j < |xs| && Sorted(ByStart, xs)
    requires forall e :: e in xs <==> e in exchanges && e.pid == xs[i].pid
    requires Chained(exchanges, xs[i], xs[j])
    ensures Unbroken(xs, i, j)
  {
    forall k | i < k <= j ensures Near(xs[k - 1], xs[k]) {
      var c := xs[k - 1];
      assert c in xs;
      assert i < k - 1 ==> ByStart(xs[i], c);
      assert k < j ==> ByStart(xs[k], xs[j]);
      if c.startedAtMs < xs[k].startedAtMs {
        assert HasFollower(exchanges, c);
        FollowedIsNear(exchanges, xs, k);
      }
    }
  }

  lemma ShareASession(exchanges: seq<Exchange>, pid: nat, i: nat, j: nat)
    requires i <= j < |InStartOrder(exchanges, pid)|
    requires Unbroken(InStartOrder(exchanges, pid), i, j)
    ensures Together(exchanges, InStartOrder(exchanges, pid)[i], InStartOrder(exchanges, pid)[j])
    ensures Together(exchanges, InStartOrder(exchanges, pid)[j], InStartOrder(exchanges, pid)[i])
  {
    var xs := InStartOrder(exchanges, pid);
    InStartOrderMembers(exchanges, pid);
    SamePlaceExactlyWhen(pid, xs, i, j);
    var ss := SessionsOf(pid, xs);
    SessionsOfKeepsAll(pid, xs);
    SessionAtHolds(ss, i);
    SessionAtHolds(ss, j);
    var s := ss[Place(pid, xs, i)];
    SessionsOfPid(pid, Filter(HasPid(pid), exchanges), s);
    DetailsAreSessionsOf(exchanges, s);
  }

  lemma ChainedAreTogether(exchanges: seq<Exchange>, a: Exchange, b: Exchange)
    requires a.startedAtMs <= b.startedAtMs
    requires a in exchanges && b in exchanges && a.pid == b.pid && Chained(exchanges, a, b)
    ensures Together(exchanges, a, b)
  {
    var xs := InStartOrder(exchanges, a.pid);
    InStartOrderMembers(exchanges, a.pid);
    var i :| 0 <= i < |xs| && xs[i] == a;
    var j :| 0 <= j < |xs| && xs[j] == b;
    if i <= j {
      ChainedIsUnbroken(exchanges, xs, i, j);
      ShareASession(exchanges, a.pid, i, j);
    } else {
      assert ByStart(b, a);
      ChainedIsUnbroken(exchanges, xs, j, i);
      ShareASession(exchanges, a.pid, j, i);
    }
  }

  /** Two exchanges share a session exactly when they share a process and no gap parts them. */
  lemma TogetherExactlyWhen(exchanges: seq<Exchange>, a: Exchange, b: Exchange)
    requires a.startedAtMs <= b.startedAtMs
    ensures Together(exchanges, a, b) <==>
            a in exchanges && b in exchanges && a.pid == b.pid && Chained(exchanges, a, b)
  {
    if Together(exchanges, a, b) {
      var s :| s in SessionDetails(exchanges) && a in s.timelineItems && b in s.timelineItems;
      TogetherAreChained(exchanges, s, a, b);
    }
    if a in exchanges && b in exchanges && a.pid == b.pid && Chained(exchanges, a, b) {
      ChainedAreTogether(exchanges, a, b);
    }
  }

  // Conservation.

  lemma {:induction false} InsertAddsItems(s: Session, ss: seq<Session>)
    ensures multiset(AllItems(Insert(ByCompletion, s, ss))) == multiset(AllItems(ss)) + multiset(s.timelineItems)
  {
    if ss != [] {
      if ByCompletion(Last(ss), s) {
        assert DropLast(ss + [s]) == ss;
      } else {
        InsertAddsItems(s, DropLast(ss));
        assert DropLast(Insert(ByCompletion, s, ss)) == Insert(ByCompletion, s, DropLast(ss));
      }
    }
  }

  lemma {:induction false} SortKeepsItems(ss: seq<Session>)
    ensures multiset(AllItems(Sort(ByCompletion, ss))) == multiset(AllItems(ss))
  {
    if ss != [] {
      SortKeepsItems(DropLast(ss));
      InsertAddsItems(Last(ss), Sort(ByCompletion, DropLast(ss)));
    }
  }

  function Grouped(groups: Entries<nat, seq<Exchange>>): multiset<Exchange> {
    if groups == [] then multiset{} else Grouped(DropLast(groups)) + multiset(Last(groups).1)
  }

  lemma {:induction false} AllItemsAppend(a: seq<Session>, b: seq<Session>)
    ensures AllItems(a + b) == AllItems(a) + AllItems(b)
  {
    if b == [] {
      assert a + b == a;
    } else {
      AllItemsAppend(a, DropLast(b));
      assert DropLast(a + b) == a + DropLast(b);
      var x, y, z := AllItems(a), AllItems(DropLast(b)), Last(b).timelineItems;
      assert (x + y) + z == x + (y + z);
    }
  }

  lemma {:induction false} SessionsOfGroupsKeepsItems(groups: Entries<nat, seq<Exchange>>)
    ensures multiset(AllItems(SessionsOfGroups(groups))) == Grouped(groups)
  {
    if groups != [] {
      var pid, xs := Last(groups).0, Last(groups).1;
      SessionsOfGroupsKeepsItems(DropLast(groups));
      AllItemsAppend(SessionsOfGroups(DropLast(groups)), SessionsOf(pid, Sort(ByStart, xs)));
      SessionsOfKeepsAll(pid, Sort(ByStart, xs));
      OrdersAreTotal();
      SortKeeps(ByStart, xs);
    }
  }

  lemma {:induction false} UpsertGrouped(groups: Entries<nat, seq<Exchange>>, pid: nat, xs: seq<Exchange>, e: Exchange)
    requires Ascending(PidOrder, groups) && xs == Exchanges(groups, pid)
    ensures Grouped(Upsert(PidOrder, groups, pid, xs + [e])) == Grouped(groups) + multiset{e}
  {
    if groups != [] {
      var r := Upsert(PidOrder, groups, pid, xs + [e]);
      if Last(groups).0 == pid {
        assert DropLast(r) == DropLast(groups);
      } else if PidOrder(Last(groups).0, pid) {
        assert DropLast(r) == groups;
        LookupMember(groups, pid);
        forall i | 0 <= i < |groups| ensures groups[i].0 != pid {
          assert i == |groups| - 1 || Below(PidOrder, groups[i].0, Last(groups).0);
        }
      } else {
        UpsertGrouped(DropLast(groups), pid, xs, e);
        assert DropLast(r) == Upsert(PidOrder, DropLast(groups), pid, xs + [e]);
      }
    }
  }

  lemma {:induction false} GroupsHoldTheExchanges(exchanges: seq<Exchange>)
    ensures Grouped(GroupByPid(exchanges)) == multiset(exchanges)
  {
    if exchanges != [] {
      var groups, e := GroupByPid(DropLast(exchanges)), Last(exchanges);
      GroupsHoldTheExchanges(DropLast(exchanges));
      GroupByPidIsFilter(DropLast(exchanges), e.pid);
      UpsertGrouped(groups, e.pid, Exchanges(groups, e.pid), e);
      LastPutBack(exchanges);
    }
  }

  /** Every exchange is in exactly one timeline, exactly as often as it was given. */
  lemma TimelinesHoldTheExchanges(exchanges: seq<Exchange>)
    ensures multiset(AllItems(SessionDetails(exchanges))) == multiset(exchanges)
  {
    SortKeepsItems(SessionsOfGroups(GroupByPid(exchanges)));
    GroupsHoldTheExchanges(exchanges);
    SessionsOfGroupsKeepsItems(GroupByPid(exchanges));
  }

  // The output list.

  /** No two sessions share a name, and those of one process are further apart than the window. */
  predicate Apart(s: Session, t: Session) {
    && s.sessionId != t.sessionId
    && (s.pid == t.pid ==> Before(s, t) || Before(t, s))
  }

  ghost predicate AllApart(ss: seq<Session>) {
    forall i, j | 0 <= i < j < |ss| :: Apart(ss[i], ss[j])
  }

  ghost predicate ApartFrom(s: Session, ss: seq<Session>) {
    forall t | t in ss :: Apart(t, s)
  }

  lemma {:induction false} TimelineIsPart(ss: seq<Session>, k: nat)
    requires k < |ss| && Sorted(ByStart, AllItems(ss))
    ensures Sorted(ByStart, ss[k].timelineItems)
    ensures forall e | e in ss[k].timelineItems :: e in AllItems(ss)
  {
    var init, l := AllItems(DropLast(ss)), Last(ss).timelineItems;
    if k < |ss| - 1 {
      assert forall i, j | 0 <= i < j < |init| :: AllItems(ss)[i] == init[i] && AllItems(ss)[j] == init[j];
      TimelineIsPart(DropLast(ss), k);
    } else {
      assert forall i | 0 <= i < |l| :: AllItems(ss)[|init| + i] == l[i];
    }
  }

  lemma {:induction false} InsertKeepsApart(s: Session, ss: seq<Session>)
    requires AllApart(ss) && ApartFrom(s, ss)
    ensures AllApart(Insert(ByCompletion, s, ss))
  {
    if ss != [] && !ByCompletion(Last(ss), s) {
      InsertKeepsApart(s, DropLast(ss));
      InsertAdds(ByCompletion, s, DropLast(ss));
      var r, l := Insert(ByCompletion, s, DropLast(ss)), Last(ss);
      assert l in ss;
      forall i | 0 <= i < |r| ensures Apart(r[i], l) {
        assert r[i] in r;
        if r[i] != s {
          var j :| 0 <= j < |ss| - 1 && ss[j] == r[i];
          assert Apart(ss[j], ss[|ss| - 1]);
        }
      }
    }
  }

  lemma {:induction false} SortKeepsApart(ss: seq<Session>)
    requires AllApart(ss)
    ensures AllApart(Sort(ByCompletion, ss))
  {
    if ss != [] {
      var init, l := DropLast(ss), Last(ss);
      SortKeepsApart(init);
      OrdersAreTotal();
      SortKeeps(ByCompletion, init);
      forall t | t in Sort(ByCompletion, init) ensures Apart(t, l) {
        var j :| 0 <= j < |init| && init[j] == t;
        assert Apart(ss[j], ss[|ss| - 1]);
      }
      InsertKeepsApart(l, Sort(ByCompletion, init));
    }
  }

  ghost function NumberIn(ss: seq<Session>, s: Session): (k: nat)
    requires s in ss
    ensures 0 < k <= |ss| && ss[k - 1] == s
  {
    var i :| 0 <= i < |ss| && ss[i] == s;
    i + 1
  }

  ghost predicate NumberedIn(s: Session, groups: Entries<nat, seq<Exchange>>, k: nat) {
    Numbered(s.pid, s, k) && exists i :: 0 <= i < |groups| && groups[i].0 == s.pid
  }

  ghost predicate NumberedBelow(s: Session, groups: Entries<nat, seq<Exchange>>) {
    exists k: nat :: NumberedIn(s, groups, k)
  }

  lemma AppendApart(a: seq<Session>, b: seq<Session>)
    requires AllApart(a) && AllApart(b)
    requires forall s, t | s in a && t in b :: Apart(s, t)
    ensures AllApart(a + b)
  {
  }

  lemma SessionIdInjective(p: nat, a: nat, j: nat, q: nat, b: nat, k: nat)
    requires SessionId(p, a, j) == SessionId(q, b, k)
    ensures p == q && a == b && j == k
  {
    var left, right := Decimal.Render(p) + "-" + Decimal.Render(a), Decimal.Render(q) + "-" + Decimal.Render(b);
    Decimal.SplitAtLast(left, Decimal.Render(j), right, Decimal.Render(k), '-');
    Decimal.SplitAtLast(Decimal.Render(p), Decimal.Render(a), Decimal.Render(q), Decimal.Render(b), '-');
    Decimal.RenderInjective(p, q);
    Decimal.RenderInjective(a, b);
    Decimal.RenderInjective(j, k);
  }

  lemma NamesDiffer(s: Session, j: nat, t: Session, k: nat)
    requires Numbered(s.pid, s, j) && Numbered(t.pid, t, k)
    requires s.pid != t.pid || j != k
    ensures s.sessionId != t.sessionId
  {
    if s.sessionId == t.sessionId {
      SessionIdInjective(s.pid, s.startedAtMs, j, t.pid, t.startedAtMs, k);
    }
  }

  lemma AnotherGroup(groups: Entries<nat, seq<Exchange>>, a: seq<Session>, b: seq<Session>)
    requires groups != [] && Ascending(PidOrder, groups)
    requires AllApart(a) && forall s | s in a :: NumberedBelow(s, DropLast(groups))
    requires AllApart(b) && InOrder(Last(groups).0, b)
    ensures AllApart(a + b)
    ensures forall s | s in a + b :: NumberedBelow(s, groups)
  {
    var init, pid := DropLast(groups), Last(groups).0;
    forall s | s in a ensures NumberedBelow(s, groups) && s.pid != pid {
      var k: nat :| NumberedIn(s, init, k);
      assert NumberedIn(s, groups, k);
      var i :| 0 <= i < |init| && init[i].0 == s.pid;
      assert Below(PidOrder, groups[i].0, groups[|groups| - 1].0);
    }
    forall s | s in b ensures NumberedIn(s, [Last(groups)], NumberIn(b, s)) && NumberedBelow(s, groups) {
      assert Numbered(pid, b[NumberIn(b, s) - 1], NumberIn(b, s));
      assert [Last(groups)][0].0 == s.pid;
      assert groups[|groups| - 1].0 == s.pid;
      assert NumberedIn(s, groups, NumberIn(b, s));
    }
    forall s, t | s in a && t in b ensures Apart(s, t) {
      assert NumberedBelow(s, init);
      var k: nat :| NumberedIn(s, init, k);
      NamesDiffer(s, k, t, NumberIn(b, t));
    }
    AppendApart(a, b);
  }

  lemma InOrderIsApart(pid: nat, ss: seq<Session>)
    requires InOrder(pid, ss)
    ensures AllApart(ss)
  {
    forall i, j | 0 <= i < j < |ss| ensures Apart(ss[i], ss[j]) {
      assert Numbered(pid, ss[i], i + 1) && Numbered(pid, ss[j], j + 1) && Before(ss[i], ss[j]);
      NamesDiffer(ss[i], i + 1, ss[j], j + 1);
    }
  }

  lemma {:induction false} GroupsAreApart(groups: Entries<nat, seq<Exchange>>)
    requires Ascending(PidOrder, groups)
    ensures AllApart(SessionsOfGroups(groups))
    ensures forall s | s in SessionsOfGroups(groups) :: NumberedBelow(s, groups)
  {
    if groups != [] {
      var init, pid, xs := DropLast(groups), Last(groups).0, Sort(ByStart, Last(groups).1);
      GroupsAreApart(init);
      OrdersAreTotal();
      SortKeeps(ByStart, Last(groups).1);
      SessionsOfInOrder(pid, xs);
      InOrderIsApart(pid, SessionsOf(pid, xs));
      AnotherGroup(groups, SessionsOfGroups(init), SessionsOf(pid, xs));
    }
  }

  lemma ListedNewestFirst(exchanges: seq<Exchange>)
    ensures var ss := SessionDetails(exchanges);
            forall i, j | 0 <= i < j < |ss| ::
              && ss[i].completedAtMs >= ss[j].completedAtMs
              && (ss[i].completedAtMs == ss[j].completedAtMs ==> AtMost(ss[i].sessionId, ss[j].sessionId))
  {
    var ss := SessionDetails(exchanges);
    OrdersAreTotal();
    SortKeeps(ByCompletion, SessionsOfGroups(GroupByPid(exchanges)));
    forall i, j | 0 <= i < j < |ss|
      ensures ss[i].completedAtMs >= ss[j].completedAtMs
      ensures ss[i].completedAtMs == ss[j].completedAtMs ==> AtMost(ss[i].sessionId, ss[j].sessionId)
    {
      assert ByCompletion(ss[i], ss[j]);
    }
  }

  /** Newest completion first; every session sums up its timeline, no two share
      a name or lie within the window of each other. */
  lemma SessionDetailsAreWellFormed(exchanges: seq<Exchange>)
    ensures var ss := SessionDetails(exchanges);
            forall i, j | 0 <= i < j < |ss| ::
              && ss[i].completedAtMs >= ss[j].completedAtMs
              && (ss[i].completedAtMs == ss[j].completedAtMs ==> AtMost(ss[i].sessionId, ss[j].sessionId))
    ensures AllApart(SessionDetails(exchanges))
    ensures forall s | s in SessionDetails(exchanges) :: Summarises(s) && Sorted(ByStart, s.timelineItems)
    ensures forall s, e | s in SessionDetails(exchanges) && e in s.timelineItems :: e.pid == s.pid
  {
    var groups := GroupByPid(exchanges);
    OrdersAreTotal();
    SortKeeps(ByCompletion, SessionsOfGroups(groups));
    GroupByPidIsFilter(exchanges, 0);
    GroupsAreApart(groups);
    SortKeepsApart(SessionsOfGroups(groups));
    ListedNewestFirst(exchanges);
    forall s | s in SessionDetails(exchanges)
      ensures Summarises(s) && Sorted(ByStart, s.timelineItems) && forall e | e in s.timelineItems :: e.pid == s.pid
    {
      DetailsAreSessionsOf(exchanges, s);
      InStartOrderMembers(exchanges, s.pid);
      var ss := SessionsOf(s.pid, InStartOrder(exchanges, s.pid));
      SessionsOfInOrder(s.pid, InStartOrder(exchanges, s.pid));
      var k :| 0 <= k < |ss| && ss[k] == s;
      assert Numbered(s.pid, ss[k], k + 1);
      SessionsOfKeepsAll(s.pid, InStartOrder(exchanges, s.pid));
      TimelineIsPart(ss, k);
    }
  }

  // The input order does not matter.

  ghost predicate UniqueRequestIds(exchanges: seq<Exchange>) {
    forall a, b | a in exchanges && b in exchanges && a.requestId == b.requestId :: a == b
  }

  function SortEach(groups: Entries<nat, seq<Exchange>>): Entries<nat, seq<Exchange>> {
    if groups == [] then []
    else SortEach(DropLast(groups)) + [(Last(groups).0, Sort(ByStart, Last(groups).1))]
  }

  lemma {:induction false} SortEachKeeps(groups: Entries<nat, seq<Exchange>>, pid: nat)
    requires Ascending(PidOrder, groups)
    ensures |SortEach(groups)| == |groups| && forall i | 0 <= i < |groups| :: SortEach(groups)[i].0 == groups[i].0
    ensures Ascending(PidOrder, SortEach(groups))
    ensures Lookup(SortEach(groups), pid) ==
            match Lookup(groups, pid) case None => None case Some(xs) => Some(Sort(ByStart, xs))
  {
    if groups != [] {
      SortEachKeeps(DropLast(groups), pid);
    }
  }

  lemma {:induction false} SessionsOfSortEach(groups: Entries<nat, seq<Exchange>>)
    ensures SessionsOfGroups(SortEach(groups)) == SessionsOfGroups(groups)
  {
    if groups != [] {
      SessionsOfSortEach(DropLast(groups));
      OrdersAreTotal();
      SortKeeps(ByStart, Last(groups).1);
      SortOfSorted(ByStart, Sort(ByStart, Last(groups).1));
      assert DropLast(SortEach(groups)) == SortEach(DropLast(groups));
    }
  }

  lemma InStartOrderIgnoresOrder(xs: seq<Exchange>, ys: seq<Exchange>, pid: nat)
    requires multiset(xs) == multiset(ys) && UniqueRequestIds(xs)
    ensures InStartOrder(xs, pid) == InStartOrder(ys, pid)
    ensures Filter(HasPid(pid), xs) == [] <==> Filter(HasPid(pid), ys) == []
  {
    var a, b := Filter(HasPid(pid), xs), Filter(HasPid(pid), ys);
    forall e ensures multiset(a)[e] == multiset(b)[e] {
      FilterMultiset(HasPid(pid), xs, e);
      FilterMultiset(HasPid(pid), ys, e);
    }
    assert multiset(a) == multiset(b);
    OrdersAreTotal();
    FilterMembers(HasPid(pid), xs);
    StringOrder.AtMostIsTotalOrder();
    SortIgnoresOrder(ByStart, a, b);
    assert |multiset(a)| == |a| && |multiset(b)| == |b|;
  }

  lemma SameGroup(xs: seq<Exchange>, ys: seq<Exchange>, pid: nat)
    requires multiset(xs) == multiset(ys) && UniqueRequestIds(xs)
    ensures Lookup(SortEach(GroupByPid(xs)), pid) == Lookup(SortEach(GroupByPid(ys)), pid)
    ensures Ascending(PidOrder, SortEach(GroupByPid(xs))) && Ascending(PidOrder, SortEach(GroupByPid(ys)))
  {
    GroupByPidIsFilter(xs, pid);
    GroupByPidIsFilter(ys, pid);
    SortEachKeeps(GroupByPid(xs), pid);
    SortEachKeeps(GroupByPid(ys), pid);
    InStartOrderIgnoresOrder(xs, ys, pid);
  }

  /** The sessions depend only on which exchanges there are. */
  lemma SessionDetailsIgnoreOrder(xs: seq<Exchange>, ys: seq<Exchange>)
    requires multiset(xs) == multiset(ys) && UniqueRequestIds(xs)
    ensures SessionDetails(xs) == SessionDetails(ys)
  {
    var g, h := SortEach(GroupByPid(xs)), SortEach(GroupByPid(ys));
    OrdersAreTotal();
    SameGroup(xs, ys, 0);
    forall pid ensures Lookup(g, pid) == Lookup(h, pid) {
      SameGroup(xs, ys, pid);
    }
    SameEntries(PidOrder, g, h);
    SessionsOfSortEach(GroupByPid(xs));
    SessionsOfSortEach(GroupByPid(ys));
  }
}

/** Joining request, response and tool visibility artifacts into exchanges:
    latest-wins indexes in `console/mod.rs` stand in for a nested scan. */
module ArtifactJoin {
  import opened Sequences
  import opened Sessions
  import opened StableSort
  import opened StringOrder
  import opened Wrappers

  /** What reading one artifact file gives. */
  datatype Artifact<+T> = Unreadable | NotARecord | Record(record: T)

  datatype Request = Request(
    requestId: string,
    exchangeId: Option<string>,
    pid: Option<nat>,
    capturedAtMs: nat,
    provider: string,
    model: Option<string>,
    targetDisplayName: string,
    requestSummary: string)

  datatype Response = Response(
    exchangeId: string,
    statusCode: nat,
    startedAtMs: nat,
    completedAtMs: nat,
    durationMs: nat,
    artifactPath: string)

  datatype Visibility = Visibility(
    requestId: string,
    exchangeId: Option<string>,
    capturedAtMs: nat,
    toolCountFinal: nat,
    artifactPath: string)

  datatype VisibilityIndex = VisibilityIndex(
    byRequestId: map<string, Visibility>,
    byExchangeId: map<string, Visibility>)

  datatype LoadError = UnreadableArtifact

  function RecordsIn<T>(): Artifact<T> -> seq<T> {
    (file: Artifact<T>) => match file case Record(r) => [r] case _ => []
  }

  function Records<T>(files: seq<Artifact<T>>): seq<T> {
    FlatMap(RecordsIn(), files)
  }

  function Get<T>(index: map<string, T>, id: string): Option<T> {
    if id in index then Some(index[id]) else None
  }

  // The nested scan.

  /** The record of greatest `at` among those with the key; the last read wins ties. */
  function Latest<T>(hasKey: T -> bool, at: T -> nat, records: seq<T>): Option<T> {
    if records == [] then None
    else
      var before, r := Latest(hasKey, at, DropLast(records)), Last(records);
      if hasKey(r) && (before.None? || at(r) >= at(before.value)) then Some(r) else before
  }

  ghost predicate IsLatest<T>(hasKey: T -> bool, at: T -> nat, records: seq<T>, i: nat)
    requires i < |records|
  {
    && hasKey(records[i])
    && (forall j | 0 <= j < |records| && hasKey(records[j]) :: at(records[j]) <= at(records[i]))
    && (forall j | i < j < |records| && hasKey(records[j]) :: at(records[j]) < at(records[i]))
  }

  lemma {:induction false} LatestIsGreatest<T>(hasKey: T -> bool, at: T -> nat, records: seq<T>)
    ensures Latest(hasKey, at, records).None? <==> forall r | r in records :: !hasKey(r)
    ensures Latest(hasKey, at, records).Some? ==>
              exists i :: 0 <= i < |records| && IsLatest(hasKey, at, records, i) &&
                          records[i] == Latest(hasKey, at, records).value
  {
    if records != [] {
      var init, r := DropLast(records), Last(records);
      LatestIsGreatest(hasKey, at, init);
      LastPutBack(records);
      assert r in records && forall q | q in init :: q in records;
      var before := Latest(hasKey, at, init);
      if before.Some? {
        var i :| 0 <= i < |init| && IsLatest(hasKey, at, init, i) && init[i] == before.value;
        assert init[i] in records;
        if hasKey(r) && at(r) >= at(before.value) {
          assert IsLatest(hasKey, at, records, |records| - 1);
        } else {
          assert records[i] == init[i] && IsLatest(hasKey, at, records, i);
        }
      } else if hasKey(r) {
        assert forall j | 0 <= j < |init| :: records[j] == init[j] && init[j] in init;
        assert IsLatest(hasKey, at, records, |records| - 1);
      }
    }
  }

  function ForExchange(id: string): Response -> bool {
    (r: Response) => r.exchangeId == id
  }

  function CompletedAt(): Response -> nat {
    (r: Response) => r.completedAtMs
  }

  function SeenForRequest(id: string): Visibility -> bool {
    (v: Visibility) => v.requestId == id
  }

  function SeenForExchange(id: string): Visibility -> bool {
    (v: Visibility) => v.exchangeId == Some(id)
  }

  function SeenAt(): Visibility -> nat {
    (v: Visibility) => v.capturedAtMs
  }

  function ResponseFor(exchangeId: Option<string>, responses: seq<Response>): Option<Response> {
    match exchangeId case None => None case Some(id) => Latest(ForExchange(id), CompletedAt(), responses)
  }

  /** A match by request id is preferred to one by exchange id. */
  function VisibilityFor(requestId: string, exchangeId: Option<string>, seen: seq<Visibility>): Option<Visibility> {
    var byRequest := Latest(SeenForRequest(requestId), SeenAt(), seen);
    if byRequest.Some? then byRequest
    else match exchangeId case None => None case Some(id) => Latest(SeenForExchange(id), SeenAt(), seen)
  }

  function ExchangeOf(r: Request, pid: nat, response: Option<Response>, visibility: Option<Visibility>): Exchange {
    Exchange(r.requestId, r.exchangeId, pid, r.targetDisplayName, r.provider, r.model, r.capturedAtMs,
             if response.Some? then response.value.completedAtMs else r.capturedAtMs,
             if response.Some? then response.value.durationMs else 0,
             r.requestSummary,
             if response.Some? then Some(response.value.statusCode) else None,
             if visibility.Some? then visibility.value.toolCountFinal else 0,
             response.Some?, visibility.Some?)
  }

  function Joined(r: Request, responses: seq<Response>, seen: seq<Visibility>): seq<Exchange> {
    match r.pid
    case None => []
    case Some(pid) =>
      [ExchangeOf(r, pid, ResponseFor(r.exchangeId, responses), VisibilityFor(r.requestId, r.exchangeId, seen))]
  }

  function JoinWith(responses: seq<Response>, seen: seq<Visibility>): Request -> seq<Exchange> {
    (r: Request) => Joined(r, responses, seen)
  }

  /** Every request with a process, joined by scanning all responses and all visibility records. */
  function NestedScan(requests: seq<Request>, responses: seq<Response>, seen: seq<Visibility>): seq<Exchange> {
    FlatMap(JoinWith(responses, seen), requests)
  }

  /** A request file that cannot be read is skipped; a response or visibility file that cannot be read is an error. */
  function ExchangeRecords(requests: seq<Artifact<Request>>, responses: seq<Artifact<Response>>,
                           seen: seq<Artifact<Visibility>>): Result<seq<Exchange>, LoadError>
  {
    if Unreadable in responses || Unreadable in seen then Err(UnreadableArtifact)
    else Ok(Sort(ByStart, NestedScan(Records(requests), Records(responses), Records(seen))))
  }

  // The indexes.

  ghost predicate IndexesResponses(index: map<string, Response>, responses: seq<Response>) {
    forall id :: Get(index, id) == Latest(ForExchange(id), CompletedAt(), responses)
  }

  ghost predicate IndexesRequests(index: map<string, Visibility>, seen: seq<Visibility>) {
    forall id :: Get(index, id) == Latest(SeenForRequest(id), SeenAt(), seen)
  }

  ghost predicate IndexesExchanges(index: map<string, Visibility>, seen: seq<Visibility>) {
    forall id :: Get(index, id) == Latest(SeenForExchange(id), SeenAt(), seen)
  }

  lemma RecordsUpTo<T>(files: seq<Artifact<T>>, i: nat)
    requires i < |files|
    ensures files[..i + 1] == files[..i] + [files[i]]
    ensures Records(files[..i + 1]) ==
            match files[i] case Record(r) => Records(files[..i]) + [r] case _ => Records(files[..i])
  {
    assert DropLast(files[..i + 1]) == files[..i];
    assert Records(files[..i]) + [] == Records(files[..i]);
  }

  lemma LatestSnoc<T>(hasKey: T -> bool, at: T -> nat, records: seq<T>, r: T)
    ensures Latest(hasKey, at, records + [r]) ==
            var before := Latest(hasKey, at, records);
            if hasKey(r) && (before.None? || at(r) >= at(before.value)) then Some(r) else before
  {
    assert DropLast(records + [r]) == records;
  }

  lemma ResponseIndexed(index: map<string, Response>, responses: seq<Response>, r: Response)
    requires IndexesResponses(index, responses)
    ensures IndexesResponses(
              if r.exchangeId !in index || r.completedAtMs >= index[r.exchangeId].completedAtMs
              then index[r.exchangeId := r] else index,
              responses + [r])
  {
    var next := if r.exchangeId !in index || r.completedAtMs >= index[r.exchangeId].completedAtMs
    then index[r.exchangeId := r] else index;
    forall id ensures Get(next, id) == Latest(ForExchange(id), CompletedAt(), responses + [r]) {
      assert Get(index, id) == Latest(ForExchange(id), CompletedAt(), responses);
      LatestSnoc(ForExchange(id), CompletedAt(), responses, r);
    }
  }

  method BuildResponseIndex(files: seq<Artifact<Response>>) returns (r: Result<map<string, Response>, LoadError>)
    ensures r.Err? <==> Unreadable in files
    ensures r.Ok? ==> IndexesResponses(r.value, Records(files))
  {
    var index: map<string, Response> := map[];
    var completedAtIndex: map<string, nat> := map[];
    for i := 0 to |files|
      invariant Unreadable !in files[..i]
      invariant IndexesResponses(index, Records(files[..i]))
      invariant completedAtIndex == map id | id in index :: index[id].completedAtMs
    {
      RecordsUpTo(files, i);
      match files[i] {
        case Unreadable => return Err(UnreadableArtifact);
        case NotARecord =>
        case Record(record) =>
          var id := record.exchangeId;
          var shouldReplace := if id in completedAtIndex then record.completedAtMs >= completedAtIndex[id] else true;
          ResponseIndexed(index, Records(files[..i]), record);
          if shouldReplace {
            completedAtIndex := completedAtIndex[id := record.completedAtMs];
            index := index[id := record];
          }
      }
    }
    assert files[..|files|] == files;
    r := Ok(index);
  }

  lemma RequestIndexed(index: map<string, Visibility>, seen: seq<Visibility>, v: Visibility)
    requires IndexesRequests(index, seen)
    ensures IndexesRequests(
              if v.requestId !in index || v.capturedAtMs >= index[v.requestId].capturedAtMs
              then index[v.requestId := v] else index,
              seen + [v])
  {
    var next := if v.requestId !in index || v.capturedAtMs >= index[v.requestId].capturedAtMs
    then index[v.requestId := v] else index;
    forall id ensures Get(next, id) == Latest(SeenForRequest(id), SeenAt(), seen + [v]) {
      assert Get(index, id) == Latest(SeenForRequest(id), SeenAt(), seen);
      LatestSnoc(SeenForRequest(id), SeenAt(), seen, v);
    }
  }

  lemma ExchangeIndexed(index: map<string, Visibility>, seen: seq<Visibility>, v: Visibility)
    requires IndexesExchanges(index, seen)
    ensures IndexesExchanges(
              if v.exchangeId.Some? && (v.exchangeId.value !in index
                                        || v.capturedAtMs >= index[v.exchangeId.value].capturedAtMs)
              then index[v.exchangeId.value := v] else index,
              seen + [v])
  {
    var next := if v.exchangeId.Some? && (v.exchangeId.value !in index
                                          || v.capturedAtMs >= index[v.exchangeId.value].capturedAtMs)
    then index[v.exchangeId.value := v] else index;
    forall id ensures Get(next, id) == Latest(SeenForExchange(id), SeenAt(), seen + [v]) {
      assert Get(index, id) == Latest(SeenForExchange(id), SeenAt(), seen);
      LatestSnoc(SeenForExchange(id), SeenAt(), seen, v);
    }
  }

  method BuildVisibilityIndex(files: seq<Artifact<Visibility>>) returns (r: Result<VisibilityIndex, LoadError>)
    ensures r.Err? <==> Unreadable in files
    ensures r.Ok? ==> IndexesRequests(r.value.byRequestId, Records(files))
    ensures r.Ok? ==> IndexesExchanges(r.value.byExchangeId, Records(files))
  {
    var byRequestId: map<string, Visibility> := map[];
    var byExchangeId: map<string, Visibility> := map[];
    for i := 0 to |files|
      invariant Unreadable !in files[..i]
      invariant IndexesRequests(byRequestId, Records(files[..i]))
      invariant IndexesExchanges(byExchangeId, Records(files[..i]))
    {
      RecordsUpTo(files, i);
      match files[i] {
        case Unreadable => return Err(UnreadableArtifact);
        case NotARecord =>
        case Record(record) =>
          RequestIndexed(byRequestId, Records(files[..i]), record);
          ExchangeIndexed(byExchangeId, Records(files[..i]), record);
          if record.requestId !in byRequestId || record.capturedAtMs >= byRequestId[record.requestId].capturedAtMs {
            byRequestId := byRequestId[record.requestId := record];
          }
          if record.exchangeId.Some? {
            var id := record.exchangeId.value;
            if id !in byExchangeId || record.capturedAtMs >= byExchangeId[id].capturedAtMs {
              byExchangeId := byExchangeId[id := record];
            }
          }
      }
    }
    assert files[..|files|] == files;
    r := Ok(VisibilityIndex(byRequestId, byExchangeId));
  }

  /** `by_request_id.get(..).or_else(|| by_exchange_id.get(..))`. */
  function SelectVisibility(index: VisibilityIndex, requestId: string, exchangeId: Option<string>): Option<Visibility> {
    var byRequest := Get(index.byRequestId, requestId);
    if byRequest.Some? then byRequest
    else match exchangeId case None => None case Some(id) => Get(index.byExchangeId, id)
  }

  lemma SelectIsScan(index: VisibilityIndex, seen: seq<Visibility>, requestId: string, exchangeId: Option<string>)
    requires IndexesRequests(index.byRequestId, seen) && IndexesExchanges(index.byExchangeId, seen)
    ensures SelectVisibility(index, requestId, exchangeId) == VisibilityFor(requestId, exchangeId, seen)
  {
    assert Get(index.byRequestId, requestId) == Latest(SeenForRequest(requestId), SeenAt(), seen);
    if exchangeId.Some? {
      assert Get(index.byExchangeId, exchangeId.value) == Latest(SeenForExchange(exchangeId.value), SeenAt(), seen);
    }
  }

  method LoadRequestRecords(files: seq<Artifact<Request>>) returns (records: seq<Request>)
    ensures records == Records(files)
  {
    records := [];
    for i := 0 to |files|
      invariant records == Records(files[..i])
    {
      RecordsUpTo(files, i);
      match files[i] {
        case Record(record) => records := records + [record];
        case _ =>
      }
    }
    assert files[..|files|] == files;
  }

  /** The `filter_map` over the request records. */
  method Join(records: seq<Request>, responseIndex: map<string, Response>, visibilityIndex: VisibilityIndex,
              ghost responses: seq<Response>, ghost seen: seq<Visibility>)
    returns (exchanges: seq<Exchange>)
    requires IndexesResponses(responseIndex, responses)
    requires IndexesRequests(visibilityIndex.byRequestId, seen) && IndexesExchanges(visibilityIndex.byExchangeId, seen)
    ensures exchanges == NestedScan(records, responses, seen)
  {
    exchanges := [];
    for i := 0 to |records|
      invariant exchanges == NestedScan(records[..i], responses, seen)
    {
      var record := records[i];
      assert DropLast(records[..i + 1]) == records[..i];
      if record.pid.Some? {
        var response := match record.exchangeId case None => None case Some(id) => Get(responseIndex, id);
        assert record.exchangeId.Some? ==>
            Get(responseIndex, record.exchangeId.value) ==
            Latest(ForExchange(record.exchangeId.value), CompletedAt(), responses);
        var visibility := SelectVisibility(visibilityIndex, record.requestId, record.exchangeId);
        SelectIsScan(visibilityIndex, seen, record.requestId, record.exchangeId);
        exchanges := exchanges + [ExchangeOf(record, record.pid.value, response, visibility)];
      }
    }
    assert records[..|records|] == records;
  }

  // What the join means.

  function HasProcess(): Request -> bool {
    (r: Request) => r.pid.Some?
  }

  lemma {:induction false} ScanLength(requests: seq<Request>, responses: seq<Response>, seen: seq<Visibility>)
    ensures |NestedScan(requests, responses, seen)| == |Filter(HasProcess(), requests)|
  {
    if requests != [] {
      ScanLength(DropLast(requests), responses, seen);
    }
  }

  /** One exchange for each request with a process, in the order read. */
  lemma {:induction false} OneExchangePerRequest(requests: seq<Request>, responses: seq<Response>,
                                                 seen: seq<Visibility>, i: nat)
    requires i < |Filter(HasProcess(), requests)|
    ensures |NestedScan(requests, responses, seen)| == |Filter(HasProcess(), requests)|
    ensures [NestedScan(requests, responses, seen)[i]] == Joined(Filter(HasProcess(), requests)[i], responses, seen)
  {
    var init := DropLast(requests);
    if i < |Filter(HasProcess(), init)| {
      OneExchangePerRequest(init, responses, seen, i);
    } else {
      ScanLength(init, responses, seen);
    }
  }

  /** The exchange shows response `i`, and every later read response to it completed earlier. */
  ghost predicate Carries(e: Exchange, responses: seq<Response>, i: nat)
    requires i < |responses|
  {
    && e.exchangeId == Some(responses[i].exchangeId)
    && e.responseStatus == Some(responses[i].statusCode)
    && e.durationMs == responses[i].durationMs
    && e.completedAtMs == responses[i].completedAtMs
    && forall j | i < j < |responses| && responses[j].exchangeId == responses[i].exchangeId ::
         responses[j].completedAtMs < responses[i].completedAtMs
  }

  /** The response an exchange carries completed last among all with its exchange id. */
  lemma JoinedResponseIsLatest(r: Request, responses: seq<Response>, seen: seq<Visibility>)
    requires r.pid.Some?
    ensures var e := Joined(r, responses, seen)[0];
            && (e.hasResponse <==> exists i :: 0 <= i < |responses| && r.exchangeId == Some(responses[i].exchangeId))
            && (forall i | 0 <= i < |responses| && r.exchangeId == Some(responses[i].exchangeId) ::
                  responses[i].completedAtMs <= e.completedAtMs)
            && (e.hasResponse ==> exists i :: 0 <= i < |responses| && Carries(e, responses, i))
            && (!e.hasResponse ==> e.completedAtMs == r.capturedAtMs && e.durationMs == 0 && e.responseStatus.None?)
  {
    if r.exchangeId.Some? {
      var id := r.exchangeId.value;
      LatestIsGreatest(ForExchange(id), CompletedAt(), responses);
      var found := Latest(ForExchange(id), CompletedAt(), responses);
      if found.Some? {
        var i :| 0 <= i < |responses| && IsLatest(ForExchange(id), CompletedAt(), responses, i)
                 && responses[i] == found.value;
        assert ForExchange(id)(responses[i]) && CompletedAt()(responses[i]) == found.value.completedAtMs;
        assert forall j | 0 <= j < |responses| && responses[j].exchangeId == id ::
            ForExchange(id)(responses[j]) && CompletedAt()(responses[j]) <= CompletedAt()(responses[i]);
        assert Carries(Joined(r, responses, seen)[0], responses, i);
      } else {
        assert forall i | 0 <= i < |responses| :: !ForExchange(id)(responses[i]);
      }
    }
  }

  predicate Concerns(r: Request, v: Visibility) {
    v.requestId == r.requestId || (r.exchangeId.Some? && v.exchangeId == r.exchangeId)
  }

  /** Some record names the request; or, failing that, its exchange. */
  ghost predicate IsSeen(r: Request, seen: seq<Visibility>) {
    exists v :: v in seen && Concerns(r, v)
  }

  /** The exchange shows record `i`: the latest, last read, of those with the
      request's id, or if there is none of those with its exchange id. */
  ghost predicate Shows(r: Request, e: Exchange, seen: seq<Visibility>, i: nat)
    requires i < |seen|
  {
    && e.toolCountFinal == seen[i].toolCountFinal
    && (IsLatest(SeenForRequest(r.requestId), SeenAt(), seen, i)
        || (r.exchangeId.Some? && IsLatest(SeenForExchange(r.exchangeId.value), SeenAt(), seen, i)
            && forall v | v in seen :: v.requestId != r.requestId))
  }

  lemma ShownByExchange(r: Request, e: Exchange, seen: seq<Visibility>)
    requires r.exchangeId.Some? && forall v | v in seen :: v.requestId != r.requestId
    requires var found := Latest(SeenForExchange(r.exchangeId.value), SeenAt(), seen);
             e.hasToolVisibility == found.Some? && (found.Some? ==> e.toolCountFinal == found.value.toolCountFinal)
    ensures e.hasToolVisibility <==> IsSeen(r, seen)
    ensures e.hasToolVisibility ==> exists i :: 0 <= i < |seen| && Shows(r, e, seen, i)
  {
    var id := r.exchangeId.value;
    var found := Latest(SeenForExchange(id), SeenAt(), seen);
    LatestIsGreatest(SeenForExchange(id), SeenAt(), seen);
    if found.Some? {
      var i :| 0 <= i < |seen| && IsLatest(SeenForExchange(id), SeenAt(), seen, i) && seen[i] == found.value;
      assert Shows(r, e, seen, i) && seen[i] in seen && Concerns(r, seen[i]);
    } else {
      assert forall v | v in seen :: !SeenForExchange(id)(v);
    }
  }

  /** The tool visibility an exchange carries, and the request it stands for. */
  lemma JoinedVisibilityIsLatest(r: Request, responses: seq<Response>, seen: seq<Visibility>)
    requires r.pid.Some?
    ensures var e := Joined(r, responses, seen)[0];
            && (e.hasToolVisibility <==> IsSeen(r, seen))
            && (e.hasToolVisibility ==> exists i :: 0 <= i < |seen| && Shows(r, e, seen, i))
            && (!e.hasToolVisibility ==> e.toolCountFinal == 0)
            && e.requestId == r.requestId && e.exchangeId == r.exchangeId && Some(e.pid) == r.pid
            && e.startedAtMs == r.capturedAtMs && e.provider == r.provider && e.model == r.model
            && e.targetDisplayName == r.targetDisplayName && e.requestSummary == r.requestSummary
  {
    var e := Joined(r, responses, seen)[0];
    var byRequest := Latest(SeenForRequest(r.requestId), SeenAt(), seen);
    LatestIsGreatest(SeenForRequest(r.requestId), SeenAt(), seen);
    if byRequest.Some? {
      var i :| 0 <= i < |seen| && IsLatest(SeenForRequest(r.requestId), SeenAt(), seen, i)
               && seen[i] == byRequest.value;
      assert Shows(r, e, seen, i) && seen[i] in seen && Concerns(r, seen[i]);
    } else {
      assert forall v | v in seen :: !SeenForRequest(r.requestId)(v);
      if r.exchangeId.Some? {
        ShownByExchange(r, e, seen);
      }
    }
  }

  // What is loaded and shown.

  /** Every readable record is loaded, once for each file that holds it. */
  lemma {:induction false} RecordsAreThoseRead<T>(files: seq<Artifact<T>>, r: T)
    ensures multiset(Records(files))[r] == multiset(files)[Record(r)]
  {
    if files != [] {
      LastPutBack(files);
      RecordsAreThoseRead(DropLast(files), r);
    }
  }

  /** What is loaded, or why not: one exchange for each request with a process, oldest first. */
  ghost predicate Loads(requests: seq<Artifact<Request>>, responses: seq<Artifact<Response>>,
                        seen: seq<Artifact<Visibility>>, r: Result<seq<Exchange>, LoadError>)
  {
    && (r.Err? <==> Unreadable in responses || Unreadable in seen)
    && (r.Ok? ==>
          && multiset(r.value) == multiset(NestedScan(Records(requests), Records(responses), Records(seen)))
          && |r.value| == |Filter(HasProcess(), Records(requests))|
          && forall i, j | 0 <= i < j < |r.value| ::
               || r.value[i].startedAtMs < r.value[j].startedAtMs
               || (r.value[i].startedAtMs == r.value[j].startedAtMs
                   && AtMost(r.value[i].requestId, r.value[j].requestId)))
  }

  lemma ExchangeRecordsLoads(requests: seq<Artifact<Request>>, responses: seq<Artifact<Response>>,
                             seen: seq<Artifact<Visibility>>)
    ensures Loads(requests, responses, seen, ExchangeRecords(requests, responses, seen))
  {
    var xs := NestedScan(Records(requests), Records(responses), Records(seen));
    OrdersAreTotal();
    SortKeeps(ByStart, xs);
    ScanLength(Records(requests), Records(responses), Records(seen));
    var sorted := Sort(ByStart, xs);
    forall i, j | 0 <= i < j < |sorted|
      ensures || sorted[i].startedAtMs < sorted[j].startedAtMs
              || (sorted[i].startedAtMs == sorted[j].startedAtMs
                  && AtMost(sorted[i].requestId, sorted[j].requestId))
    {
      assert ByStart(sorted[i], sorted[j]);
    }
  }

  method LoadExchangeRecords(requests: seq<Artifact<Request>>, responses: seq<Artifact<Response>>,
                             seen: seq<Artifact<Visibility>>)
    returns (r: Result<seq<Exchange>, LoadError>)
    ensures r == ExchangeRecords(requests, responses, seen)
    ensures Loads(requests, responses, seen, r)
  {
    ExchangeRecordsLoads(requests, responses, seen);
    var responseIndex := BuildResponseIndex(responses);
    if responseIndex.Err? {
      return Err(UnreadableArtifact);
    }
    var visibilityIndex := BuildVisibilityIndex(seen);
    if visibilityIndex.Err? {
      return Err(UnreadableArtifact);
    }
    var records := LoadRequestRecords(requests);
    var exchanges := Join(records, responseIndex.value, visibilityIndex.value, Records(responses), Records(seen));
    r := Ok(Sort(ByStart, exchanges));
  }

  function SessionsShown(requests: seq<Artifact<Request>>, responses: seq<Artifact<Response>>,
                         seen: seq<Artifact<Visibility>>): Result<seq<Session>, LoadError>
  {
    match ExchangeRecords(requests, responses, seen)
    case Ok(exchanges) => Ok(SessionDetails(exchanges))
    case Err(e) => Err(e)
  }

  /** What is shown, or why not: every exchange of the nested scan stands in one
      timeline, as often as it was joined. */
  lemma SessionsShowTheScan(requests: seq<Artifact<Request>>, responses: seq<Artifact<Response>>,
                            seen: seq<Artifact<Visibility>>)
    ensures var r := SessionsShown(requests, responses, seen);
            && (r.Err? <==> Unreadable in responses || Unreadable in seen)
            && (r.Ok? ==> multiset(AllItems(r.value)) ==
                          multiset(NestedScan(Records(requests), Records(responses), Records(seen))))
  {
    ExchangeRecordsLoads(requests, responses, seen);
    var exchanges := ExchangeRecords(requests, responses, seen);
    if exchanges.Ok? {
      TimelinesHoldTheExchanges(exchanges.value);
    }
  }

  method LoadSessionDetails(requests: seq<Artifact<Request>>, responses: seq<Artifact<Response>>,
                            seen: seq<Artifact<Visibility>>)
    returns (r: Result<seq<Session>, LoadError>)
    ensures r == SessionsShown(requests, responses, seen)
    ensures r.Err? <==> Unreadable in responses || Unreadable in seen
    ensures r.Ok? ==> multiset(AllItems(r.value)) ==
                      multiset(NestedScan(Records(requests), Records(responses), Records(seen)))
  {
    SessionsShowTheScan(requests, responses, seen);
    var exchanges := LoadExchangeRecords(requests, responses, seen);
    match exchanges {
      case Ok(xs) =>
        var sessions := BuildSessionDetails(xs);
        r := Ok(sessions);
      case Err(e) => r := Err(e);
    }
  }

  // The order in which a directory lists its files.

  ghost predicate NoTies<T>(hasKey: T -> bool, at: T -> nat, records: seq<T>) {
    forall a, b | a in records && b in records && hasKey(a) && hasKey(b) && at(a) == at(b) :: a == b
  }

  lemma LatestIgnoresOrder<T>(hasKey: T -> bool, at: T -> nat, a: seq<T>, b: seq<T>)
    requires multiset(a) == multiset(b) && NoTies(hasKey, at, a)
    ensures Latest(hasKey, at, a) == Latest(hasKey, at, b)
  {
    SameMembersOfEqualMultisets(a, b);
    LatestIsGreatest(hasKey, at, a);
    LatestIsGreatest(hasKey, at, b);
    if Latest(hasKey, at, a).Some? && Latest(hasKey, at, b).Some? {
      var i :| 0 <= i < |a| && IsLatest(hasKey, at, a, i) && a[i] == Latest(hasKey, at, a).value;
      var j :| 0 <= j < |b| && IsLatest(hasKey, at, b, j) && b[j] == Latest(hasKey, at, b).value;
      assert a[i] in b && b[j] in a;
      var m :| 0 <= m < |b| && b[m] == a[i];
      var n :| 0 <= n < |a| && a[n] == b[j];
      assert at(b[m]) <= at(b[j]) && at(a[n]) <= at(a[i]);
    }
  }

  /** Nothing in the folders forces a choice: no two readable records compete at the same instant. */
  ghost predicate Unambiguous(requests: seq<Request>, responses: seq<Response>, seen: seq<Visibility>) {
    && (forall p, q | p in requests && q in requests && p.requestId == q.requestId :: p == q)
    && (forall id :: NoTies(ForExchange(id), CompletedAt(), responses))
    && (forall id :: NoTies(SeenForRequest(id), SeenAt(), seen))
    && (forall id :: NoTies(SeenForExchange(id), SeenAt(), seen))
  }

  lemma JoinedIgnoresOrder(r: Request, responses: seq<Response>, responses': seq<Response>,
                           seen: seq<Visibility>, seen': seq<Visibility>)
    requires multiset(responses) == multiset(responses') && multiset(seen) == multiset(seen')
    requires Unambiguous([], responses, seen)
    ensures Joined(r, responses, seen) == Joined(r, responses', seen')
  {
    LatestIgnoresOrder(SeenForRequest(r.requestId), SeenAt(), seen, seen');
    if r.exchangeId.Some? {
      LatestIgnoresOrder(ForExchange(r.exchangeId.value), CompletedAt(), responses, responses');
      LatestIgnoresOrder(SeenForExchange(r.exchangeId.value), SeenAt(), seen, seen');
    }
  }

  lemma {:induction false} ScanIgnoresIndexOrder(requests: seq<Request>, responses: seq<Response>,
                                                 responses': seq<Response>, seen: seq<Visibility>,
                                                 seen': seq<Visibility>)
    requires multiset(responses) == multiset(responses') && multiset(seen) == multiset(seen')
    requires Unambiguous([], responses, seen)
    ensures NestedScan(requests, responses, seen) == NestedScan(requests, responses', seen')
  {
    if requests != [] {
      ScanIgnoresIndexOrder(DropLast(requests), responses, responses', seen, seen');
      JoinedIgnoresOrder(Last(requests), responses, responses', seen, seen');
    }
  }

  lemma {:induction false} JoinedFrom(requests: seq<Request>, responses: seq<Response>, seen: seq<Visibility>,
                                      e: Exchange)
    returns (r: Request)
    requires e in NestedScan(requests, responses, seen)
    ensures r in requests && Joined(r, responses, seen) == [e] && r.requestId == e.requestId
  {
    if e in NestedScan(DropLast(requests), responses, seen) {
      r := JoinedFrom(DropLast(requests), responses, seen, e);
    } else {
      r := Last(requests);
    }
  }

  lemma ScanUniqueIds(requests: seq<Request>, responses: seq<Response>, seen: seq<Visibility>)
    requires forall p, q | p in requests && q in requests && p.requestId == q.requestId :: p == q
    ensures UniqueRequestIds(NestedScan(requests, responses, seen))
  {
    var xs := NestedScan(requests, responses, seen);
    forall a, b | a in xs && b in xs && a.requestId == b.requestId ensures a == b {
      var p := JoinedFrom(requests, responses, seen, a);
      var q := JoinedFrom(requests, responses, seen, b);
    }
  }

  lemma SessionsIgnoreRecordOrder(requests: seq<Request>, requests': seq<Request>, responses: seq<Response>,
                                  responses': seq<Response>, seen: seq<Visibility>, seen': seq<Visibility>)
    requires multiset(requests) == multiset(requests') && multiset(responses) == multiset(responses')
    requires multiset(seen) == multiset(seen')
    requires Unambiguous(requests, responses, seen)
    ensures SessionDetails(Sort(ByStart, NestedScan(requests, responses, seen))) ==
            SessionDetails(Sort(ByStart, NestedScan(requests', responses', seen')))
  {
    var a, b := NestedScan(requests, responses, seen), NestedScan(requests', responses', seen');
    FlatMapIgnoresOrder(JoinWith(responses, seen), requests, requests');
    ScanIgnoresIndexOrder(requests', responses, responses', seen, seen');
    OrdersAreTotal();
    SortKeeps(ByStart, a);
    SortKeeps(ByStart, b);
    ScanUniqueIds(requests, responses, seen);
    SessionDetailsIgnoreOrder(Sort(ByStart, a), Sort(ByStart, b));
  }

  /** The sessions shown do not depend on the order in which the folders list their files. */
  lemma SessionsIgnoreFileOrder(requests: seq<Artifact<Request>>, requests': seq<Artifact<Request>>,
                                responses: seq<Artifact<Response>>, responses': seq<Artifact<Response>>,
                                seen: seq<Artifact<Visibility>>, seen': seq<Artifact<Visibility>>)
    requires multiset(requests) == multiset(requests') && multiset(responses) == multiset(responses')
    requires multiset(seen) == multiset(seen')
    requires Unambiguous(Records(requests), Records(responses), Records(seen))
    ensures SessionsShown(requests, responses, seen) == SessionsShown(requests', responses', seen')
  {
    SameMembersOfEqualMultisets(responses, responses');
    SameMembersOfEqualMultisets(seen, seen');
    FlatMapIgnoresOrder(RecordsIn<Request>(), requests, requests');
    FlatMapIgnoresOrder(RecordsIn<Response>(), responses, responses');
    FlatMapIgnoresOrder(RecordsIn<Visibility>(), seen, seen');
    SessionsIgnoreRecordOrder(Records(requests), Records(requests'), Records(responses), Records(responses'),
                              Records(seen), Records(seen'));
  }
}

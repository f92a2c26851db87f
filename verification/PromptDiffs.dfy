/** Diffs between adjacent prompts of `prismtrace-analysis`. */
module PromptDiffs {
  import opened NameSets
  import opened Neighbours
  import opened Sequences
  import opened StableSort
  import opened StringOrder

  /** `lines` is the set of trimmed, non-empty lines of the text. */
  datatype Prompt = Prompt(sessionId: string, eventId: string, observedAtMs: nat, lines: Names)

  datatype PromptDiff = PromptDiff(
    sessionId: string,
    fromEventId: string,
    toEventId: string,
    addedLines: seq<string>,
    removedLines: seq<string>)

  predicate ByTime(a: Prompt, b: Prompt) {
    if a.observedAtMs != b.observedAtMs then a.observedAtMs < b.observedAtMs else AtMost(a.eventId, b.eventId)
  }

  function SessionOf(): Prompt -> string {
    (p: Prompt) => p.sessionId
  }

  function InSession(sessionId: string): Prompt -> bool {
    (p: Prompt) => p.sessionId == sessionId
  }

  function DiffIn(sessionId: string): PromptDiff -> bool {
    (d: PromptDiff) => d.sessionId == sessionId
  }

  function DiffBetween(): (Prompt, Prompt) -> PromptDiff {
    (from: Prompt, to: Prompt) =>
      PromptDiff(from.sessionId, from.eventId, to.eventId, Difference(to.lines, from.lines),
                 Difference(from.lines, to.lines))
  }

  /** The `filter_map` over `windows(2)`: neighbours of different sessions give no diff. */
  function WindowDiffs(prompts: seq<Prompt>): seq<PromptDiff> {
    if |prompts| < 2 then []
    else
      var from, to := prompts[|prompts| - 2], prompts[|prompts| - 1];
      if from.sessionId == to.sessionId
      then WindowDiffs(DropLast(prompts)) + [DiffBetween()(from, to)]
      else WindowDiffs(DropLast(prompts))
  }

  function DiffAdjacentPrompts(prompts: seq<Prompt>): seq<PromptDiff> {
    WindowDiffs(Sort(ByTime, prompts))
  }

  /** The prompts of one session, oldest first. */
  function PromptsIn(prompts: seq<Prompt>, sessionId: string): seq<Prompt> {
    Sort(ByTime, Filter(InSession(sessionId), prompts))
  }

  /** What the diffs of a session should be: from each of its prompts to the next. */
  function SessionDiffs(prompts: seq<Prompt>, sessionId: string): seq<PromptDiff> {
    Pairwise(DiffBetween(), PromptsIn(prompts, sessionId))
  }

  /** The diffs of one session among those of the windows. */
  function MyWindows(prompts: seq<Prompt>, sessionId: string): seq<PromptDiff> {
    Filter(DiffIn(sessionId), WindowDiffs(prompts))
  }

  function MyPairs(prompts: seq<Prompt>, sessionId: string): seq<PromptDiff> {
    Pairwise(DiffBetween(), Filter(InSession(sessionId), prompts))
  }

  lemma WindowDiffsSnoc(prompts: seq<Prompt>, x: Prompt)
    requires prompts != []
    ensures WindowDiffs(prompts + [x]) ==
            if Last(prompts).sessionId == x.sessionId then WindowDiffs(prompts) + [DiffBetween()(Last(prompts), x)]
            else WindowDiffs(prompts)
  {
    assert DropLast(prompts + [x]) == prompts;
  }

  lemma WindowsSnoc(prompts: seq<Prompt>, x: Prompt, sessionId: string)
    ensures MyWindows(prompts + [x], sessionId) ==
            if prompts != [] && Last(prompts).sessionId == sessionId == x.sessionId
            then MyWindows(prompts, sessionId) + [DiffBetween()(Last(prompts), x)]
            else MyWindows(prompts, sessionId)
  {
    if prompts != [] {
      WindowDiffsSnoc(prompts, x);
      FilterSnoc(DiffIn(sessionId), WindowDiffs(prompts), DiffBetween()(Last(prompts), x));
    }
  }

  lemma PairwiseSnoc<T, U>(f: (T, T) -> U, s: seq<T>, x: T)
    requires s != []
    ensures Pairwise(f, s + [x]) == Pairwise(f, s) + [f(Last(s), x)]
  {
    assert DropLast(s + [x]) == s;
  }

  lemma PairsSnoc(prompts: seq<Prompt>, x: Prompt, sessionId: string)
    ensures var mine := Filter(InSession(sessionId), prompts);
            && (MyPairs(prompts + [x], sessionId) ==
                if x.sessionId == sessionId && mine != []
                then MyPairs(prompts, sessionId) + [DiffBetween()(Last(mine), x)]
                else MyPairs(prompts, sessionId))
            && (mine != [] <==> HasKey(SessionOf(), sessionId, prompts))
            && (prompts != [] && Last(prompts).sessionId == sessionId ==> mine != [] && Last(mine) == Last(prompts))
  {
    var mine := Filter(InSession(sessionId), prompts);
    FilterSnoc(InSession(sessionId), prompts, x);
    FilterMembers(InSession(sessionId), prompts);
    assert mine != [] ==> mine[0] in mine;
    if mine != [] {
      PairwiseSnoc(DiffBetween(), mine, x);
    } else {
      assert [] + [x] == [x];
    }
  }

  lemma SameSnoc<T>(a: seq<T>, b: seq<T>, x: T)
    ensures a + [x] == b + [x] <==> a == b
  {
    assert (a + [x])[..|a|] == a && (b + [x])[..|b|] == b;
  }

  lemma OnePromptMore(prompts: seq<Prompt>, x: Prompt, sessionId: string)
    requires |MyWindows(prompts, sessionId)| <= |MyPairs(prompts, sessionId)|
    requires MyWindows(prompts, sessionId) == MyPairs(prompts, sessionId) <==>
             SideBySide(SessionOf(), sessionId, prompts)
    ensures |MyWindows(prompts + [x], sessionId)| <= |MyPairs(prompts + [x], sessionId)|
    ensures MyWindows(prompts + [x], sessionId) == MyPairs(prompts + [x], sessionId) <==>
            SideBySide(SessionOf(), sessionId, prompts + [x])
  {
    SideBySideSnoc(SessionOf(), sessionId, prompts, x);
    WindowsSnoc(prompts, x, sessionId);
    PairsSnoc(prompts, x, sessionId);
    if x.sessionId == sessionId && prompts != [] && Last(prompts).sessionId == sessionId {
      SameSnoc(MyWindows(prompts, sessionId), MyPairs(prompts, sessionId), DiffBetween()(Last(prompts), x));
    }
  }

  lemma {:induction false} WindowsAtMost(prompts: seq<Prompt>, sessionId: string)
    ensures |MyWindows(prompts, sessionId)| <= |MyPairs(prompts, sessionId)|
    ensures MyWindows(prompts, sessionId) == MyPairs(prompts, sessionId) <==>
            SideBySide(SessionOf(), sessionId, prompts)
  {
    if prompts != [] {
      WindowsAtMost(DropLast(prompts), sessionId);
      OnePromptMore(DropLast(prompts), Last(prompts), sessionId);
      LastPutBack(prompts);
    }
  }

  lemma TimeIsTotal()
    ensures TotalPreorder(ByTime)
  {
    AtMostIsTotalOrder();
  }

  /** They are the prompts that name the session, ascending in time, then in event id. */
  lemma PromptsInAscend(prompts: seq<Prompt>, sessionId: string)
    ensures multiset(PromptsIn(prompts, sessionId)) == multiset(Filter(InSession(sessionId), prompts))
    ensures forall p :: p in PromptsIn(prompts, sessionId) <==> p in prompts && p.sessionId == sessionId
    ensures var mine := PromptsIn(prompts, sessionId);
            forall i, j | 0 <= i < j < |mine| ::
              && mine[i].observedAtMs <= mine[j].observedAtMs
              && (mine[i].observedAtMs == mine[j].observedAtMs ==> AtMost(mine[i].eventId, mine[j].eventId))
  {
    var mine := PromptsIn(prompts, sessionId);
    TimeIsTotal();
    SortKeeps(ByTime, Filter(InSession(sessionId), prompts));
    FilterMembers(InSession(sessionId), prompts);
    forall i, j | 0 <= i < j < |mine|
      ensures mine[i].observedAtMs <= mine[j].observedAtMs
      ensures mine[i].observedAtMs == mine[j].observedAtMs ==> AtMost(mine[i].eventId, mine[j].eventId)
    {
      assert ByTime(mine[i], mine[j]);
    }
  }

  /** The diffs of a session lead from each of its prompts to the next exactly
      when no prompt of another session falls between them. */
  lemma CompleteExactlyWhen(prompts: seq<Prompt>, sessionId: string)
    ensures Filter(DiffIn(sessionId), DiffAdjacentPrompts(prompts)) == SessionDiffs(prompts, sessionId) <==>
            SideBySide(SessionOf(), sessionId, Sort(ByTime, prompts))
  {
    TimeIsTotal();
    SortFilter(ByTime, InSession(sessionId), prompts);
    WindowsAtMost(Sort(ByTime, prompts), sessionId);
  }

  ghost function Replay(lines: set<string>, diffs: seq<PromptDiff>): set<string> {
    if diffs == [] then lines
    else Apply(Replay(lines, DropLast(diffs)), Last(diffs).removedLines, Last(diffs).addedLines)
  }

  lemma {:induction false} PairwiseReplay(prompts: seq<Prompt>, k: nat)
    requires k < |prompts|
    ensures |Pairwise(DiffBetween(), prompts)| == |prompts| - 1
    ensures Replay(ToSet(prompts[0].lines), Pairwise(DiffBetween(), prompts)[..k]) == ToSet(prompts[k].lines)
  {
    PairwiseLength(DiffBetween(), prompts);
    if k > 0 {
      var diffs := Pairwise(DiffBetween(), prompts);
      PairwiseReplay(prompts, k - 1);
      PairwiseAt(DiffBetween(), prompts, k - 1);
      assert DropLast(diffs[..k]) == diffs[..k - 1];
      DifferencesLeadOver(prompts[k - 1].lines, prompts[k].lines);
    }
  }

  /** Then they replay: from the first prompt's lines to those of every later one. */
  lemma ReplaysWhenSideBySide(prompts: seq<Prompt>, sessionId: string, k: nat)
    requires SideBySide(SessionOf(), sessionId, Sort(ByTime, prompts))
    requires k < |PromptsIn(prompts, sessionId)|
    ensures var mine := PromptsIn(prompts, sessionId);
            var diffs := Filter(DiffIn(sessionId), DiffAdjacentPrompts(prompts));
            && |diffs| == |mine| - 1
            && Replay(ToSet(mine[0].lines), diffs[..k]) == ToSet(mine[k].lines)
  {
    CompleteExactlyWhen(prompts, sessionId);
    PairwiseReplay(PromptsIn(prompts, sessionId), k);
  }

  lemma {:induction false} WindowsAreSomePairs(prompts: seq<Prompt>, sessionId: string)
    ensures Subsequence(MyWindows(prompts, sessionId), MyPairs(prompts, sessionId))
  {
    if prompts != [] {
      var init, x := DropLast(prompts), Last(prompts);
      WindowsAreSomePairs(init, sessionId);
      LastPutBack(prompts);
      WindowsSnoc(init, x, sessionId);
      PairsSnoc(init, x, sessionId);
      if x.sessionId == sessionId && Filter(InSession(sessionId), init) != [] {
        SubsequenceSnoc(MyWindows(init, sessionId), MyPairs(init, sessionId),
                        DiffBetween()(Last(Filter(InSession(sessionId), init)), x));
      }
    }
  }

  /** Whatever lies between its prompts, the diffs given for a session are some
      of the steps from each of them to the next, in order. */
  lemma DiffsAreSomeSteps(prompts: seq<Prompt>, sessionId: string)
    ensures Subsequence(Filter(DiffIn(sessionId), DiffAdjacentPrompts(prompts)), SessionDiffs(prompts, sessionId))
  {
    TimeIsTotal();
    SortFilter(ByTime, InSession(sessionId), prompts);
    WindowsAreSomePairs(Sort(ByTime, prompts), sessionId);
  }

  /** Each step names the prompts it leads from and to, and says what came and what went. */
  lemma StepLeadsOn(prompts: seq<Prompt>, sessionId: string, k: nat, line: string)
    requires k < |SessionDiffs(prompts, sessionId)|
    ensures var mine, d := PromptsIn(prompts, sessionId), SessionDiffs(prompts, sessionId)[k];
            && k + 1 < |mine| && d.fromEventId == mine[k].eventId && d.toEventId == mine[k + 1].eventId
            && mine[k].observedAtMs <= mine[k + 1].observedAtMs
            && (line in d.addedLines <==> Has(mine[k + 1].lines, line) && !Has(mine[k].lines, line))
            && (line in d.removedLines <==> Has(mine[k].lines, line) && !Has(mine[k + 1].lines, line))
  {
    var mine := PromptsIn(prompts, sessionId);
    PromptsInAscend(prompts, sessionId);
    PairwiseLength(DiffBetween(), mine);
    PairwiseAt(DiffBetween(), mine, k);
    var from, to := mine[k].lines, mine[k + 1].lines;
    DifferenceIsDifference(from, to);
    DifferenceIsDifference(to, from);
    HasIsMember(from, line);
    HasIsMember(to, line);
  }

  /** Every diff given leads from one prompt of its session to the next, which is
      not earlier, and says what came and what went. */
  lemma DiffsLeadOn(prompts: seq<Prompt>, d: PromptDiff, line: string) returns (k: nat)
    requires d in DiffAdjacentPrompts(prompts)
    ensures var mine := PromptsIn(prompts, d.sessionId);
            && k + 1 < |mine| && d.fromEventId == mine[k].eventId && d.toEventId == mine[k + 1].eventId
            && mine[k].observedAtMs <= mine[k + 1].observedAtMs
            && (line in d.addedLines <==> Has(mine[k + 1].lines, line) && !Has(mine[k].lines, line))
            && (line in d.removedLines <==> Has(mine[k].lines, line) && !Has(mine[k + 1].lines, line))
  {
    var given, steps := Filter(DiffIn(d.sessionId), DiffAdjacentPrompts(prompts)), SessionDiffs(prompts, d.sessionId);
    DiffsAreSomeSteps(prompts, d.sessionId);
    FilterMembers(DiffIn(d.sessionId), DiffAdjacentPrompts(prompts));
    SubsequenceHasNoMore(given, steps, d);
    assert d in multiset(given) && d in multiset(steps);
    k :| 0 <= k < |steps| && steps[k] == d;
    StepLeadsOn(prompts, d.sessionId, k, line);
  }

  lemma NoWindow(a: Prompt, b: Prompt, c: Prompt)
    requires a.sessionId == c.sessionId != b.sessionId
    ensures WindowDiffs([a, b, c]) == []
  {
    WindowDiffsSnoc([a], b);
    WindowDiffsSnoc([a, b], c);
    assert [a] + [b] == [a, b] && [a, b] + [c] == [a, b, c];
  }

  lemma OneStep(a: Prompt, b: Prompt, c: Prompt)
    requires a.observedAtMs < c.observedAtMs && a.sessionId == c.sessionId != b.sessionId
    ensures |SessionDiffs([a, b, c], a.sessionId)| == 1
  {
    var own := InSession(a.sessionId);
    FilterSnoc(own, [], a);
    FilterSnoc(own, [a], b);
    FilterSnoc(own, [a, b], c);
    assert [] + [a] == [a] && [a] + [b] == [a, b] && [a, b] + [c] == [a, b, c] && [a] + [c] == [a, c];
    SortOfSorted(ByTime, [a, c]);
    PairwiseLength(DiffBetween(), [a, c]);
  }

  /** A prompt of another session between two of one hides the step from one to the other. */
  lemma InterruptedSessionSkipsAStep(a: Prompt, b: Prompt, c: Prompt)
    requires a.observedAtMs < b.observedAtMs < c.observedAtMs && a.sessionId == c.sessionId != b.sessionId
    ensures DiffAdjacentPrompts([a, b, c]) == []
    ensures |SessionDiffs([a, b, c], a.sessionId)| == 1
  {
    SortOfSorted(ByTime, [a, b, c]);
    NoWindow(a, b, c);
    OneStep(a, b, c);
  }
}

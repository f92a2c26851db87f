/** Which transcripts a call of the session polls, and what it makes of them,
    said by the polls alone. */
module Passes {
  import opened Bytes
  import opened ClaudeSession
  import opened Lines
  import opened Sequences
  import opened TranscriptTail
  import opened Wrappers

  /** What the passes find of transcript `i`, one look a pass. */
  function LooksOf(rounds: seq<nat -> Look>, i: nat): seq<Look> {
    if rounds == [] then [] else LooksOf(DropLast(rounds), i) + [Last(rounds)(i)]
  }

  /** Transcript `i` after it was polled once in each of the passes. */
  function TailAfter<V, E>(parser: Parser<V, E>, ts: seq<Tracked<E>>, rounds: seq<nat -> Look>, i: nat): Tail<E>
    requires i < |ts|
  {
    PollAll(parser, ts[i].tail, LooksOf(rounds, i))
  }

  /** What the poll of transcript `i` in pass `r` gives. */
  function OutcomeAt<V, E>(parser: Parser<V, E>, ts: seq<Tracked<E>>, rounds: seq<nat -> Look>, r: nat, i: nat)
    : Outcome<E>
    requires r < |rounds| && i < |ts|
  {
    Poll(parser, TailAfter(parser, ts, rounds[..r], i), rounds[r](i)).1
  }

  ghost predicate AllQuiet<V, E>(parser: Parser<V, E>, ts: seq<Tracked<E>>, rounds: seq<nat -> Look>) {
    forall r, i | 0 <= r < |rounds| && 0 <= i < |ts| :: OutcomeAt(parser, ts, rounds, r, i).Quiet?
  }

  /** In pass order, transcript `i` in pass `r` is the first whose poll gives something. */
  ghost predicate FirstAt<V, E>(parser: Parser<V, E>, ts: seq<Tracked<E>>, rounds: seq<nat -> Look>, r: int, i: int) {
    && 0 <= r < |rounds| && 0 <= i < |ts|
    && !OutcomeAt(parser, ts, rounds, r, i).Quiet?
    && AllQuiet(parser, ts, rounds[..r])
    && forall j | 0 <= j < i :: OutcomeAt(parser, ts, rounds, r, j).Quiet?
  }

  function EventOf<E>(path: Path, outcome: Outcome<E>): Option<SessionEvent<E>> {
    match outcome
    case Emitted(event) => Some(Observed(path, event))
    case Failed => Some(Unobservable(Some(path), TranscriptUnavailable))
    case Quiet => None
  }

  /** Transcript `j` when the call ends at transcript `i` of pass `r`: those up to
      `i` were polled in that pass, those behind it were not. */
  function TrackedAt<V, E>(parser: Parser<V, E>, ts: seq<Tracked<E>>, rounds: seq<nat -> Look>, r: nat, i: nat, j: nat)
    : Tracked<E>
    requires r < |rounds| && j < |ts|
  {
    Tracked(ts[j].path, TailAfter(parser, ts, if j <= i then rounds[..r + 1] else rounds[..r], j))
  }

  /** The call ends at transcript `i` of pass `r`, with its event; a transcript that failed is dropped. */
  ghost predicate EndsAt<V, E>(parser: Parser<V, E>, ts: seq<Tracked<E>>, rounds: seq<nat -> Look>,
                               after: seq<Tracked<E>>, event: Option<SessionEvent<E>>, r: int, i: int)
  {
    && FirstAt(parser, ts, rounds, r, i)
    && event == EventOf(ts[i].path, OutcomeAt(parser, ts, rounds, r, i))
    && if OutcomeAt(parser, ts, rounds, r, i).Failed?
       then |after| == |ts| - 1 && forall j | 0 <= j < |after| ::
              after[j] == TrackedAt(parser, ts, rounds, r, i, if j < i then j else j + 1)
       else |after| == |ts| && forall j | 0 <= j < |ts| :: after[j] == TrackedAt(parser, ts, rounds, r, i, j)
  }

  /** Every transcript was polled once in every pass, without result. */
  ghost predicate AllPolled<V, E>(parser: Parser<V, E>, ts: seq<Tracked<E>>, rounds: seq<nat -> Look>,
                                  after: seq<Tracked<E>>)
  {
    && AllQuiet(parser, ts, rounds) && |after| == |ts|
    && forall j | 0 <= j < |ts| :: after[j] == Tracked(ts[j].path, TailAfter(parser, ts, rounds, j))
  }

  // One pass.

  /** The pass has polled the transcripts from `i` up to `k`. */
  ghost predicate PassedTo<V, E>(parser: Parser<V, E>, ts: seq<Tracked<E>>, i: nat, k: nat, looks: nat -> Look) {
    forall j | i <= j < k && j < |ts| :: Poll(parser, ts[j].tail, looks(j)).1.Quiet?
  }

  function PollOne<V, E>(parser: Parser<V, E>, t: Tracked<E>, look: Look): Tracked<E> {
    Tracked(t.path, Poll(parser, t.tail, look).0)
  }

  function PassedOne<V, E>(parser: Parser<V, E>, ts: seq<Tracked<E>>, i: nat, k: nat, j: nat, looks: nat -> Look)
    : Tracked<E>
    requires j < |ts|
  {
    if i <= j <= k then PollOne(parser, ts[j], looks(j)) else ts[j]
  }

  ghost predicate PassEndsAt<V, E>(parser: Parser<V, E>, ts: seq<Tracked<E>>, i: nat, k: int, looks: nat -> Look,
                                   after: seq<Tracked<E>>, event: Option<SessionEvent<E>>)
  {
    && i <= k < |ts| && PassedTo(parser, ts, i, k, looks)
    && var outcome := Poll(parser, ts[k].tail, looks(k)).1;
       && !outcome.Quiet? && event == EventOf(ts[k].path, outcome)
       && if outcome.Failed?
          then |after| == |ts| - 1 && forall j | 0 <= j < |after| ::
                 after[j] == PassedOne(parser, ts, i, k, if j < k then j else j + 1, looks)
          else |after| == |ts| && forall j | 0 <= j < |ts| :: after[j] == PassedOne(parser, ts, i, k, j, looks)
  }

  ghost predicate PassQuiet<V, E>(parser: Parser<V, E>, ts: seq<Tracked<E>>, i: nat, looks: nat -> Look,
                                  after: seq<Tracked<E>>)
  {
    && PassedTo(parser, ts, i, |ts|, looks) && |after| == |ts|
    && forall j | 0 <= j < |ts| :: after[j] == PassedOne(parser, ts, i, |ts|, j, looks)
  }

  lemma PassQuietMore<V, E>(parser: Parser<V, E>, ts: seq<Tracked<E>>, i: nat, looks: nat -> Look,
                            after: seq<Tracked<E>>)
    requires i < |ts| && Poll(parser, ts[i].tail, looks(i)).1.Quiet?
    requires PassQuiet(parser, Polled(parser, ts, i, looks(i)), i + 1, looks, after)
    ensures PassQuiet(parser, ts, i, looks, after)
  {
    var polled := Polled(parser, ts, i, looks(i));
    forall j | 0 <= j < |ts| ensures after[j] == PassedOne(parser, ts, i, |ts|, j, looks) {
      assert after[j] == PassedOne(parser, polled, i + 1, |ts|, j, looks);
    }
    forall j | i <= j < |ts| ensures Poll(parser, ts[j].tail, looks(j)).1.Quiet? {
      assert j > i ==> polled[j] == ts[j];
    }
  }

  lemma PassEndsMore<V, E>(parser: Parser<V, E>, ts: seq<Tracked<E>>, i: nat, k: int, looks: nat -> Look,
                           after: seq<Tracked<E>>, event: Option<SessionEvent<E>>)
    requires i < |ts| && Poll(parser, ts[i].tail, looks(i)).1.Quiet?
    requires PassEndsAt(parser, Polled(parser, ts, i, looks(i)), i + 1, k, looks, after, event)
    ensures PassEndsAt(parser, ts, i, k, looks, after, event)
  {
    var polled := Polled(parser, ts, i, looks(i));
    assert polled[k] == ts[k];
    forall j | i <= j < k ensures Poll(parser, ts[j].tail, looks(j)).1.Quiet? {
      assert j > i ==> polled[j] == ts[j];
    }
    forall j | 0 <= j < |ts|
      ensures PassedOne(parser, polled, i + 1, k, j, looks) == PassedOne(parser, ts, i, k, j, looks)
    {
    }
  }

  lemma {:induction false} RoundPolls<V, E>(parser: Parser<V, E>, ts: seq<Tracked<E>>, i: nat, looks: nat -> Look)
    returns (k: int)
    ensures var (after, event) := Round(parser, ts, i, looks);
            if event.None? then PassQuiet(parser, ts, i, looks, after)
            else PassEndsAt(parser, ts, i, k, looks, after, event)
    decreases |ts| - i
  {
    k := i;
    if i < |ts| && Poll(parser, ts[i].tail, looks(i)).1.Quiet? {
      var polled := Polled(parser, ts, i, looks(i));
      k := RoundPolls(parser, polled, i + 1, looks);
      var (after, event) := Round(parser, polled, i + 1, looks);
      if event.None? {
        PassQuietMore(parser, ts, i, looks, after);
      } else {
        PassEndsMore(parser, ts, i, k, looks, after, event);
      }
    }
  }

  // Pass after pass.

  lemma {:induction false} LooksFromFirst(rounds: seq<nat -> Look>, i: nat)
    requires rounds != []
    ensures LooksOf(rounds, i) == [rounds[0](i)] + LooksOf(rounds[1..], i)
  {
    if |rounds| == 1 {
      assert DropLast(rounds) == [] && rounds[1..] == [];
    } else {
      LooksFromFirst(DropLast(rounds), i);
      assert DropLast(rounds)[1..] == DropLast(rounds[1..]);
      AppendAssociative([rounds[0](i)], LooksOf(DropLast(rounds[1..]), i), [Last(rounds)(i)]);
    }
  }

  lemma {:induction false} PollAllFromFirst<V, E>(parser: Parser<V, E>, t: Tail<E>, look: Look, looks: seq<Look>)
    ensures PollAll(parser, t, [look] + looks) == PollAll(parser, Poll(parser, t, look).0, looks)
  {
    if looks == [] {
      assert [look] + looks == [look] && DropLast([look]) == [];
    } else {
      PollAllFromFirst(parser, t, look, DropLast(looks));
      assert DropLast([look] + looks) == [look] + DropLast(looks);
    }
  }

  /** The transcripts once the first pass has polled each of them. */
  ghost predicate FirstPassed<V, E>(parser: Parser<V, E>, ts: seq<Tracked<E>>, rounds: seq<nat -> Look>,
                                    passed: seq<Tracked<E>>)
  {
    && rounds != [] && |passed| == |ts|
    && forall i | 0 <= i < |ts| :: passed[i] == PollOne(parser, ts[i], rounds[0](i))
  }

  lemma TailShifts<V, E>(parser: Parser<V, E>, ts: seq<Tracked<E>>, rounds: seq<nat -> Look>,
                         passed: seq<Tracked<E>>, r: nat, i: nat)
    requires FirstPassed(parser, ts, rounds, passed) && r < |rounds| && i < |ts|
    ensures TailAfter(parser, ts, rounds[..r + 1], i) == TailAfter(parser, passed, rounds[1..][..r], i)
  {
    var upTo := rounds[..r + 1];
    assert upTo[1..] == rounds[1..][..r];
    LooksFromFirst(upTo, i);
    PollAllFromFirst(parser, ts[i].tail, rounds[0](i), LooksOf(upTo[1..], i));
  }

  lemma OutcomeShifts<V, E>(parser: Parser<V, E>, ts: seq<Tracked<E>>, rounds: seq<nat -> Look>,
                            passed: seq<Tracked<E>>, r: nat, i: nat)
    requires FirstPassed(parser, ts, rounds, passed) && r + 1 < |rounds| && i < |ts|
    ensures OutcomeAt(parser, ts, rounds, r + 1, i) == OutcomeAt(parser, passed, rounds[1..], r, i)
  {
    TailShifts(parser, ts, rounds, passed, r, i);
  }

  lemma FirstOutcome<V, E>(parser: Parser<V, E>, ts: seq<Tracked<E>>, rounds: seq<nat -> Look>, i: nat)
    requires rounds != [] && i < |ts|
    ensures TailAfter(parser, ts, rounds[..0], i) == ts[i].tail
    ensures TailAfter(parser, ts, rounds[..1], i) == PollOne(parser, ts[i], rounds[0](i)).tail
    ensures OutcomeAt(parser, ts, rounds, 0, i) == Poll(parser, ts[i].tail, rounds[0](i)).1
  {
    assert rounds[..0] == [] && DropLast(rounds[..1]) == [];
    assert LooksOf(rounds[..1], i) == [] + [rounds[0](i)];
    assert DropLast([rounds[0](i)]) == [];
  }

  lemma QuietShifts<V, E>(parser: Parser<V, E>, ts: seq<Tracked<E>>, rounds: seq<nat -> Look>,
                          passed: seq<Tracked<E>>, n: nat)
    requires FirstPassed(parser, ts, rounds, passed) && n < |rounds|
    requires forall i | 0 <= i < |ts| :: OutcomeAt(parser, ts, rounds, 0, i).Quiet?
    requires AllQuiet(parser, passed, rounds[1..][..n])
    ensures AllQuiet(parser, ts, rounds[..n + 1])
  {
    var upTo, later := rounds[..n + 1], rounds[1..][..n];
    forall r, i | 0 <= r < |upTo| && 0 <= i < |ts| ensures OutcomeAt(parser, ts, upTo, r, i).Quiet? {
      assert upTo[..r] == rounds[..r] && upTo[r] == rounds[r];
      assert OutcomeAt(parser, ts, upTo, r, i) == OutcomeAt(parser, ts, rounds, r, i);
      if r > 0 {
        OutcomeShifts(parser, ts, rounds, passed, r - 1, i);
        assert later[..r - 1] == rounds[1..][..r - 1] && later[r - 1] == rounds[1..][r - 1];
        assert OutcomeAt(parser, passed, later, r - 1, i).Quiet?;
      }
    }
  }

  lemma PassIsFirst<V, E>(parser: Parser<V, E>, ts: seq<Tracked<E>>, rounds: seq<nat -> Look>,
                          after: seq<Tracked<E>>)
    requires rounds != [] && PassQuiet(parser, ts, 0, rounds[0], after)
    ensures FirstPassed(parser, ts, rounds, after)
    ensures forall i | 0 <= i < |ts| :: OutcomeAt(parser, ts, rounds, 0, i).Quiet?
  {
    forall i | 0 <= i < |ts|
      ensures after[i] == PollOne(parser, ts[i], rounds[0](i)) && OutcomeAt(parser, ts, rounds, 0, i).Quiet?
    {
      FirstOutcome(parser, ts, rounds, i);
      assert after[i] == PassedOne(parser, ts, 0, |ts|, i, rounds[0]);
    }
  }

  lemma FirstInFirstPass<V, E>(parser: Parser<V, E>, ts: seq<Tracked<E>>, rounds: seq<nat -> Look>, i: int)
    requires rounds != [] && 0 <= i < |ts| && PassedTo(parser, ts, 0, i, rounds[0])
    requires !Poll(parser, ts[i].tail, rounds[0](i)).1.Quiet?
    ensures FirstAt(parser, ts, rounds, 0, i)
    ensures OutcomeAt(parser, ts, rounds, 0, i) == Poll(parser, ts[i].tail, rounds[0](i)).1
  {
    FirstOutcome(parser, ts, rounds, i);
    forall j | 0 <= j < i ensures OutcomeAt(parser, ts, rounds, 0, j).Quiet? {
      FirstOutcome(parser, ts, rounds, j);
    }
  }

  lemma TrackedInFirstPass<V, E>(parser: Parser<V, E>, ts: seq<Tracked<E>>, rounds: seq<nat -> Look>, i: nat, j: nat)
    requires rounds != [] && j < |ts|
    ensures TrackedAt(parser, ts, rounds, 0, i, j) == PassedOne(parser, ts, 0, i, j, rounds[0])
  {
    FirstOutcome(parser, ts, rounds, j);
  }

  lemma EndsInFirstPass<V, E>(parser: Parser<V, E>, ts: seq<Tracked<E>>, rounds: seq<nat -> Look>, i: int,
                              after: seq<Tracked<E>>, event: Option<SessionEvent<E>>)
    requires rounds != [] && PassEndsAt(parser, ts, 0, i, rounds[0], after, event)
    ensures EndsAt(parser, ts, rounds, after, event, 0, i)
  {
    FirstInFirstPass(parser, ts, rounds, i);
    forall j | 0 <= j < |ts|
      ensures TrackedAt(parser, ts, rounds, 0, i, j) == PassedOne(parser, ts, 0, i, j, rounds[0])
    {
      TrackedInFirstPass(parser, ts, rounds, i, j);
    }
  }

  lemma EndsInLaterPass<V, E>(parser: Parser<V, E>, ts: seq<Tracked<E>>, rounds: seq<nat -> Look>,
                              passed: seq<Tracked<E>>, after: seq<Tracked<E>>, event: Option<SessionEvent<E>>,
                              r: int, i: int)
    requires FirstPassed(parser, ts, rounds, passed)
    requires forall j | 0 <= j < |ts| :: OutcomeAt(parser, ts, rounds, 0, j).Quiet?
    requires EndsAt(parser, passed, rounds[1..], after, event, r, i)
    ensures EndsAt(parser, ts, rounds, after, event, r + 1, i)
  {
    QuietShifts(parser, ts, rounds, passed, r);
    OutcomeShifts(parser, ts, rounds, passed, r, i);
    var pass := r + 1;
    forall j | 0 <= j < i ensures OutcomeAt(parser, ts, rounds, pass, j).Quiet? {
      OutcomeShifts(parser, ts, rounds, passed, r, j);
    }
    forall j | 0 <= j < |ts|
      ensures TrackedAt(parser, ts, rounds, r + 1, i, j) == TrackedAt(parser, passed, rounds[1..], r, i, j)
    {
      TailShifts(parser, ts, rounds, passed, r, j);
      TailShifts(parser, ts, rounds, passed, r + 1, j);
    }
  }

  lemma PolledInAll<V, E>(parser: Parser<V, E>, ts: seq<Tracked<E>>, rounds: seq<nat -> Look>,
                          passed: seq<Tracked<E>>, after: seq<Tracked<E>>)
    requires FirstPassed(parser, ts, rounds, passed)
    requires forall j | 0 <= j < |ts| :: OutcomeAt(parser, ts, rounds, 0, j).Quiet?
    requires AllPolled(parser, passed, rounds[1..], after)
    ensures AllPolled(parser, ts, rounds, after)
  {
    var n := |rounds| - 1;
    assert rounds[1..][..n] == rounds[1..] && rounds[..n + 1] == rounds;
    QuietShifts(parser, ts, rounds, passed, n);
    forall j | 0 <= j < |ts| ensures after[j] == Tracked(ts[j].path, TailAfter(parser, ts, rounds, j)) {
      TailShifts(parser, ts, rounds, passed, n, j);
    }
  }

  lemma {:induction false} RoundsPoll<V, E>(parser: Parser<V, E>, ts: seq<Tracked<E>>, rounds: seq<nat -> Look>)
    returns (r: int, i: int)
    ensures var (after, event) := Rounds(parser, ts, rounds);
            if event.None? then AllPolled(parser, ts, rounds, after)
            else EndsAt(parser, ts, rounds, after, event, r, i)
    decreases |rounds|
  {
    r, i := 0, 0;
    if rounds != [] {
      i := RoundPolls(parser, ts, 0, rounds[0]);
      var (passed, event) := Round(parser, ts, 0, rounds[0]);
      if event.Some? {
        EndsInFirstPass(parser, ts, rounds, i, passed, event);
      } else {
        PassIsFirst(parser, ts, rounds, passed);
        r, i := RoundsPoll(parser, passed, rounds[1..]);
        var (after, event') := Rounds(parser, passed, rounds[1..]);
        if event'.None? {
          PolledInAll(parser, ts, rounds, passed, after);
        } else {
          EndsInLaterPass(parser, ts, rounds, passed, after, event', r, i);
          r := r + 1;
        }
      }
    }
  }

  /** An open session with nothing waiting gives no event if and only if every
      transcript, polled once in every pass, gives none; otherwise it gives that
      of the first poll, in pass order, that does. */
  lemma NextPollsAll<V, E>(parser: Parser<V, E>, s: State<E>, rounds: seq<nat -> Look>) returns (r: int, i: int)
    requires s.status == [] && !s.closed
    ensures var (after, event) := Next(parser, s, rounds);
            && (event.None? <==> AllQuiet(parser, s.transcripts, rounds))
            && (event.None? ==> AllPolled(parser, s.transcripts, rounds, after.transcripts))
            && (event.Some? ==> EndsAt(parser, s.transcripts, rounds, after.transcripts, event, r, i))
  {
    r, i := RoundsPoll(parser, s.transcripts, rounds);
  }

  lemma {:induction false} TailAfterInStep<V, E>(parser: Parser<V, E>, t: Tail<E>, looks: seq<Look>)
    requires InStep(parser, t)
    ensures InStep(parser, PollAll(parser, t, looks))
  {
    if looks != [] {
      TailAfterInStep(parser, t, DropLast(looks));
      PollKeepsStep(parser, PollAll(parser, t, DropLast(looks)), Last(looks));
    }
  }

  /** So a call that gives no event has left nothing unsaid: no event was
      waiting, and no look that only added to a file showed a new record. */
  lemma SilenceMeansNothingNew<V, E>(parser: Parser<V, E>, s: State<E>, rounds: seq<nat -> Look>, r: nat, i: nat)
    requires s.status == [] && !s.closed && Next(parser, s, rounds).1.None? && Sound(parser, s)
    requires r < |rounds| && i < |s.transcripts|
    ensures var t := TailAfter(parser, s.transcripts, rounds[..r], i);
            && t.pending == []
            && (Extends(t, rounds[r](i)) && rounds[r](i).Reads? ==>
                  EventsIn(parser, rounds[r](i).content) == EventsIn(parser, t.history.current))
  {
    var _, _ := NextPollsAll(parser, s, rounds);
    assert OutcomeAt(parser, s.transcripts, rounds, r, i).Quiet?;
    TailAfterInStep(parser, s.transcripts[i].tail, LooksOf(rounds[..r], i));
    EmitsExactlyWhen(parser, TailAfter(parser, s.transcripts, rounds[..r], i), rounds[r](i));
  }
}

/** Discovery of the newest transcripts of a directory tree, `claude_observer.rs`:
    the walk keeps a sorted list of at most `maxFiles` candidates as it goes. */
module TranscriptDiscovery {
  import opened Sequences
  import opened StableSort
  import opened Wrappers

  datatype Candidate = Candidate(path: string, modifiedAt: nat)

  /** A directory entry as the walk finds it. A `Vanished` entry is one whose
      listing, type, metadata or modification time could not be read. */
  datatype Entry =
    | Vanished
    | Other
    | File(path: string, extension: Option<string>, modifiedAt: Option<nat>)
    | Directory(readable: bool, listing: seq<Entry>)

  datatype Root =
    | Missing
    | NotADirectory
    | Tree(listing: Option<seq<Entry>>)

  datatype DiscoveryError = NotFound | InvalidInput | Unreadable

  /** Newest first. */
  predicate Newer(a: Candidate, b: Candidate) {
    a.modifiedAt >= b.modifiedAt
  }

  function VisitedFirst(entries: seq<Entry>): seq<Candidate>
    requires entries != []
    decreases entries, 0
  {
    match entries[0]
    case Vanished => []
    case Other => []
    case File(path, extension, modifiedAt) =>
      if extension == Some("jsonl") && modifiedAt.Some? then [Candidate(path, modifiedAt.value)] else []
    case Directory(readable, listing) => if readable then Visited(listing) else []
  }

  /** The candidates of a tree, in the order the walk meets them. */
  function Visited(entries: seq<Entry>): seq<Candidate> {
    if entries == [] then [] else VisitedFirst(entries) + Visited(entries[1..])
  }

  /** The first `k` of the stable newest-first sort: the reference meaning. */
  function Newest(k: nat, candidates: seq<Candidate>): seq<Candidate> {
    Take(k, Sort(Newer, candidates))
  }

  lemma NewestBounds(k: nat, candidates: seq<Candidate>)
    ensures Sorted(Newer, Newest(k, candidates)) && |Newest(k, candidates)| <= k
  {
    SortKeeps(Newer, candidates);
  }

  /** Pushing onto a truncated list, sorting and truncating again is harmless. */
  lemma NewestSnoc(k: nat, candidates: seq<Candidate>, c: Candidate)
    ensures Take(k, Sort(Newer, Newest(k, candidates) + [c])) == Newest(k, candidates + [c])
  {
    var kept := Newest(k, candidates);
    NewestBounds(k, candidates);
    SortKeeps(Newer, candidates);
    SortSnoc(Newer, kept, c);
    SortOfSorted(Newer, kept);
    SortSnoc(Newer, candidates, c);
    TakeInsert(Newer, k, c, Sort(Newer, candidates));
  }

  lemma VisitedAppend(entries: seq<Entry>, i: nat)
    requires i < |entries|
    ensures Visited(entries[..i + 1]) == Visited(entries[..i]) + VisitedFirst([entries[i]])
    decreases i
  {
    if i == 0 {
      assert entries[..1] == [entries[0]] && [entries[0]][1..] == [];
      assert Visited(entries[..1]) == VisitedFirst([entries[0]]) + Visited([]);
    } else {
      VisitedAppend(entries[1..], i - 1);
      assert entries[..i + 1][1..] == entries[1..][..i];
      assert entries[..i][1..] == entries[1..][..i - 1];
    }
  }

  /** `before` stands for whatever the walk met earlier; the list passed in and
      the list handed back are the newest of what was met so far. */
  method CollectJsonlFiles(entries: seq<Entry>, files: seq<Candidate>, maxFiles: nat, ghost before: seq<Candidate>)
    returns (collected: seq<Candidate>)
    requires files == Newest(maxFiles, before)
    ensures collected == Newest(maxFiles, before + Visited(entries))
    decreases entries
  {
    collected := files;
    ghost var met := before;
    for i := 0 to |entries|
      invariant met == before + Visited(entries[..i])
      invariant collected == Newest(maxFiles, met)
    {
      VisitedAppend(entries, i);
      ghost var next := met + VisitedFirst([entries[i]]);
      assert next == before + Visited(entries[..i + 1]);
      assert met + [] == met;
      match entries[i] {
        case Vanished =>
        case Other =>
        case Directory(readable, listing) =>
          if readable {
            collected := CollectJsonlFiles(listing, collected, maxFiles, met);
          }
        case File(path, extension, modifiedAt) =>
          if extension == Some("jsonl") && modifiedAt.Some? {
            var candidate := Candidate(path, modifiedAt.value);
            NewestSnoc(maxFiles, met, candidate);
            collected := Sort(Newer, collected + [candidate]);
            if |collected| > maxFiles {
              collected := collected[..maxFiles];
            }
          }
      }
      met := next;
    }
    assert entries[..|entries|] == entries;
  }

  /** Streaming top-k: over any tree the walk returns the first `maxFiles` of
      the stable newest-first sort of everything it met. */
  method DiscoverTranscriptFiles(root: Root, maxFiles: nat) returns (r: Result<seq<string>, DiscoveryError>)
    ensures root.Missing? ==> r == Err(NotFound)
    ensures root.NotADirectory? ==> r == Err(InvalidInput)
    ensures root == Tree(None) ==> r == Err(Unreadable)
    ensures root.Tree? && root.listing.Some? ==>
              r == Ok(Map((c: Candidate) => c.path, Newest(maxFiles, Visited(root.listing.value))))
  {
    match root
    case Missing => r := Err(NotFound);
    case NotADirectory => r := Err(InvalidInput);
    case Tree(None) => r := Err(Unreadable);
    case Tree(Some(listing)) =>
      assert Newest(maxFiles, []) == [];
      var files := CollectJsonlFiles(listing, [], maxFiles, []);
      assert [] + Visited(listing) == Visited(listing);
      r := Ok(Map((c: Candidate) => c.path, files));
  }

  // Which files are met.

  predicate IsTranscript(e: Entry, c: Candidate) {
    e.File? && e.extension == Some("jsonl") && e.modifiedAt == Some(c.modifiedAt) && e.path == c.path
  }

  /** Entry after entry, the route leads through directories that can be read to this transcript. */
  ghost predicate Leads(entries: seq<Entry>, route: seq<nat>, c: Candidate)
    decreases route
  {
    && route != [] && route[0] < |entries|
    && match entries[route[0]]
       case Directory(readable, listing) => readable && Leads(listing, route[1..], c)
       case File(_, _, _) => |route| == 1 && IsTranscript(entries[route[0]], c)
       case _ => false
  }

  lemma RouteBehind(entries: seq<Entry>, route: seq<nat>, c: Candidate)
    requires route != [] && entries != []
    ensures Leads(entries[1..], route, c) ==> Leads(entries, [route[0] + 1] + route[1..], c)
    ensures route[0] > 0 && Leads(entries, route, c) ==> Leads(entries[1..], [route[0] - 1] + route[1..], c)
  {
    assert ([route[0] + 1] + route[1..])[1..] == route[1..];
    if route[0] > 0 {
      assert ([route[0] - 1] + route[1..])[1..] == route[1..];
    }
  }

  lemma {:induction false} RouteTo(entries: seq<Entry>, c: Candidate) returns (route: seq<nat>)
    requires c in Visited(entries)
    ensures Leads(entries, route, c)
    decreases entries
  {
    if c in VisitedFirst(entries) {
      match entries[0]
      case File(_, _, _) => route := [0];
      case Directory(_, listing) =>
        var rest := RouteTo(listing, c);
        route := [0] + rest;
        assert route[1..] == rest;
      case _ =>
    } else {
      var behind := RouteTo(entries[1..], c);
      RouteBehind(entries, behind, c);
      route := [behind[0] + 1] + behind[1..];
    }
  }

  lemma {:induction false} RouteIsVisited(entries: seq<Entry>, route: seq<nat>, c: Candidate)
    requires Leads(entries, route, c)
    ensures c in Visited(entries)
    decreases entries
  {
    if route[0] > 0 {
      RouteBehind(entries, route, c);
      RouteIsVisited(entries[1..], [route[0] - 1] + route[1..], c);
    } else if entries[0].Directory? {
      RouteIsVisited(entries[0].listing, route[1..], c);
    }
  }

  ghost predicate IsMet(entries: seq<Entry>, c: Candidate) {
    exists route :: Leads(entries, route, c)
  }

  /** The walk meets exactly the transcripts that a route through readable directories leads to. */
  lemma VisitedExactlyWhen(entries: seq<Entry>, c: Candidate)
    ensures c in Visited(entries) <==> IsMet(entries, c)
  {
    if c in Visited(entries) {
      var route := RouteTo(entries, c);
      assert Leads(entries, route, c);
    }
    if IsMet(entries, c) {
      var route :| Leads(entries, route, c);
      RouteIsVisited(entries, route, c);
    }
  }

  /** No two routes lead to the same path. */
  ghost predicate IsTree(entries: seq<Entry>) {
    forall r, q, c, d | Leads(entries, r, c) && Leads(entries, q, d) && c.path == d.path :: r == q
  }

  predicate PathsDiffer(candidates: seq<Candidate>) {
    forall i, j | 0 <= i < j < |candidates| :: candidates[i].path != candidates[j].path
  }

  lemma TreeBehind(entries: seq<Entry>)
    requires IsTree(entries) && entries != []
    ensures IsTree(entries[1..])
  {
    forall r, q, c, d | Leads(entries[1..], r, c) && Leads(entries[1..], q, d) && c.path == d.path ensures r == q {
      RouteBehind(entries, r, c);
      RouteBehind(entries, q, d);
      var r', q' := [r[0] + 1] + r[1..], [q[0] + 1] + q[1..];
      assert r' == q';
      assert r'[0] == q'[0] && r'[1..] == r[1..] && q'[1..] == q[1..];
      assert r == [r[0]] + r[1..] && q == [q[0]] + q[1..];
    }
  }

  lemma TreeWithin(entries: seq<Entry>)
    requires IsTree(entries) && entries != [] && entries[0].Directory? && entries[0].readable
    ensures IsTree(entries[0].listing)
  {
    var listing := entries[0].listing;
    forall r, q, c, d | Leads(listing, r, c) && Leads(listing, q, d) && c.path == d.path ensures r == q {
      var r', q' := [0] + r, [0] + q;
      assert r'[1..] == r && q'[1..] == q;
      assert Leads(entries, r', c) && Leads(entries, q', d);
    }
  }

  lemma {:induction false} FirstAndBehindDiffer(entries: seq<Entry>, c: Candidate, d: Candidate)
    requires IsTree(entries) && entries != []
    requires c in VisitedFirst(entries) && d in Visited(entries[1..])
    ensures c.path != d.path
  {
    var q := RouteTo(entries[1..], d);
    RouteBehind(entries, q, d);
    var q' := [q[0] + 1] + q[1..];
    assert q'[0] > 0;
    match entries[0]
    case File(_, _, _) => assert Leads(entries, [0], c);
    case Directory(_, listing) =>
      var r := RouteTo(listing, c);
      var r' := [0] + r;
      assert r'[1..] == r;
      assert Leads(entries, r', c) && r'[0] == 0;
    case _ =>
  }

  /** No transcript of a tree is met twice. */
  lemma {:induction false} EachIsMetOnce(entries: seq<Entry>)
    requires IsTree(entries)
    ensures PathsDiffer(Visited(entries))
    decreases entries
  {
    if entries != [] {
      TreeBehind(entries);
      EachIsMetOnce(entries[1..]);
      if entries[0].Directory? && entries[0].readable {
        TreeWithin(entries);
        EachIsMetOnce(entries[0].listing);
      }
      var first, behind := VisitedFirst(entries), Visited(entries[1..]);
      forall c, d | c in first && d in behind ensures c.path != d.path {
        FirstAndBehindDiffer(entries, c, d);
      }
      assert PathsDiffer(first);
      var all := first + behind;
      forall i, j | 0 <= i < j < |all| ensures all[i].path != all[j].path {
        assert i < |first| ==> all[i] in first;
        assert j >= |first| ==> all[j] in behind;
      }
    }
  }

  /** What is kept was met, and comes newest first, ties as they were met. */
  lemma NewestComesFirst(k: nat, candidates: seq<Candidate>)
    ensures multiset(Newest(k, candidates)) <= multiset(candidates)
    ensures var kept := Newest(k, candidates);
            forall i, j | 0 <= i < j < |kept| :: kept[i].modifiedAt >= kept[j].modifiedAt
    ensures |Newest(k, candidates)| == if k < |candidates| then k else |candidates|
  {
    var sorted, kept := Sort(Newer, candidates), Newest(k, candidates);
    SortKeeps(Newer, candidates);
    NewestBounds(k, candidates);
    if k < |sorted| {
      assert sorted == sorted[..k] + sorted[k..];
    }
    forall i, j | 0 <= i < j < |kept| ensures kept[i].modifiedAt >= kept[j].modifiedAt {
      assert Newer(kept[i], kept[j]);
    }
  }

  /** What the reference meaning gives: nothing left out is newer than anything
      kept, and as many are kept as fit. */
  lemma NothingNewerIsLeftOut(k: nat, candidates: seq<Candidate>, kept: Candidate, left: Candidate)
    requires kept in Newest(k, candidates)
    requires multiset(Newest(k, candidates))[left] < multiset(candidates)[left]
    ensures kept.modifiedAt >= left.modifiedAt
    ensures |Newest(k, candidates)| == k
  {
    var sorted := Sort(Newer, candidates);
    SortKeeps(Newer, candidates);
    if |sorted| > k {
      assert sorted == sorted[..k] + sorted[k..];
      assert left in multiset(sorted[k..]);
      assert left in sorted[k..];
      var j :| k <= j < |sorted| && sorted[j] == left;
      var i :| 0 <= i < k && sorted[i] == kept;
      assert Newer(sorted[i], sorted[j]);
    }
  }
}

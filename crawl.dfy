/**
 * The crawl orchestrator `crawl`.
 *
 * For each star-range qualifier, in table order, the crawler starts from a
 * null cursor and fetches page after page.  A failed fetch is retried with
 * the same qualifier and cursor; a page is written to the table, counted,
 * and its end cursor becomes the next cursor; a page without a next page
 * ends the qualifier.
 *
 * The search endpoint is a scripted oracle: the k-th fetch of the run gets
 * the k-th scripted response.  A script that runs out stands for an upstream
 * that would keep the real crawler fetching; the run then stops as
 * `Unfinished`.  `Walk` is the run as a function, following the two loops of
 * the crawler; the method `Crawl` is proved to compute it, and the lemmas
 * below state what every run does.
 */
module Crawl {
  import opened Wrappers
  import opened Repositories
  import StarRanges

  /** The opaque `endCursor` token of the search API. */
  type Cursor = string

  /** What one call of `fetch_repos` produces. */
  datatype Response =
    | Fail        // a non-200 status, or a 200 whose `data.search` is null: the call returns None
    | Raises      // any exception out of the call: a transport error or timeout of the POST,
                  // a body that is not JSON, a 200 whose `data` is missing or null or lacks
                  // `search`; nothing catches it, so it ends the run
    | Page(edges: seq<Edge>, endCursor: Option<Cursor>, hasNextPage: bool)

  /** One fetch: the position of the qualifier in the table, the qualifier, the cursor. */
  datatype Request = Request(part: nat, filter: string, cursor: Option<Cursor>)

  /** One committed write: the partition, its `page_count` after the page, the edges. */
  datatype Write = Write(part: nat, page: nat, edges: seq<Edge>)

  datatype Outcome =
    | Finished      // every qualifier reached a page without a next page
    | FetchRaised   // an exception raised out of `fetch_repos` ended the run
    | WriteRaised   // a storage error raised out of the run
    | Unfinished    // the scripted upstream ran out first

  /** The qualifiers, the scripted responses, the scripted storage faults and the clock at the start. */
  datatype Env = Env(ranges: seq<string>, script: seq<Response>, faults: seq<Option<nat>>, clock0: nat)

  /** A whole run: how it ended, every fetch issued, every write committed. */
  datatype Trace = Trace(outcome: Outcome, requests: seq<Request>, writes: seq<Write>)

  /**
   * The run from the top of the inner loop: qualifier `part`, cursor
   * `cursor`, `pageCount` pages so far in this partition, `requests` issued
   * and `writes` committed so far.  The next fetch is answered by
   * `script[|requests|]`.
   */
  function Walk(env: Env, part: nat, cursor: Option<Cursor>, pageCount: nat,
                requests: seq<Request>, writes: seq<Write>): (tr: Trace)
    requires part <= |env.ranges|
    ensures |requests| <= |tr.requests| && tr.requests[..|requests|] == requests
    ensures |requests| <= |env.script| ==> |tr.requests| <= |env.script|
    decreases |env.script| - |requests|
  {
    if part == |env.ranges| then Trace(Finished, requests, writes)
    else if |requests| >= |env.script| then Trace(Unfinished, requests, writes)
    else
      var issued := requests + [Request(part, env.ranges[part], cursor)];
      match env.script[|requests|]
      case Fail => Walk(env, part, cursor, pageCount, issued, writes)
      case Raises => Trace(FetchRaised, issued, writes)
      case Page(edges, endCursor, hasNextPage) =>
        if FaultAt(env.faults, env.clock0 + |writes|).Some? then Trace(WriteRaised, issued, writes)
        else
          var written := writes + [Write(part, pageCount + 1, edges)];
          if hasNextPage then Walk(env, part, endCursor, pageCount + 1, issued, written)
          else Walk(env, part + 1, None, 0, issued, written)
  }

  /** A run of `crawl` from the first qualifier: at most one fetch per scripted response. */
  function Run(env: Env): (tr: Trace)
    ensures |tr.requests| <= |env.script|
  {
    Walk(env, 0, None, 0, [], [])
  }

  // ---------------------------------------------------------------------
  // What a run must look like
  // ---------------------------------------------------------------------

  /**
   * After a fetch `prev` answered by `resp`, the next fetch is for partition
   * `nextPart` with cursor `nextCursor`: a failure retries the same fetch, a
   * page with a next page moves to its end cursor, a last page moves to the
   * next partition with a null cursor, and an exception ends the run.
   */
  predicate Follows(prev: Request, resp: Response, nextPart: nat, nextCursor: Option<Cursor>) {
    match resp
    case Fail => nextPart == prev.part && nextCursor == prev.cursor
    case Raises => false
    case Page(_, endCursor, hasNextPage) =>
      if hasNextPage then nextPart == prev.part && nextCursor == endCursor
      else nextPart == prev.part + 1 && nextCursor == None
  }

  /** Every fetch names a qualifier of the table by its position. */
  predicate WellFormed(ranges: seq<string>, requests: seq<Request>) {
    forall k :: 0 <= k < |requests| ==> requests[k].part < |ranges| && requests[k].filter == ranges[requests[k].part]
  }

  /** Each fetch but the last is followed by the fetch its response calls for. */
  predicate Chained(script: seq<Response>, requests: seq<Request>)
    requires |requests| <= |script|
  {
    forall k :: 0 <= k < |requests| - 1 ==>
      Follows(requests[k], script[k], requests[k + 1].part, requests[k + 1].cursor)
  }

  /** The number of pages served to partition `p` by the fetches `requests`. */
  function PageCount(requests: seq<Request>, script: seq<Response>, p: nat): nat
    requires |requests| <= |script|
  {
    if requests == [] then 0
    else
      var k := |requests| - 1;
      PageCount(requests[..k], script, p) + if script[k].Page? && requests[k].part == p then 1 else 0
  }

  /** The writes the pages served to `requests` call for, each numbered within its partition. */
  function Served(requests: seq<Request>, script: seq<Response>): seq<Write>
    requires |requests| <= |script|
  {
    if requests == [] then []
    else
      var k := |requests| - 1;
      Served(requests[..k], script) +
        match script[k]
        case Page(edges, _, _) => [Write(requests[k].part, PageCount(requests, script, requests[k].part), edges)]
        case _ => []
  }

  /** The number of edges carried by the pages among `responses`. */
  function EdgesServed(responses: seq<Response>): nat {
    if responses == [] then 0
    else
      var k := |responses| - 1;
      EdgesServed(responses[..k]) + if responses[k].Page? then |responses[k].edges| else 0
  }

  /** The number of edges the writes carry: the crawler's `total_repos`. */
  function SumEdges(writes: seq<Write>): nat {
    if writes == [] then 0 else SumEdges(writes[..|writes| - 1]) + |writes[|writes| - 1].edges|
  }

  /** The number of fetches whose page was committed. */
  function Committed(tr: Trace): nat {
    if tr.outcome == WriteRaised && tr.requests != [] then |tr.requests| - 1 else |tr.requests|
  }

  /** The properties every run has. */
  predicate Sound(env: Env, tr: Trace) {
    && |tr.requests| <= |env.script|
    && WellFormed(env.ranges, tr.requests)
    && (tr.requests != [] ==> tr.requests[0].part == 0 && tr.requests[0].cursor == None)
    && Chained(env.script, tr.requests)
    && tr.writes == Served(tr.requests[..Committed(tr)], env.script)
    && (tr.outcome == Finished ==>
          if tr.requests == [] then env.ranges == []
          else
            var k := |tr.requests| - 1;
            tr.requests[k].part == |env.ranges| - 1 && env.script[k].Page? && !env.script[k].hasNextPage)
    && (tr.outcome == Unfinished ==>
          && |tr.requests| == |env.script|
          && (tr.requests == [] ==> env.ranges != [])
          && (tr.requests != [] ==>
                var k := |tr.requests| - 1;
                && env.script[k] != Raises
                && !(env.script[k].Page? && !env.script[k].hasNextPage && tr.requests[k].part + 1 == |env.ranges|)))
    && (tr.outcome == FetchRaised ==> tr.requests != [] && env.script[|tr.requests| - 1] == Raises)
    && (tr.outcome == WriteRaised ==>
          && tr.requests != [] && env.script[|tr.requests| - 1].Page?
          && FaultAt(env.faults, env.clock0 + |tr.writes|).Some?)
  }

  /** The state at the top of the inner loop that a run can reach. */
  predicate Reachable(env: Env, part: nat, cursor: Option<Cursor>, pageCount: nat,
                      requests: seq<Request>, writes: seq<Write>)
  {
    && part <= |env.ranges|
    && |requests| <= |env.script|
    && WellFormed(env.ranges, requests)
    && (requests != [] ==> requests[0].part == 0 && requests[0].cursor == None)
    && Chained(env.script, requests)
    && (requests == [] ==> part == 0 && cursor == None)
    && (requests != [] ==>
          Follows(requests[|requests| - 1], env.script[|requests| - 1], part, cursor))
    && (forall k :: 0 <= k < |requests| ==> requests[k].part <= part)
    && writes == Served(requests, env.script)
    && pageCount == PageCount(requests, env.script, part)
  }

  lemma {:induction false} PageCountAbsent(requests: seq<Request>, script: seq<Response>, p: nat)
    requires |requests| <= |script|
    requires forall k :: 0 <= k < |requests| ==> requests[k].part < p
    ensures PageCount(requests, script, p) == 0
  {
    if requests != [] {
      PageCountAbsent(requests[..|requests| - 1], script, p);
    }
  }

  /** Issuing one more fetch from a reachable state keeps the fetches well formed and chained. */
  lemma Issue(env: Env, part: nat, cursor: Option<Cursor>, pageCount: nat,
              requests: seq<Request>, writes: seq<Write>)
    requires Reachable(env, part, cursor, pageCount, requests, writes)
    requires part < |env.ranges| && |requests| < |env.script|
    ensures var issued := requests + [Request(part, env.ranges[part], cursor)];
      && WellFormed(env.ranges, issued)
      && issued[0].part == 0 && issued[0].cursor == None
      && Chained(env.script, issued)
      && issued[..|requests|] == requests
      && (forall k :: 0 <= k < |issued| ==> issued[k].part <= part)
  {
    var issued := requests + [Request(part, env.ranges[part], cursor)];
    assert issued[..|requests|] == requests;
    forall k | 0 <= k < |issued| - 1
      ensures Follows(issued[k], env.script[k], issued[k + 1].part, issued[k + 1].cursor)
    {
      assert issued[k] == requests[k];
      if k < |requests| - 1 {
        assert issued[k + 1] == requests[k + 1];
      }
    }
  }

  /** A failed fetch leads back to the top of the inner loop with nothing but the fetch added. */
  lemma StepFail(env: Env, part: nat, cursor: Option<Cursor>, pageCount: nat,
                 requests: seq<Request>, writes: seq<Write>)
    requires Reachable(env, part, cursor, pageCount, requests, writes)
    requires part < |env.ranges| && |requests| < |env.script| && env.script[|requests|] == Fail
    ensures Reachable(env, part, cursor, pageCount, requests + [Request(part, env.ranges[part], cursor)], writes)
  {
    var issued := requests + [Request(part, env.ranges[part], cursor)];
    Issue(env, part, cursor, pageCount, requests, writes);
    assert issued[..|issued| - 1] == requests;
  }

  /** A committed page leads to the top of the inner loop, in this partition or the next. */
  lemma StepPage(env: Env, part: nat, cursor: Option<Cursor>, pageCount: nat,
                 requests: seq<Request>, writes: seq<Write>)
    requires Reachable(env, part, cursor, pageCount, requests, writes)
    requires part < |env.ranges| && |requests| < |env.script| && env.script[|requests|].Page?
    ensures var page := env.script[|requests|];
      var issued := requests + [Request(part, env.ranges[part], cursor)];
      var written := writes + [Write(part, pageCount + 1, page.edges)];
      if page.hasNextPage then Reachable(env, part, page.endCursor, pageCount + 1, issued, written)
      else Reachable(env, part + 1, None, 0, issued, written)
  {
    var page := env.script[|requests|];
    var issued := requests + [Request(part, env.ranges[part], cursor)];
    var written := writes + [Write(part, pageCount + 1, page.edges)];
    Issue(env, part, cursor, pageCount, requests, writes);
    assert issued[..|issued| - 1] == requests;
    assert written == Served(issued, env.script);
    if !page.hasNextPage {
      PageCountAbsent(issued, env.script, part + 1);
    }
  }

  /** A run that stops at the top of the inner loop (all qualifiers done, or script spent) is sound. */
  lemma StopSound(env: Env, part: nat, cursor: Option<Cursor>, pageCount: nat,
                  requests: seq<Request>, writes: seq<Write>, outcome: Outcome)
    requires Reachable(env, part, cursor, pageCount, requests, writes)
    requires outcome == Finished ==> part == |env.ranges|
    requires outcome == Unfinished ==> part < |env.ranges| && |requests| == |env.script|
    requires outcome == Finished || outcome == Unfinished
    ensures Walk(env, part, cursor, pageCount, requests, writes) == Trace(outcome, requests, writes)
    ensures Sound(env, Walk(env, part, cursor, pageCount, requests, writes))
  {
    assert requests[..|requests|] == requests;
  }

  /** A run that raises on the fetch just issued is sound. */
  lemma RaiseSound(env: Env, part: nat, cursor: Option<Cursor>, pageCount: nat,
                   requests: seq<Request>, writes: seq<Write>, outcome: Outcome)
    requires Reachable(env, part, cursor, pageCount, requests, writes)
    requires part < |env.ranges| && |requests| < |env.script|
    requires outcome == FetchRaised ==> env.script[|requests|] == Raises
    requires outcome == WriteRaised ==>
      env.script[|requests|].Page? && FaultAt(env.faults, env.clock0 + |writes|).Some?
    requires outcome == FetchRaised || outcome == WriteRaised
    ensures Walk(env, part, cursor, pageCount, requests, writes) ==
      Trace(outcome, requests + [Request(part, env.ranges[part], cursor)], writes)
    ensures Sound(env, Walk(env, part, cursor, pageCount, requests, writes))
  {
    var issued := requests + [Request(part, env.ranges[part], cursor)];
    Issue(env, part, cursor, pageCount, requests, writes);
    assert issued[..|issued| - 1] == requests;
    if outcome == FetchRaised {
      assert issued[..|issued|] == issued;
      assert Served(issued, env.script) == Served(requests, env.script);
    }
  }

  lemma {:induction false} WalkSound(env: Env, part: nat, cursor: Option<Cursor>, pageCount: nat,
                                     requests: seq<Request>, writes: seq<Write>)
    requires Reachable(env, part, cursor, pageCount, requests, writes)
    ensures Sound(env, Walk(env, part, cursor, pageCount, requests, writes))
    decreases |env.script| - |requests|, 2
  {
    if part == |env.ranges| {
      StopSound(env, part, cursor, pageCount, requests, writes, Finished);
    } else if |requests| >= |env.script| {
      StopSound(env, part, cursor, pageCount, requests, writes, Unfinished);
    } else if env.script[|requests|] == Fail {
      WalkSoundFail(env, part, cursor, pageCount, requests, writes);
    } else if env.script[|requests|] == Raises {
      RaiseSound(env, part, cursor, pageCount, requests, writes, FetchRaised);
    } else if FaultAt(env.faults, env.clock0 + |writes|).Some? {
      RaiseSound(env, part, cursor, pageCount, requests, writes, WriteRaised);
    } else {
      WalkSoundPage(env, part, cursor, pageCount, requests, writes);
    }
  }

  lemma {:induction false} WalkSoundFail(env: Env, part: nat, cursor: Option<Cursor>, pageCount: nat,
                                         requests: seq<Request>, writes: seq<Write>)
    requires Reachable(env, part, cursor, pageCount, requests, writes)
    requires part < |env.ranges| && |requests| < |env.script| && env.script[|requests|] == Fail
    ensures Sound(env, Walk(env, part, cursor, pageCount, requests, writes))
    decreases |env.script| - |requests|, 1
  {
    StepFail(env, part, cursor, pageCount, requests, writes);
    WalkSound(env, part, cursor, pageCount, requests + [Request(part, env.ranges[part], cursor)], writes);
  }

  /** One committed page of `Walk`: the run goes on from the next top of the inner loop. */
  lemma WalkPage(env: Env, part: nat, cursor: Option<Cursor>, pageCount: nat,
                 requests: seq<Request>, writes: seq<Write>)
    requires part < |env.ranges| && |requests| < |env.script| && env.script[|requests|].Page?
    requires FaultAt(env.faults, env.clock0 + |writes|).None?
    ensures var page := env.script[|requests|];
      var issued := requests + [Request(part, env.ranges[part], cursor)];
      var written := writes + [Write(part, pageCount + 1, page.edges)];
      Walk(env, part, cursor, pageCount, requests, writes) ==
        if page.hasNextPage then Walk(env, part, page.endCursor, pageCount + 1, issued, written)
        else Walk(env, part + 1, None, 0, issued, written)
  {
  }

  lemma {:induction false} WalkSoundPage(env: Env, part: nat, cursor: Option<Cursor>, pageCount: nat,
                                         requests: seq<Request>, writes: seq<Write>)
    requires Reachable(env, part, cursor, pageCount, requests, writes)
    requires part < |env.ranges| && |requests| < |env.script| && env.script[|requests|].Page?
    requires FaultAt(env.faults, env.clock0 + |writes|).None?
    ensures Sound(env, Walk(env, part, cursor, pageCount, requests, writes))
    decreases |env.script| - |requests|, 1
  {
    var page := env.script[|requests|];
    var issued := requests + [Request(part, env.ranges[part], cursor)];
    var written := writes + [Write(part, pageCount + 1, page.edges)];
    StepPage(env, part, cursor, pageCount, requests, writes);
    WalkPage(env, part, cursor, pageCount, requests, writes);
    if page.hasNextPage {
      WalkSound(env, part, page.endCursor, pageCount + 1, issued, written);
    } else {
      WalkSound(env, part + 1, None, 0, issued, written);
    }
  }

  /** The first `n` transactions of the run, begun at `clock0` onwards, meet no storage fault. */
  predicate FaultFree(env: Env, n: nat) {
    forall i :: env.clock0 <= i < env.clock0 + n ==> FaultAt(env.faults, i).None?
  }

  /** `Walk` commits a page only when its transaction meets no fault: a write error ends the run. */
  lemma {:induction false} WalkFaultFree(env: Env, part: nat, cursor: Option<Cursor>, pageCount: nat,
                                         requests: seq<Request>, writes: seq<Write>)
    requires part <= |env.ranges|
    requires FaultFree(env, |writes|)
    ensures FaultFree(env, |Walk(env, part, cursor, pageCount, requests, writes).writes|)
    decreases |env.script| - |requests|
  {
    if part < |env.ranges| && |requests| < |env.script| {
      var issued := requests + [Request(part, env.ranges[part], cursor)];
      match env.script[|requests|]
      case Fail =>
        WalkFaultFree(env, part, cursor, pageCount, issued, writes);
      case Raises =>
      case Page(edges, endCursor, hasNextPage) =>
        if FaultAt(env.faults, env.clock0 + |writes|).None? {
          var written := writes + [Write(part, pageCount + 1, edges)];
          assert FaultFree(env, |written|);
          if hasNextPage {
            WalkFaultFree(env, part, endCursor, pageCount + 1, issued, written);
          } else {
            WalkFaultFree(env, part + 1, None, 0, issued, written);
          }
        }
    }
  }

  /**
   * Every run has the properties of `Sound`, and every page it commits was
   * written by a transaction that met no fault: the first write error ends
   * the run (as `WriteRaised`).
   */
  lemma RunSound(env: Env)
    ensures Sound(env, Run(env))
    ensures FaultFree(env, |Run(env).writes|)
  {
    WalkSound(env, 0, None, 0, [], []);
    WalkFaultFree(env, 0, None, 0, [], []);
  }

  // ---------------------------------------------------------------------
  // The properties of a run, one by one
  // ---------------------------------------------------------------------

  /** The first fetch of a run is for the first qualifier, from a null cursor. */
  lemma RunStartsAtFirstRange(env: Env)
    requires Run(env).requests != []
    ensures Run(env).requests[0] == Request(0, env.ranges[0], None)
  {
    RunSound(env);
  }

  /** A failed fetch is retried with the identical qualifier and cursor. */
  lemma RunRetriesFailure(env: Env, k: nat)
    requires k + 1 < |Run(env).requests|
    requires env.script[k] == Fail
    ensures Run(env).requests[k + 1] == Run(env).requests[k]
    ensures Served(Run(env).requests[..k + 1], env.script) == Served(Run(env).requests[..k], env.script)
  {
    var rs := Run(env).requests;
    RunSound(env);
    assert rs[..k + 1][..k] == rs[..k];
  }

  /** After a page with a next page, the same qualifier is fetched from that page's end cursor. */
  lemma RunAdvancesCursor(env: Env, k: nat)
    requires k + 1 < |Run(env).requests|
    requires env.script[k].Page? && env.script[k].hasNextPage
    ensures Run(env).requests[k + 1] == Run(env).requests[k].(cursor := env.script[k].endCursor)
  {
    RunSound(env);
  }

  /** After a page without a next page, the next qualifier of the table is fetched from a null cursor. */
  lemma RunNextRangeFresh(env: Env, k: nat)
    requires k + 1 < |Run(env).requests|
    requires env.script[k].Page? && !env.script[k].hasNextPage
    ensures var p := Run(env).requests[k].part;
      p + 1 < |env.ranges| && Run(env).requests[k + 1] == Request(p + 1, env.ranges[p + 1], None)
  {
    RunSound(env);
  }

  /** Only the last fetch of a run can raise: an exception out of `fetch_repos` ends the crawl. */
  lemma RunRaisesLast(env: Env, k: nat)
    requires k + 1 < |Run(env).requests|
    ensures env.script[k] != Raises
  {
    RunSound(env);
    assert Follows(Run(env).requests[k], env.script[k], Run(env).requests[k + 1].part, Run(env).requests[k + 1].cursor);
  }

  /** Partitions are fetched in table order: the partition of a fetch never goes back. */
  lemma {:induction false} RunRangesInOrder(env: Env, j: nat, k: nat)
    requires j <= k < |Run(env).requests|
    ensures Run(env).requests[j].part <= Run(env).requests[k].part
    decreases k - j
  {
    if j < k {
      RunSound(env);
      RunRangesInOrder(env, j, k - 1);
    }
  }

  /** Once a partition has served its last page, it is never fetched again. */
  lemma RunClosedRangeStaysClosed(env: Env, k: nat, j: nat)
    requires k < j < |Run(env).requests|
    requires env.script[k].Page? && !env.script[k].hasNextPage
    ensures Run(env).requests[j].part > Run(env).requests[k].part
  {
    RunSound(env);
    RunRangesInOrder(env, k + 1, j);
  }

  lemma {:induction false} PageCountFrozen(env: Env, k: nat, n: nat)
    requires k < n <= |Run(env).requests|
    requires env.script[k].Page? && !env.script[k].hasNextPage
    ensures PageCount(Run(env).requests[..n], env.script, Run(env).requests[k].part) ==
            PageCount(Run(env).requests[..k + 1], env.script, Run(env).requests[k].part)
  {
    var rs := Run(env).requests;
    RunSound(env);
    if n > k + 1 {
      assert rs[..n][..n - 1] == rs[..n - 1];
      RunClosedRangeStaysClosed(env, k, n - 1);
      PageCountFrozen(env, k, n - 1);
    }
  }

  /** The writes for partition `p`, in order. */
  function WritesOf(writes: seq<Write>, p: nat): seq<Write> {
    if writes == [] then []
    else
      var w := writes[|writes| - 1];
      WritesOf(writes[..|writes| - 1], p) + if w.part == p then [w] else []
  }

  /** The fetches `requests` write one page for each page they serve to a partition. */
  lemma {:induction false} ServedPerPart(requests: seq<Request>, script: seq<Response>, p: nat)
    requires |requests| <= |script|
    ensures |WritesOf(Served(requests, script), p)| == PageCount(requests, script, p)
  {
    if requests != [] {
      var k := |requests| - 1;
      ServedPerPart(requests[..k], script, p);
      var before := Served(requests[..k], script);
      if script[k].Page? {
        var w := Write(requests[k].part, PageCount(requests, script, requests[k].part), script[k].edges);
        assert Served(requests, script) == before + [w];
        assert (before + [w])[..|before|] == before;
      } else {
        assert Served(requests, script) == before + [];
        assert before + [] == before;
      }
    }
  }

  /**
   * A partition whose last page is the k-th response gets exactly the pages
   * counted up to it: its write carries the partition's final page number,
   * and no later fetch serves it another page.
   */
  lemma RunPagesPerRange(env: Env, k: nat)
    requires k < Committed(Run(env))
    requires env.script[k].Page? && !env.script[k].hasNextPage
    ensures var rs := Run(env).requests;
      PageCount(rs, env.script, rs[k].part) == PageCount(rs[..k + 1], env.script, rs[k].part)
    ensures var rs := Run(env).requests;
      Served(rs[..k + 1], env.script)[|Served(rs[..k + 1], env.script)| - 1] ==
        Write(rs[k].part, PageCount(rs, env.script, rs[k].part), env.script[k].edges)
  {
    var rs := Run(env).requests;
    RunSound(env);
    assert rs[..|rs|] == rs;
    PageCountFrozen(env, k, |rs|);
    assert rs[..k + 1][..k] == rs[..k];
  }

  /** A partition whose last page is the k-th response has exactly as many committed writes as pages. */
  lemma RunWritesPerRange(env: Env, k: nat)
    requires k < Committed(Run(env))
    requires env.script[k].Page? && !env.script[k].hasNextPage
    ensures var rs := Run(env).requests;
      |WritesOf(Run(env).writes, rs[k].part)| == PageCount(rs, env.script, rs[k].part)
  {
    var rs := Run(env).requests;
    var n := Committed(Run(env));
    RunSound(env);
    assert rs[..|rs|] == rs;
    PageCountFrozen(env, k, |rs|);
    PageCountFrozen(env, k, n);
    ServedPerPart(rs[..n], env.script, rs[k].part);
  }

  lemma {:induction false} ServedEdges(requests: seq<Request>, script: seq<Response>)
    requires |requests| <= |script|
    ensures SumEdges(Served(requests, script)) == EdgesServed(script[..|requests|])
  {
    if requests != [] {
      var k := |requests| - 1;
      ServedEdges(requests[..k], script);
      assert script[..|requests|][..k] == script[..k];
      SumEdgesConcat(Served(requests[..k], script),
        match script[k]
        case Page(edges, _, _) => [Write(requests[k].part, PageCount(requests, script, requests[k].part), edges)]
        case _ => []);
    }
  }

  lemma {:induction false} SumEdgesConcat(a: seq<Write>, b: seq<Write>)
    ensures SumEdges(a + b) == SumEdges(a) + SumEdges(b)
  {
    if b == [] {
      assert a + b == a;
    } else {
      assert (a + b)[..|a + b| - 1] == a + b[..|b| - 1];
      SumEdgesConcat(a, b[..|b| - 1]);
    }
  }

  /**
   * The total a run counts is the number of edges over all pages it
   * committed: every edge counts, a repository seen on two pages counts twice.
   */
  lemma RunTotal(env: Env)
    ensures SumEdges(Run(env).writes) == EdgesServed(env.script[..Committed(Run(env))])
  {
    RunSound(env);
    var tr := Run(env);
    ServedEdges(tr.requests[..Committed(tr)], env.script);
  }

  /**
   * A first qualifier served in two pages, of two edges and then one, is
   * fetched from the null cursor and then from the first page's end cursor;
   * both pages are written and the total is 3.  The script then runs out
   * on the second qualifier.
   */
  lemma TwoPageScenario(a: Edge, b: Edge, c: Edge)
    ensures var env := Env(StarRanges.STAR_RANGES, [Page([a, b], Some("c1"), true), Page([c], Some("c2"), false)], [], 0);
      && Run(env) == Trace(Unfinished,
                           [Request(0, "stars:10..50", None), Request(0, "stars:10..50", Some("c1"))],
                           [Write(0, 1, [a, b]), Write(0, 2, [c])])
      && SumEdges(Run(env).writes) == 3
  {
    var env := Env(StarRanges.STAR_RANGES, [Page([a, b], Some("c1"), true), Page([c], Some("c2"), false)], [], 0);
    var r0, r1 := Request(0, "stars:10..50", None), Request(0, "stars:10..50", Some("c1"));
    var w0, w1 := Write(0, 1, [a, b]), Write(0, 2, [c]);
    assert [] + [r0] == [r0] && [r0] + [r1] == [r0, r1];
    assert [] + [w0] == [w0] && [w0] + [w1] == [w0, w1];
    assert Walk(env, 1, None, 0, [r0, r1], [w0, w1]) == Trace(Unfinished, [r0, r1], [w0, w1]);
    assert Walk(env, 0, Some("c1"), 1, [r0], [w0]) == Walk(env, 1, None, 0, [r0, r1], [w0, w1]);
    assert Run(env) == Walk(env, 0, Some("c1"), 1, [r0], [w0]);
    assert [w0, w1][..1] == [w0] && [w0][..0] == [];
    assert SumEdges([w0]) == 2;
    assert SumEdges([w0, w1]) == 3;
  }

  /**
   * Starting from an empty table, the two pages of that scenario, over three
   * different repositories, store exactly those three rows: each with the
   * name, owner and star count fetched, timestamped by the transaction of
   * its page.
   */
  lemma TwoPageStored(a: Edge, b: Edge, c: Edge)
    requires a.id != b.id && a.id != c.id && b.id != c.id
    ensures var env := Env(StarRanges.STAR_RANGES, [Page([a, b], Some("c1"), true), Page([c], Some("c2"), false)], [], 0);
      Commit(map[], Run(env).writes, 0) ==
        map[a.id := Row(a.name, a.owner, a.stars, 0),
            b.id := Row(b.name, b.owner, b.stars, 0),
            c.id := Row(c.name, c.owner, c.stars, 1)]
  {
    var w0, w1 := Write(0, 1, [a, b]), Write(0, 2, [c]);
    TwoPageScenario(a, b, c);
    assert [w0, w1][..1] == [w0] && [w0][..0] == [];
    assert [a, b][..1] == [a] && [a][..0] == [] && [c][..0] == [];
    var t0: Table := map[];
    var ra, rb, rc := Row(a.name, a.owner, a.stars, 0), Row(b.name, b.owner, b.stars, 0), Row(c.name, c.owner, c.stars, 1);
    assert ApplyBatch(t0, [a], 0) == Upsert(t0, a, 0) == map[a.id := ra];
    assert ApplyBatch(t0, [a, b], 0) == Upsert(map[a.id := ra], b, 0) == map[a.id := ra, b.id := rb];
    assert Commit(t0, [w0], 0) == ApplyBatch(t0, [a, b], 0);
    assert ApplyBatch(map[a.id := ra, b.id := rb], [c], 1) == map[a.id := ra, b.id := rb, c.id := rc];
    assert Commit(t0, [w0, w1], 0) == ApplyBatch(Commit(t0, [w0], 0), [c], 1);
  }

  /**
   * On the crawler's own table: the first qualifier is served one empty last
   * page, then the second qualifier's first two fetches fail.  It is fetched
   * three times with the same null cursor, and only the page of the third
   * fetch is written, as page 1 of that qualifier.  The script then runs out
   * on the third qualifier.
   */
  lemma RetryScenario(e: Edge)
    ensures var env := Env(StarRanges.STAR_RANGES, [Page([], None, false), Fail, Fail, Page([e], None, false)], [], 0);
      var r0, r1 := Request(0, "stars:10..50", None), Request(1, "stars:51..100", None);
      Run(env) == Trace(Unfinished, [r0, r1, r1, r1], [Write(0, 1, []), Write(1, 1, [e])])
  {
    var env := Env(StarRanges.STAR_RANGES, [Page([], None, false), Fail, Fail, Page([e], None, false)], [], 0);
    var r0, r1 := Request(0, "stars:10..50", None), Request(1, "stars:51..100", None);
    var w0, w1 := Write(0, 1, []), Write(1, 1, [e]);
    assert [] + [r0] == [r0] && [r0] + [r1] == [r0, r1] && [r0, r1] + [r1] == [r0, r1, r1];
    assert [r0, r1, r1] + [r1] == [r0, r1, r1, r1];
    assert [] + [w0] == [w0] && [w0] + [w1] == [w0, w1];
    assert Walk(env, 2, None, 0, [r0, r1, r1, r1], [w0, w1]) == Trace(Unfinished, [r0, r1, r1, r1], [w0, w1]);
    assert Walk(env, 1, None, 0, [r0, r1, r1], [w0]) == Walk(env, 2, None, 0, [r0, r1, r1, r1], [w0, w1]);
    assert Walk(env, 1, None, 0, [r0, r1], [w0]) == Walk(env, 1, None, 0, [r0, r1, r1], [w0]);
    assert Walk(env, 1, None, 0, [r0], [w0]) == Walk(env, 1, None, 0, [r0, r1], [w0]);
    assert Run(env) == Walk(env, 1, None, 0, [r0], [w0]);
  }

  // ---------------------------------------------------------------------
  // The table after a run
  // ---------------------------------------------------------------------

  /** All edges of the writes, in order. */
  function Flatten(writes: seq<Write>): seq<Edge> {
    if writes == [] then [] else Flatten(writes[..|writes| - 1]) + writes[|writes| - 1].edges
  }

  /** The writes of a run applied in order, the j-th at time `clock0 + j`. */
  function Commit(t: Table, writes: seq<Write>, clock0: nat): Table {
    if writes == [] then t
    else ApplyBatch(Commit(t, writes[..|writes| - 1], clock0), writes[|writes| - 1].edges, clock0 + |writes| - 1)
  }

  /**
   * Timestamps aside, the writes of a run leave the table as one batch of
   * all their edges would: so every id seen has one row, holding the last
   * star count fetched for it, and a row that existed keeps its name and owner.
   */
  lemma {:induction false} CommitAsOneBatch(t: Table, writes: seq<Write>, clock0: nat, now: nat)
    ensures Content(Commit(t, writes, clock0)) == Content(ApplyBatch(t, Flatten(writes), now))
  {
    if writes != [] {
      var init := writes[..|writes| - 1];
      var last := writes[|writes| - 1];
      CommitAsOneBatch(t, init, clock0, now);
      BatchContent(Commit(t, init, clock0), ApplyBatch(t, Flatten(init), now), last.edges,
                   clock0 + |writes| - 1, now);
      BatchConcat(t, Flatten(init), last.edges, now);
    }
  }

  /**
   * After the writes of a run, every repository they carry has one row: its
   * star count is the last one fetched, and a row that existed before keeps
   * its name and owner.
   */
  lemma CommitStoresLastSeen(t: Table, writes: seq<Write>, clock0: nat, id: RepoId)
    requires id in Ids(Flatten(writes))
    ensures id in Commit(t, writes, clock0)
    ensures Commit(t, writes, clock0)[id].stars == LastEdge(Flatten(writes), id).stars
    ensures id in t ==> Commit(t, writes, clock0)[id].name == t[id].name
    ensures id in t ==> Commit(t, writes, clock0)[id].owner == t[id].owner
  {
    var after := Commit(t, writes, clock0);
    var batch := ApplyBatch(t, Flatten(writes), 0);
    CommitAsOneBatch(t, writes, clock0, 0);
    BatchRow(t, Flatten(writes), 0, id);
    assert id in Content(batch);
    assert Content(after)[id] == Content(batch)[id];
  }

  lemma IdsConcat(a: seq<Edge>, b: seq<Edge>)
    ensures Ids(a + b) == Ids(a) + Ids(b)
  {
    forall id | id in Ids(a + b) ensures id in Ids(a) + Ids(b) {
      var e :| e in a + b && e.id == id;
      assert e in a || e in b;
    }
    forall id | id in Ids(a) + Ids(b) ensures id in Ids(a + b) {
      var e :| (e in a || e in b) && e.id == id;
      assert e in a + b;
    }
  }

  /** The writes of a run leave every repository they do not carry exactly as it was. */
  lemma {:induction false} CommitUntouched(t: Table, writes: seq<Write>, clock0: nat, id: RepoId)
    requires id !in Ids(Flatten(writes))
    ensures id in Commit(t, writes, clock0) <==> id in t
    ensures id in t ==> Commit(t, writes, clock0)[id] == t[id]
  {
    if writes != [] {
      var init := writes[..|writes| - 1];
      var last := writes[|writes| - 1];
      IdsConcat(Flatten(init), last.edges);
      CommitUntouched(t, init, clock0, id);
      BatchUntouched(Commit(t, init, clock0), last.edges, clock0 + |writes| - 1, id);
    }
  }

  // ---------------------------------------------------------------------
  // The crawler
  // ---------------------------------------------------------------------

  /** `fetch_repos` as a scripted oracle: the k-th call gets the k-th response. */
  class ScriptedFetcher {
    const script: seq<Response>
    var log: seq<Request>

    constructor (script: seq<Response>)
      ensures this.script == script && log == []
    {
      this.script := script;
      log := [];
    }

    /**
     * One call.  The out-parameter is None only once the script is spent;
     * the `None` that the real `fetch_repos` returns is the response `Fail`.
     */
    method FetchRepos(part: nat, filter: string, cursor: Option<Cursor>) returns (r: Option<Response>)
      modifies this
      ensures if |old(log)| < |script|
        then r == Some(script[|old(log)|]) && log == old(log) + [Request(part, filter, cursor)]
        else r == None && log == old(log)
    {
      if |log| < |script| {
        r := Some(script[|log|]);
        log := log + [Request(part, filter, cursor)];
      } else {
        r := None;
      }
    }
  }

  /**
   * `crawl`: walk STAR_RANGES in order, paginate each from a null cursor,
   * retry failed fetches, write and count each page.  Returns how the run
   * ended and `total_repos`.
   */
  method Crawl(db: RepositoryTable, fetcher: ScriptedFetcher) returns (outcome: Outcome, total: nat)
    requires fetcher.log == []
    modifies db, fetcher
    ensures var run := Run(Env(StarRanges.STAR_RANGES, fetcher.script, db.faults, old(db.clock)));
      && outcome == run.outcome
      && fetcher.log == run.requests
      && total == SumEdges(run.writes)
      && db.rows == Commit(old(db.rows), run.writes, old(db.clock))
      && db.clock == old(db.clock) + |run.writes| + if outcome == WriteRaised then 1 else 0
  {
    ghost var env := Env(StarRanges.STAR_RANGES, fetcher.script, db.faults, db.clock);
    ghost var writes: seq<Write> := [];
    total := 0;
    for part := 0 to |StarRanges.STAR_RANGES|
      invariant |fetcher.log| <= |fetcher.script|
      invariant Walk(env, part, None, 0, fetcher.log, writes) == Run(env)
      invariant total == SumEdges(writes)
      invariant db.rows == Commit(old(db.rows), writes, env.clock0) && db.clock == env.clock0 + |writes|
    {
      var starFilter := StarRanges.STAR_RANGES[part];
      var cursor: Option<Cursor> := None;
      var pageCount: nat := 0;
      while true
        invariant |fetcher.log| <= |fetcher.script|
        invariant Walk(env, part, cursor, pageCount, fetcher.log, writes) == Run(env)
        invariant total == SumEdges(writes)
        invariant db.rows == Commit(old(db.rows), writes, env.clock0) && db.clock == env.clock0 + |writes|
        decreases |fetcher.script| - |fetcher.log|
      {
        var result := fetcher.FetchRepos(part, starFilter, cursor);
        if result.None? {
          return Unfinished, total;
        }
        if result.value.Fail? {
          continue;
        }
        if result.value.Raises? {
          return FetchRaised, total;
        }
        var page := result.value;
        var ok := db.SaveToDb(page.edges);
        if !ok {
          return WriteRaised, total;
        }
        writes := writes + [Write(part, pageCount + 1, page.edges)];
        total := total + |page.edges|;
        pageCount := pageCount + 1;
        cursor := page.endCursor;
        if !page.hasNextPage {
          break;
        }
      }
    }
    outcome := Finished;
  }
}

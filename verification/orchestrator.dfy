/**
 * The outcome rule of the cross-repository search. Workers and channels are
 * replaced by the sequence of per-repository outcomes they produce; what is
 * modelled is how those outcomes, and the cancellation state of the shared
 * context, decide the single answer.
 */
module Orchestrator {
  import opened Wrappers
  import opened SearchTypes
  import opened Ordering
  import opened Sorting
  import opened Aggregate
  import opened RepoMatches

  /** What searching one repository produced. */
  datatype RepoOutcome = Found(batch: seq<RepoMatch>) | Failed(error: SearchError)

  /** The outcome a worker records for one repository search. */
  function OutcomeOf(r: Result<seq<RepoMatch>, SearchError>): RepoOutcome
  {
    match r
    case Ok(batch) => Found(batch)
    case Err(e) => Failed(e)
  }

  /** Some repository search failed. */
  predicate AnyFailed(outcomes: seq<RepoOutcome>)
  {
    exists o :: o in outcomes && o.Failed?
  }

  /** The matches an outcome contributes: its batch, or none for a failed search. */
  function BatchOf(o: RepoOutcome): seq<RepoMatch>
  {
    match o
    case Found(batch) => batch
    case Failed(_) => []
  }

  /**
   * The batches sent to the aggregator, one per repository in list order;
   * a failed search sends nothing, so it contributes no matches.
   */
  function Batches(outcomes: seq<RepoOutcome>): (b: seq<seq<RepoMatch>>)
    ensures |b| == |outcomes|
    ensures forall i :: 0 <= i < |outcomes| ==> b[i] == BatchOf(outcomes[i])
    ensures forall i :: 0 <= i < |outcomes| && outcomes[i].Found? ==> b[i] == outcomes[i].batch
    ensures forall i :: 0 <= i < |outcomes| && outcomes[i].Failed? ==> b[i] == []
  {
    seq(|outcomes|, i requires 0 <= i < |outcomes| => BatchOf(outcomes[i]))
  }

  /**
   * The single answer: if the context was cancelled or any repository search
   * failed, the context's cancellation error and no matches; otherwise every
   * match of every batch, sorted. A worker's own error is never returned.
   */
  function Combine(outcomes: seq<RepoOutcome>, cancelled: bool): (r: Result<seq<RepoMatch>, SearchError>)
    ensures r.Err? <==> cancelled || AnyFailed(outcomes)
    ensures r.Err? ==> r.error == Cancelled
    ensures r.Ok? ==> Sorted(r.value)
    ensures r.Ok? ==> multiset(r.value) == multiset(Flatten(Batches(outcomes)))
  {
    if cancelled || AnyFailed(outcomes) then
      Err(Cancelled)
    else
      Ok(Accumulate(Batches(outcomes)))
  }

  /** A successful answer holds exactly the matches of the repository searches. */
  lemma CombineContents(outcomes: seq<RepoOutcome>, cancelled: bool, x: RepoMatch)
    requires Combine(outcomes, cancelled).Ok?
    ensures x in Combine(outcomes, cancelled).value <==>
      exists i :: 0 <= i < |outcomes| && x in BatchOf(outcomes[i])
  {
    AccumulateContents(Batches(outcomes), x);
  }

  /** With no repositories and no cancellation the answer is empty and not an error. */
  lemma EmptyRepoListIsEmptyAnswer()
    ensures Combine([], false) == Ok([])
  {
  }

  /**
   * All or nothing: one failed repository search makes the answer the
   * cancellation error, however many others succeeded and whatever the
   * failure was.
   */
  lemma OneFailureFailsAll(outcomes: seq<RepoOutcome>, cancelled: bool, i: nat)
    requires i < |outcomes| && outcomes[i].Failed?
    ensures Combine(outcomes, cancelled) == Err(Cancelled)
  {
  }

  /**
   * The answer does not depend on which order the repository searches
   * finished in: any reordering of the outcomes gives an answer with the
   * same success or failure, the same length and the same key at every
   * position.
   */
  lemma CompletionOrderIrrelevant(o1: seq<RepoOutcome>, o2: seq<RepoOutcome>, cancelled: bool)
    requires multiset(o1) == multiset(o2)
    ensures Combine(o1, cancelled).Ok? <==> Combine(o2, cancelled).Ok?
    ensures Combine(o1, cancelled).Ok? ==>
      var r1, r2 := Combine(o1, cancelled).value, Combine(o2, cancelled).value;
      |r1| == |r2| && forall i :: 0 <= i < |r1| ==> Key(r1[i]) == Key(r2[i])
  {
    if !AnyFailed(o1) {
      NoFailureSameContents(o1, o2);
    }
    if !AnyFailed(o2) {
      NoFailureSameContents(o2, o1);
    }
    if !cancelled && !AnyFailed(o1) && !AnyFailed(o2) {
      BatchesSameContents(o1, o2);
      ArrivalOrderIrrelevant(Batches(o1), Batches(o2));
    }
  }

  /** Dropping one outcome drops exactly its batch. */
  lemma BatchesWithout(o: seq<RepoOutcome>, k: nat)
    requires k < |o|
    ensures Batches(o[..k] + o[k + 1..]) == Batches(o)[..k] + Batches(o)[k + 1..]
  {
    var rest := o[..k] + o[k + 1..];
    var b, br := Batches(o), Batches(rest);
    var expected := b[..k] + b[k + 1..];
    assert |br| == |expected|;
    forall i | 0 <= i < |br|
      ensures br[i] == expected[i]
    {
      var j := if i < k then i else i + 1;
      assert rest[i] == o[j];
      assert expected[i] == b[j];
    }
  }

  /** Failures are part of the contents: a rearrangement of failure-free outcomes is failure-free. */
  lemma NoFailureSameContents(o1: seq<RepoOutcome>, o2: seq<RepoOutcome>)
    requires multiset(o1) == multiset(o2)
    requires !AnyFailed(o1)
    ensures !AnyFailed(o2)
  {
    forall x | x in o2
      ensures x.Found?
    {
      assert x in multiset(o2);
      assert x in o1;
    }
  }

  /** Reordering the outcomes reorders their batches. */
  lemma {:induction false} BatchesSameContents(o1: seq<RepoOutcome>, o2: seq<RepoOutcome>)
    requires multiset(o1) == multiset(o2)
    ensures multiset(Batches(o1)) == multiset(Batches(o2))
    decreases |o1|
  {
    assert |o1| == |multiset(o1)| == |multiset(o2)| == |o2|;
    if |o1| > 0 {
      assert o1[0] in multiset(o2);
      var k :| 0 <= k < |o2| && o2[k] == o1[0];
      var rest1, rest2 := o1[1..], o2[..k] + o2[k + 1..];
      SameContentsWithoutHead(o1, o2, k);
      BatchesSameContents(rest1, rest2);
      var b1, b2 := Batches(o1), Batches(o2);
      assert Batches(rest1) == b1[1..] by {
        BatchesWithout(o1, 0);
        assert o1[..0] + o1[1..] == rest1;
        assert b1[..0] + b1[1..] == b1[1..];
      }
      assert Batches(rest2) == b2[..k] + b2[k + 1..] by {
        BatchesWithout(o2, k);
      }
      assert b2[k] == b1[0];
      SameContentsWithHead(b1, b2, k);
    }
  }

  /** The outcome of searching each repository, in list order. */
  function Outcomes(svc: Services, info: PatternInfo, repos: seq<string>): (o: seq<RepoOutcome>)
    ensures |o| == |repos|
    ensures forall i :: 0 <= i < |repos| ==> o[i] == OutcomeOf(SearchRepo(svc, repos[i], info))
  {
    seq(|repos|, i requires 0 <= i < |repos| => OutcomeOf(SearchRepo(svc, repos[i], info)))
  }

  /**
   * Searching a list of repositories: each repository is searched and the
   * outcomes combined. Whether the caller's context was cancelled is an input.
   */
  function SearchRepos(svc: Services, info: PatternInfo, repos: seq<string>, cancelled: bool)
    : (r: Result<seq<RepoMatch>, SearchError>)
    ensures r.Err? <==> cancelled || exists i :: 0 <= i < |repos| && SearchRepo(svc, repos[i], info).Err?
    ensures r.Err? ==> r.error == Cancelled
    ensures r.Ok? ==> Sorted(r.value)
    ensures r.Ok? ==> multiset(r.value) == multiset(Flatten(Batches(Outcomes(svc, info, repos))))
  {
    var outcomes := Outcomes(svc, info, repos);
    assert AnyFailed(outcomes) <==> exists i :: 0 <= i < |repos| && SearchRepo(svc, repos[i], info).Err? by {
      if AnyFailed(outcomes) {
        var o :| o in outcomes && o.Failed?;
        var i :| 0 <= i < |outcomes| && outcomes[i] == o;
        assert SearchRepo(svc, repos[i], info).Err?;
      }
      if exists i :: 0 <= i < |repos| && SearchRepo(svc, repos[i], info).Err? {
        var i :| 0 <= i < |repos| && SearchRepo(svc, repos[i], info).Err?;
        assert outcomes[i] in outcomes;
      }
    }
    Combine(outcomes, cancelled)
  }

  /** A successful answer holds exactly the matches found in the listed repositories. */
  lemma SearchReposContents(svc: Services, info: PatternInfo, repos: seq<string>, cancelled: bool, x: RepoMatch)
    requires SearchRepos(svc, info, repos, cancelled).Ok?
    ensures x in SearchRepos(svc, info, repos, cancelled).value <==>
      exists i :: 0 <= i < |repos| && SearchRepo(svc, repos[i], info).Ok? && x in SearchRepo(svc, repos[i], info).value
  {
    var outcomes := Outcomes(svc, info, repos);
    CombineContents(outcomes, cancelled, x);
    forall i | 0 <= i < |repos|
      ensures x in BatchOf(outcomes[i]) <==>
        SearchRepo(svc, repos[i], info).Ok? && x in SearchRepo(svc, repos[i], info).value
    {
      assert outcomes[i] == OutcomeOf(SearchRepo(svc, repos[i], info));
    }
  }

  /**
   * Under the outcome rule above, without a searcher URL any search over a
   * resolvable repository fails with the cancellation error, not the
   * configuration error, while an empty repository list still succeeds with
   * no matches.
   */
  lemma UnconfiguredSearcher(svc: Services, info: PatternInfo, repos: seq<string>, i: nat)
    requires svc.searcherUrl == ""
    requires i < |repos| && svc.lookupRepo(repos[i]).Ok?
    ensures SearchRepos(svc, info, repos, false) == Err(Cancelled)
    ensures SearchRepos(svc, info, [], false) == Ok([])
  {
  }

  /*
   * The code as written. A worker's early-exit test receives from the
   * context's done channel, which is only ever closed: the receive blocks
   * until the context is cancelled and then reports `ok == false`, so the
   * test never exits and every search waits for a cancellation.
   */

  /** The number of worker goroutines. */
  const WorkerCount := 10

  /** Receiving from `ctx.Done()`: blocks until it is closed, then yields with `ok == false`. */
  function ReceiveDone(closed: bool): (ok: Option<bool>)
    ensures ok.Some? <==> closed
    ensures ok != Some(true)
  {
    if closed then Some(false) else None
  }

  /** The number of failed repository searches. */
  function Failures(outcomes: seq<RepoOutcome>): nat
  {
    if |outcomes| == 0 then 0 else (if outcomes[0].Failed? then 1 else 0) + Failures(outcomes[1..])
  }

  /**
   * Handing the repositories, in list order, to `live` running workers:
   * whether dispatch finishes, that is, every repository is handed to a
   * worker and no worker is left waiting on the done channel. A worker whose
   * search fails exits, and once no worker runs the next send blocks forever.
   */
  function SendAll(outcomes: seq<RepoOutcome>, cancelled: bool, live: nat): (done: bool)
    ensures |outcomes| == 0 ==> done
    ensures !cancelled ==> (done <==> |outcomes| == 0)
    ensures |outcomes| > 0 && live == 0 ==> !done
    decreases |outcomes|
  {
    if |outcomes| == 0 then true
    else if live == 0 then false
    else if ReceiveDone(cancelled).None? then false
    else SendAll(outcomes[1..], cancelled, if outcomes[0].Failed? then live - 1 else live)
  }

  /** What a call does: never returns, or returns a result. */
  datatype Answer = Blocked | Returned(result: Result<seq<RepoMatch>, SearchError>)

  /**
   * `SearchRepos` as written: if every repository is handed to a worker the
   * call returns the context's error when it is cancelled and the
   * aggregated batches otherwise; if a send or a worker blocks forever, so
   * does the call. `cancelled` says whether the caller's context is
   * cancelled while the call is running; a call that blocks runs forever, so
   * for a non-empty list this means ever cancelled.
   */
  function SearchReposAsWritten(outcomes: seq<RepoOutcome>, cancelled: bool): (a: Answer)
    ensures |outcomes| > 0 && !cancelled ==> a == Blocked
    ensures a.Returned? && |outcomes| > 0 ==> a.result == Err(Cancelled)
    ensures |outcomes| == 0 ==> a == Returned(if cancelled then Err(Cancelled) else Ok([]))
  {
    assert |outcomes| == 0 ==> Flatten(Batches(outcomes)) == [];
    if !SendAll(outcomes, cancelled, WorkerCount) then
      Blocked
    else if cancelled then
      Returned(Err(Cancelled))
    else
      Returned(Ok(Accumulate(Batches(outcomes))))
  }

  /** Once the context is cancelled, sending finishes unless the failures before the last repository use up the workers. */
  lemma {:induction false} SendAllAfterCancel(outcomes: seq<RepoOutcome>, live: nat)
    ensures SendAll(outcomes, true, live) <==>
      |outcomes| == 0 || Failures(outcomes[..|outcomes| - 1]) < live
    decreases |outcomes|
  {
    if |outcomes| > 0 && live > 0 {
      var rest := outcomes[1..];
      SendAllAfterCancel(rest, if outcomes[0].Failed? then live - 1 else live);
      if |rest| > 0 {
        assert outcomes[..|outcomes| - 1][1..] == rest[..|rest| - 1];
      }
    }
  }

  /**
   * As written, a cancelled call over a non-empty list returns the context's
   * error exactly when fewer than ten of the repositories before the last one
   * fail; otherwise it never returns.
   */
  lemma AsWrittenAfterCancel(outcomes: seq<RepoOutcome>)
    requires |outcomes| > 0
    ensures SearchReposAsWritten(outcomes, true) ==
      if Failures(outcomes[..|outcomes| - 1]) < WorkerCount then Returned(Err(Cancelled)) else Blocked
  {
    SendAllAfterCancel(outcomes, WorkerCount);
  }

  /** When every repository search fails, every repository counts as a failure. */
  lemma {:induction false} FailuresAllFailed(outcomes: seq<RepoOutcome>)
    requires forall i :: 0 <= i < |outcomes| ==> outcomes[i].Failed?
    ensures Failures(outcomes) == |outcomes|
    decreases |outcomes|
  {
    if |outcomes| > 0 {
      FailuresAllFailed(outcomes[1..]);
    }
  }

  /**
   * As written, a cancelled call in which every search fails, as every
   * search started after a cancel does in the transport, never returns
   * exactly when more than ten repositories are listed.
   */
  lemma AsWrittenCancelledAllFail(outcomes: seq<RepoOutcome>)
    requires forall i :: 0 <= i < |outcomes| ==> outcomes[i].Failed?
    ensures SearchReposAsWritten(outcomes, true) == Blocked <==> |outcomes| > WorkerCount
  {
    if |outcomes| > 0 {
      AsWrittenAfterCancel(outcomes);
      FailuresAllFailed(outcomes[..|outcomes| - 1]);
    }
  }

  /** Whenever the code as written does return, it returns what the outcome rule gives. */
  lemma AsWrittenAgreesWhenItReturns(outcomes: seq<RepoOutcome>, cancelled: bool)
    ensures SearchReposAsWritten(outcomes, cancelled).Returned? ==>
      SearchReposAsWritten(outcomes, cancelled).result == Combine(outcomes, cancelled)
  {
  }

  /**
   * One repository, searched successfully, and a live context: the outcome
   * rule answers with no matches, the code as written never returns.
   */
  lemma AsWrittenBlocksOnLiveContext()
    ensures SearchReposAsWritten([Found([])], false) == Blocked
    ensures Combine([Found([])], false) == Ok([])
  {
    var o := [Found([])];
    assert Batches(o) == [[]];
    assert Flatten([[]]) == [] + Flatten([]);
  }
}

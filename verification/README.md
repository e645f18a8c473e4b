# Cross-repository text search: a Dafny model

This project models the pure logic of Sourcegraph's cross-repository text
search (`services/backend/graphqlbackend/textsearch.go`):

- the searcher client, which refuses to run without a configured searcher URL and
  otherwise encodes a pattern search of one repository at one commit as the query
  parameters `Repo`, `Commit`, `Pattern` and, only for set flags, `IsRegExp`,
  `IsWordMatch`, `IsCaseSensitive` with value `"true"`;
- the conversion of the searcher's 0-based `int32` line numbers to the 1-based ones
  the API reports, with Go's 32-bit wrap-around written out;
- `searchRepo`'s mapping of file matches to repository matches located at
  `repo?commit#path`, where any location that fails to parse aborts the mapping;
- `accumulate`, which concatenates the per-repository batches and sorts them by
  ascending number of line matches, then by URI path under `strings.Compare`;
- the outcome rule of `SearchRepos`: a cancelled context or any failed repository
  gives the context's cancellation error and no matches, otherwise the sorted
  aggregate;
- `SearchRepos` as written, whose workers wait on the context's done channel
  before every search, so that a call over a non-empty list returns only after
  the caller cancels, and then with the cancellation error.

Modules, one per component: `Wrappers` (result type), `SearchTypes` (data model),
`SearcherClient`, `LineNumbers`, `RepoMatches`, `Ordering` (the comparison),
`Sorting` (an insertion sort proved sorted and a permutation), `Aggregate`,
`Orchestrator`.

Collaborators the file calls but does not define are parameters of the model:
the HTTP round trip to the searcher (`fetch`: query in, decoded file matches or an
error out), the repository store lookup, commit resolution and the URI parser
(bundled in `RepoMatches.Services`). The searcher URL, read from the environment
in the source, is an input. Cancellation of the caller's context is a boolean
input to the outcome rule.

Three points where the code does less than its structure suggests:

- `SearchRepos` returns the context's cancellation error (`ctx.Err()`), never the
  failing repository's own error. Under the outcome rule, an unconfigured
  searcher therefore surfaces as `Cancelled` from `SearchRepos`, not as a
  configuration error;
- `sort.Slice` is not stable, so only "sorted and a permutation" is proved, and
  arrival order is shown to fix the sort key at every position, not the elements;
- the tie-break is the path component of the parsed URI (`uri.Path`), which may
  not be the file path; it is kept as the `path` field of the abstract `Uri`.

## Model

| member | source | states |
|---|---|---|
| SearcherClient.SearcherQuery | services/backend/graphqlbackend/textsearch.go:77-94 | Without a searcher URL the result is the configuration error and no query; otherwise `Repo`, `Commit`, `Pattern` carry exactly the given repo, commit and pattern, each flag key is present iff its flag is set and then has value "true", and no other key appears |
| SearcherClient.WithFlag | services/backend/graphqlbackend/textsearch.go:86-94 | Setting a flag adds exactly its key with value "true" and keeps every other entry; an unset flag leaves the query unchanged |
| SearcherClient.QueryRoundTrip | services/backend/graphqlbackend/textsearch.go:81-94 | Every built query conforms to the protocol and reading it back recovers exactly the repo, commit and pattern info it was built from |
| SearcherClient.WellFormedQueryIsBuilt | services/backend/graphqlbackend/textsearch.go:81-94 | Every protocol-conforming query is exactly the query built for the request it reads as, so the builder is onto the well-formed queries |
| SearcherClient.TextSearch | services/backend/graphqlbackend/textsearch.go:77-124 | The configuration error arises exactly when no URL is set, and then nothing is fetched; a success is the fetch result for the built query; any other failure is the fetch's error |
| LineNumbers.Wrap32 | services/backend/graphqlbackend/textsearch.go:57-66 | Int32 arithmetic: the result agrees with the exact value modulo 2^32 and equals it when it is in range |
| LineNumbers.LineNumber | services/backend/graphqlbackend/textsearch.go:65-67 | The reported line number is the wire number plus one, 1-based for non-negative wire numbers, and wraps to the minimum int32 for the maximum wire value |
| LineNumbers.WireLineNumber | services/backend/graphqlbackend/textsearch.go:65-67 | The wire number behind a reported number is that number minus one, wrapping at the minimum int32 |
| LineNumbers.View | services/backend/graphqlbackend/textsearch.go:61-71 | The API view passes preview and offset/length pairs through unchanged and reports the converted line number |
| LineNumbers.Unview | services/backend/graphqlbackend/textsearch.go:61-71 | The line match behind a view has the same preview and spans and the wire number of the reported one |
| LineNumbers.ViewRoundTrip | services/backend/graphqlbackend/textsearch.go:61-71 | The API view loses nothing: view and unview are mutually inverse for all int32 line numbers |
| LineNumbers.LineNumberInjective | services/backend/graphqlbackend/textsearch.go:65-67 | Distinct wire line numbers are never reported as the same line number |
| RepoMatches.LocationText | services/backend/graphqlbackend/textsearch.go:154 | The location handed to the parser is the repository name, `?`, the commit, `#` and the file path, each part at its own position |
| RepoMatches.LocationTextInjective | services/backend/graphqlbackend/textsearch.go:154 | When the repository name has no `?` and the commit no `#`, distinct (repository, commit, path) triples never give the same location |
| RepoMatches.MapFileMatches | services/backend/graphqlbackend/textsearch.go:151-160 | The mapping succeeds iff every `repo?commit#path` location parses; then it has one element per file match, in order, each with that file's line matches unchanged and its parsed location; a failure is the error of the first location that fails |
| RepoMatches.SearchRepo | services/backend/graphqlbackend/textsearch.go:139-161 | A lookup failure is returned as a metadata error; for a resolved repository a searcher failure, including the missing URL, is returned unchanged and a location that fails to parse gives that parse error; a success has one repository match per file match of the searcher's answer, in order, with the same line matches and the parsed location |
| RepoMatches.SearchRepoSucceedsIff | services/backend/graphqlbackend/textsearch.go:139-161 | A repository search succeeds exactly when the repository resolves, the searcher answers and every file location parses |
| Ordering.PathLess | services/backend/graphqlbackend/textsearch.go:175 | `strings.Compare(a, b) < 0` holds exactly when at the first position where the paths differ `a` has the smaller character, or `a` is a proper prefix of `b` |
| Ordering.PathLessIrreflexive | services/backend/graphqlbackend/textsearch.go:175 | No path compares below itself under `strings.Compare` |
| Ordering.PathLessTrichotomy | services/backend/graphqlbackend/textsearch.go:175 | Any two paths are equal or compare below one another in exactly one direction |
| Ordering.PathLessTransitive | services/backend/graphqlbackend/textsearch.go:175 | The path comparison is transitive |
| Ordering.Less | services/backend/graphqlbackend/textsearch.go:170-176 | The comparator holds exactly when the (count, path) key of the second match does not precede or equal that of the first, so it orders by count and then by path and is strict |
| Ordering.InOrderIsKeyOrder | services/backend/graphqlbackend/textsearch.go:170-176 | A match may precede another iff it has fewer line matches, or as many and a path no greater |
| Ordering.KeyLessEqTotal | services/backend/graphqlbackend/textsearch.go:170-176 | Any two sort keys are comparable |
| Ordering.KeyLessEqAntisymmetric | services/backend/graphqlbackend/textsearch.go:170-176 | Sort keys ordered both ways are equal |
| Ordering.KeyLessEqTransitive | services/backend/graphqlbackend/textsearch.go:170-176 | The key order is transitive |
| Ordering.InOrderTotal | services/backend/graphqlbackend/textsearch.go:170-176 | Of any two matches, one may precede the other, so the comparator gives a total preorder |
| Ordering.InOrderTransitive | services/backend/graphqlbackend/textsearch.go:170-176 | Precedence is transitive |
| Sorting.Insert | services/backend/graphqlbackend/textsearch.go:170-176 | Inserting into a sorted sequence keeps it sorted and adds exactly the inserted match |
| Sorting.Sort | services/backend/graphqlbackend/textsearch.go:170-176 | The output is sorted by count then path, and is a permutation of the input |
| Sorting.SortedKeysDetermined | services/backend/graphqlbackend/textsearch.go:170-176 | Any two sorted arrangements of the same matches have the same length and the same sort key at every position |
| Sorting.DistinctCountsSortUniquely | services/backend/graphqlbackend/textsearch.go:170-176 | Three matches with distinct counts have exactly one sorted arrangement, fewest first |
| Aggregate.Flatten | services/backend/graphqlbackend/textsearch.go:166-169 | No batches concatenate to no matches and a single batch to itself; with `FlattenAppend` this determines the concatenation of any batch sequence |
| Aggregate.FlattenAppend | services/backend/graphqlbackend/textsearch.go:166-169 | Concatenating batch sequences in two parts concatenates their results |
| Aggregate.FlattenContents | services/backend/graphqlbackend/textsearch.go:166-169 | A match is in the concatenation exactly when some batch holds it |
| Aggregate.FlattenArrivalOrder | services/backend/graphqlbackend/textsearch.go:166-169 | The contents of the concatenation do not depend on the order the batches arrive in |
| Aggregate.Accumulate | services/backend/graphqlbackend/textsearch.go:165-178 | The answer is sorted and is a permutation of the concatenated batches: nothing dropped, nothing duplicated |
| Aggregate.AccumulateContents | services/backend/graphqlbackend/textsearch.go:166-169 | A match is in the answer exactly when some batch holds it |
| Aggregate.AccumulateAdjacentOrder | services/backend/graphqlbackend/textsearch.go:170-176 | Adjacent results have ascending counts, or equal counts and paths in `strings.Compare` order |
| Aggregate.ArrivalOrderIrrelevant | services/backend/graphqlbackend/textsearch.go:165-178 | Any arrival order of the same batches gives an answer of the same length with the same sort key at every position |
| Aggregate.FewestMatchesFirst | services/backend/graphqlbackend/textsearch.go:170-176 | Batches from repositories a, b, c with 2, 0 and 5 line matches, arriving in any order, come out as b, a, c |
| Orchestrator.Batches | services/backend/graphqlbackend/textsearch.go:201-206 | One batch per repository in list order (any arrival order is covered by `Orchestrator.CompletionOrderIrrelevant`): a successful search's matches; a failed search contributes no matches |
| Orchestrator.Combine | services/backend/graphqlbackend/textsearch.go:210-221 | The answer is an error iff the context was cancelled or some repository failed, and then it is the cancellation error with no matches; otherwise it is sorted and a permutation of all batches |
| Orchestrator.CombineContents | services/backend/graphqlbackend/textsearch.go:210-221 | A successful answer holds exactly the matches of the successful repository searches |
| Orchestrator.EmptyRepoListIsEmptyAnswer | services/backend/graphqlbackend/textsearch.go:210-221 | An empty repository list without cancellation gives an empty answer and no error |
| Orchestrator.OneFailureFailsAll | services/backend/graphqlbackend/textsearch.go:201-218 | One failed repository makes the answer the cancellation error, whatever the others returned |
| Orchestrator.NoFailureSameContents | services/backend/graphqlbackend/textsearch.go:201-206 | Reordering failure-free outcomes leaves them failure-free |
| Orchestrator.BatchesWithout | services/backend/graphqlbackend/textsearch.go:201-206 | Dropping one repository's outcome drops exactly its batch |
| Orchestrator.BatchesSameContents | services/backend/graphqlbackend/textsearch.go:201-206 | Reordering the outcomes reorders their batches |
| Orchestrator.CompletionOrderIrrelevant | services/backend/graphqlbackend/textsearch.go:186-221 | Any completion order of the same repository outcomes gives the same success or failure, the same length and the same key at every position |
| Orchestrator.Outcomes | services/backend/graphqlbackend/textsearch.go:195-207 | Each listed repository is searched and its outcome recorded at its position |
| Orchestrator.SearchRepos | services/backend/graphqlbackend/textsearch.go:186-221 | The cross-repository answer is an error iff the context was cancelled or some repository search failed, then always the cancellation error; otherwise it is sorted and a permutation of the matches of all listed repositories |
| Orchestrator.SearchReposContents | services/backend/graphqlbackend/textsearch.go:186-221 | A successful answer holds exactly the matches found in the listed repositories |
| Orchestrator.UnconfiguredSearcher | services/backend/graphqlbackend/textsearch.go:186-221 | Under the outcome rule, without a searcher URL a list with a resolvable repository gives the cancellation error, while an empty list still gives an empty answer |
| Orchestrator.ReceiveDone | services/backend/graphqlbackend/textsearch.go:198 | A receive from the done channel completes exactly when the context is cancelled and never reports `ok == true`, so the early return is never taken |
| Orchestrator.SearchReposAsWritten | services/backend/graphqlbackend/textsearch.go:186-221 | As written, a non-empty list under a live context never returns; a non-empty list returns nothing but the cancellation error; an empty list returns no matches, or the cancellation error if the context is cancelled |
| Orchestrator.SendAll | services/backend/graphqlbackend/textsearch.go:193-212 | Dispatch of the repositories to the ten workers finishes at once for an empty list, never for a non-empty list under a live context (the first worker waits on the done channel), and never once no worker is left to take the next repository |
| Orchestrator.SendAllAfterCancel | services/backend/graphqlbackend/textsearch.go:193-211 | After cancellation every repository is handed to a worker exactly when fewer failures than running workers occur before the last repository, since a worker exits at its first failure |
| Orchestrator.AsWrittenAfterCancel | services/backend/graphqlbackend/textsearch.go:186-221 | As written, a cancelled call over a non-empty list returns the cancellation error iff fewer than ten repositories before the last one fail, and otherwise never returns |
| Orchestrator.AsWrittenCancelledAllFail | services/backend/graphqlbackend/textsearch.go:186-221 | As written, a cancelled call in which every repository search fails never returns exactly when more than ten repositories are listed |
| Orchestrator.AsWrittenAgreesWhenItReturns | services/backend/graphqlbackend/textsearch.go:186-221 | Whenever the code as written returns, its result is the one the outcome rule gives |
| Orchestrator.AsWrittenBlocksOnLiveContext | services/backend/graphqlbackend/textsearch.go:198 | One successfully searched repository under a live context: the outcome rule answers with no matches, the code as written never returns |

## Left out

- The HTTP request and its encoding (`url.Values.Encode`), the HTTP client, status-code and body handling, and JSON decoding (lines 95-123) are the abstract `fetch` parameter: it maps the URL and query to decoded file matches or an error message, and a non-200 status is one such error.
- `url.Values` maps a key to a list of values; the builder only ever stores one value per key, so the query is a `map<string, string>`.
- OpenTracing instrumentation (lines 102-105) is a side effect with no effect on results.
- `env.Get` for `SEARCHER_URL` (line 28) is replaced by the searcher URL as an input.
- `localstore.Repos.GetByURI` and `backend.Repos.ResolveRev` (lines 140-147) are abstract functions. The error of `ResolveRev` is discarded in the source (line 144). The model therefore treats commit resolution as always yielding a commit id. A failing resolution is not modelled: the source would go on with whatever commit value came back, and if that is nil, `commit.CommitID` at line 147 dereferences it and the worker goroutine panics.
- `uri.Parse` and `uri.URI` (lines 154, 175) are an abstract parser. Its result keeps the path component used as the tie-break and the rendered text that `URI()` returns.
- Orchestrator.Combine / Orchestrator.SearchRepos: state the intended outcome rule, not the code as written. In the code, a worker's `<-ctx.Done()` (line 198) blocks until the context is cancelled, and once it is closed `ok` is false, so the worker never returns there. With a non-empty list and a live caller context no worker reaches `searchRepo` and `wg.Wait` (line 214) never returns. After the caller cancels, the remaining repositories are still handed to the workers, and the call returns `ctx.Err()` only if fewer than ten repositories before the last one fail: each failing worker exits, and with no worker left the sending loop (line 211) blocks forever. Since every search started after the cancel fails in the transport (see the next line), in practice a cancelled call returns only for ten or fewer repositories; `Orchestrator.AsWrittenCancelledAllFail` states this for the case where every search fails. `Orchestrator.SearchReposAsWritten` models that behaviour.
- The context argument of the collaborators is dropped: `searchRepo` (line 201), `GetByURI` (line 140), `ResolveRev` (line 144) and the HTTP request (`req.WithContext(ctx)`, line 100) all receive the caller's context, but `fetch`, `lookupRepo` and `resolveRev` are modelled as ignoring it. In the source, Go's HTTP client refuses a request whose context is already done, so `client.Do` (line 108) fails for every search started after a cancel. The model takes each repository's outcome as an input and does not derive that failure.
- Goroutine scheduling, channels and `sync.WaitGroup` (lines 187-215) are not modelled step by step. The as-written model keeps only what decides whether and what the call returns: the ten workers, the blocking receive on the done channel, and a worker exiting at its first failure.
- `commitResolver.TextSearch` (lines 73-75) only forwards to `textSearch` and is covered by `SearcherClient.TextSearch`. The field accessors of `fileMatch` and `repoMatch` (lines 46-52, 131-137) are the datatypes' field selectors.
- Go compares strings byte by byte; on valid UTF-8 that order is the order of code points, which is how the model compares `string` values, since a Dafny `char` is a Unicode scalar value. A `uri.Path` that is not valid UTF-8 after percent-decoding cannot be held in a Dafny `string` and is not modelled.
- Stability of the sort is not claimed: `sort.Slice` makes no such promise, so matches with equal count and path may appear in any relative order.
- Uniqueness of each repository match's (repository, commit, path) identity within one answer is not enforced by the code and is not modelled.

## Findings

| source | as written | input that shows it | evidently intended | confidence | as-written member | corrected member |
|---|---|---|---|---|---|---|
| services/backend/graphqlbackend/textsearch.go:198 | `if _, ok := <-ctx.Done(); ok { return }` blocks until the context is cancelled and then sees `ok == false`, so it never returns early and every search waits for a cancellation | one repository whose search succeeds, live context: the call never returns (after a cancel it returns the cancellation error) | a worker skips its search once the context is cancelled and otherwise searches at once, and the sending loop (lines 210-212) also stops on cancellation, so the call answers by the outcome rule | not executed; high | Orchestrator.SearchReposAsWritten, Orchestrator.AsWrittenBlocksOnLiveContext | Orchestrator.Combine, Orchestrator.SearchRepos |

/**
 * The client of the searcher service: it refuses to run without a configured
 * searcher URL, otherwise it encodes a search of one repository at one commit
 * as query parameters and hands them to the transport.
 */
module SearcherClient {
  import opened Wrappers
  import opened SearchTypes

  /** The query parameters of one searcher request, one value per key. */
  type Query = map<string, string>

  const RepoKey: string := "Repo"
  const CommitKey: string := "Commit"
  const PatternKey: string := "Pattern"
  const IsRegExpKey: string := "IsRegExp"
  const IsWordMatchKey: string := "IsWordMatch"
  const IsCaseSensitiveKey: string := "IsCaseSensitive"

  /** The value a set flag is sent with. */
  const FlagOn: string := "true"

  /** Keys present in every request. */
  const RequiredKeys: set<string> := {RepoKey, CommitKey, PatternKey}

  /** Keys present only when the corresponding flag is set. */
  const FlagKeys: set<string> := {IsRegExpKey, IsWordMatchKey, IsCaseSensitiveKey}

  /** What a request asks the searcher for. */
  datatype SearchRequest = SearchRequest(repo: string, commit: string, info: PatternInfo)

  /** Sets `key` to "true" when `on` holds, leaving every other key as it was. */
  function WithFlag(q: Query, key: string, on: bool): (r: Query)
    ensures r.Keys == if on then q.Keys + {key} else q.Keys
    ensures on ==> r[key] == FlagOn
    ensures forall k :: k in q && k != key ==> r[k] == q[k]
    ensures !on ==> r == q
  {
    if on then q[key := FlagOn] else q
  }

  /**
   * The query parameters for searching `repo` at `commit` with `p`, or
   * `NotConfigured` when no searcher URL is set.
   */
  function SearcherQuery(searcherUrl: string, repo: string, commit: string, p: PatternInfo)
    : (r: Result<Query, SearchError>)
    ensures r.Err? <==> searcherUrl == ""
    ensures r.Err? ==> r.error == NotConfigured
    ensures r.Ok? ==> r.value.Keys <= RequiredKeys + FlagKeys
    ensures r.Ok? ==> RepoKey in r.value && r.value[RepoKey] == repo
    ensures r.Ok? ==> CommitKey in r.value && r.value[CommitKey] == commit
    ensures r.Ok? ==> PatternKey in r.value && r.value[PatternKey] == p.pattern
    ensures r.Ok? ==> (IsRegExpKey in r.value <==> p.isRegExp)
    ensures r.Ok? ==> (IsWordMatchKey in r.value <==> p.isWordMatch)
    ensures r.Ok? ==> (IsCaseSensitiveKey in r.value <==> p.isCaseSensitive)
    ensures r.Ok? ==> forall k :: k in FlagKeys && k in r.value ==> r.value[k] == FlagOn
  {
    if searcherUrl == "" then
      Err(NotConfigured)
    else
      var q := map[RepoKey := repo, CommitKey := commit, PatternKey := p.pattern];
      var q := WithFlag(q, IsRegExpKey, p.isRegExp);
      var q := WithFlag(q, IsWordMatchKey, p.isWordMatch);
      var q := WithFlag(q, IsCaseSensitiveKey, p.isCaseSensitive);
      Ok(q)
  }

  /** A query of the shape the searcher protocol allows. */
  predicate WellFormedQuery(q: Query)
  {
    && q.Keys <= RequiredKeys + FlagKeys
    && RequiredKeys <= q.Keys
    && forall k :: k in FlagKeys && k in q ==> q[k] == FlagOn
  }

  /**
   * How the receiving side reads a query: the three required values, and
   * each flag set exactly when its key is present with value "true".
   */
  function DecodeQuery(q: Query): (r: Option<SearchRequest>)
    ensures r.Some? <==> RequiredKeys <= q.Keys
  {
    if RepoKey in q && CommitKey in q && PatternKey in q then
      Some(SearchRequest(q[RepoKey], q[CommitKey], PatternInfo(
        q[PatternKey],
        IsRegExpKey in q && q[IsRegExpKey] == FlagOn,
        IsWordMatchKey in q && q[IsWordMatchKey] == FlagOn,
        IsCaseSensitiveKey in q && q[IsCaseSensitiveKey] == FlagOn)))
    else
      None
  }

  /** Decoding a built query recovers exactly the request it was built from. */
  lemma QueryRoundTrip(searcherUrl: string, repo: string, commit: string, p: PatternInfo)
    requires searcherUrl != ""
    ensures SearcherQuery(searcherUrl, repo, commit, p).Ok?
    ensures WellFormedQuery(SearcherQuery(searcherUrl, repo, commit, p).value)
    ensures DecodeQuery(SearcherQuery(searcherUrl, repo, commit, p).value)
            == Some(SearchRequest(repo, commit, p))
  {
  }

  /**
   * Every well-formed query is the one built for the request it decodes to:
   * the builder produces each protocol-conforming query exactly once.
   */
  lemma WellFormedQueryIsBuilt(searcherUrl: string, q: Query)
    requires searcherUrl != ""
    requires WellFormedQuery(q)
    ensures DecodeQuery(q).Some?
    ensures var req := DecodeQuery(q).value;
            SearcherQuery(searcherUrl, req.repo, req.commit, req.info) == Ok(q)
  {
    var req := DecodeQuery(q).value;
    var built := SearcherQuery(searcherUrl, req.repo, req.commit, req.info).value;
    assert built.Keys == q.Keys;
    forall k | k in q
      ensures built[k] == q[k]
    {
      if k in FlagKeys {
        assert q[k] == FlagOn;
      }
    }
    assert built == q;
  }

  /**
   * One search of one repository at one commit. `fetch` stands for issuing
   * the GET request to the searcher URL with the query and decoding a 200
   * response; its error covers transport failures, non-200 statuses and
   * undecodable bodies. Without a searcher URL nothing is fetched.
   */
  function TextSearch(
    searcherUrl: string, repo: string, commit: string, p: PatternInfo,
    fetch: (string, Query) -> Result<seq<FileMatch>, string>)
    : (r: Result<seq<FileMatch>, SearchError>)
    ensures r == Err(NotConfigured) <==> searcherUrl == ""
    ensures r.Ok? ==>
      searcherUrl != "" && fetch(searcherUrl, SearcherQuery(searcherUrl, repo, commit, p).value) == Ok(r.value)
    ensures searcherUrl != "" && r.Err? ==>
      var response := fetch(searcherUrl, SearcherQuery(searcherUrl, repo, commit, p).value);
      response.Err? && r.error == Backend(response.error)
  {
    match SearcherQuery(searcherUrl, repo, commit, p)
    case Err(e) => Err(e)
    case Ok(q) =>
      match fetch(searcherUrl, q)
      case Err(msg) => Err(Backend(msg))
      case Ok(matches) => Ok(matches)
  }
}

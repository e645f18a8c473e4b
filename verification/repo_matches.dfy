/**
 * Searching one repository: resolve the repository and its commit, run the
 * searcher, and turn each matching file into a repository match located at
 * `repo?commit#path`.
 */
module RepoMatches {
  import opened Wrappers
  import opened SearchTypes
  import opened SearcherClient

  /**
   * The location string a file match is parsed from: the repository name,
   * `?`, the commit, `#`, the file path.
   */
  function LocationText(repoName: string, commit: string, path: string): (r: string)
    ensures |r| == |repoName| + |commit| + |path| + 2
    ensures r[..|repoName|] == repoName && r[|repoName|] == '?'
    ensures r[|repoName| + 1..|repoName| + 1 + |commit|] == commit
    ensures r[|repoName| + 1 + |commit|] == '#'
    ensures r[|repoName| + |commit| + 2..] == path
  {
    repoName + "?" + commit + "#" + path
  }

  /** The first `?` of a location ends the repository name, if the name has none. */
  lemma LocationRepoPart(repoName: string, commit: string, path: string, other: string, i: nat)
    requires '?' !in repoName
    requires i < |other| && other[i] == '?' && '?' !in other[..i]
    requires LocationText(repoName, commit, path) == other
    ensures i == |repoName|
  {
  }

  /**
   * Distinct files get distinct locations: when repository names contain
   * no `?` and commits no `#`, a location determines its repository,
   * commit and path.
   */
  lemma LocationTextInjective(r1: string, c1: string, p1: string, r2: string, c2: string, p2: string)
    requires '?' !in r1 && '?' !in r2 && '#' !in c1 && '#' !in c2
    requires LocationText(r1, c1, p1) == LocationText(r2, c2, p2)
    ensures r1 == r2 && c1 == c2 && p1 == p2
  {
    var t := LocationText(r1, c1, p1);
    assert t[..|r1|] == r1;
    LocationRepoPart(r2, c2, p2, t, |r1|);
    var n := |r1| + 1;
    var rest := t[n..];
    assert rest == c1 + "#" + p1 == c2 + "#" + p2;
    assert c1 == rest[..|c1|] == c2;
  }

  /**
   * The mapping loop of a repository search: file match i becomes repository
   * match i, carrying the same line matches and the parsed location of the
   * file. Locations are parsed in order and the first parse failure aborts
   * the whole mapping with that failure.
   */
  function MapFileMatches(
    repoName: string, commit: string, fms: seq<FileMatch>,
    parse: string -> Result<Uri, string>)
    : (r: Result<seq<RepoMatch>, string>)
    ensures r.Ok? <==>
      forall i :: 0 <= i < |fms| ==> parse(LocationText(repoName, commit, fms[i].path)).Ok?
    ensures r.Ok? ==> |r.value| == |fms|
    ensures r.Ok? ==> forall i :: 0 <= i < |fms| ==>
      && r.value[i].lineMatches == fms[i].lineMatches
      && r.value[i].uri == parse(LocationText(repoName, commit, fms[i].path)).value
    ensures r.Err? ==>
      exists k :: 0 <= k < |fms|
        && parse(LocationText(repoName, commit, fms[k].path)) == Err(r.error)
        && forall j :: 0 <= j < k ==> parse(LocationText(repoName, commit, fms[j].path)).Ok?
    decreases |fms|
  {
    if |fms| == 0 then
      Ok([])
    else
      match parse(LocationText(repoName, commit, fms[0].path))
      case Err(e) => Err(e)
      case Ok(u) =>
        match MapFileMatches(repoName, commit, fms[1..], parse)
        case Err(e) => Err(e)
        case Ok(rest) => Ok([RepoMatch(u, fms[0].lineMatches)] + rest)
  }

  /**
   * The collaborators a repository search relies on but this model does not
   * contain: the repository store lookup (by name), commit resolution, the
   * searcher round trip and the URI parser.
   */
  datatype Services = Services(
    searcherUrl: string,
    lookupRepo: string -> Result<int, string>,
    resolveRev: int -> string,
    fetch: (string, Query) -> Result<seq<FileMatch>, string>,
    parse: string -> Result<Uri, string>)

  /**
   * Search one repository for `info`. Fails when the repository does not
   * resolve, when the searcher is not configured or fails, or when a
   * location does not parse; otherwise returns one repository match per
   * file match of the searcher's answer, in the same order.
   */
  function SearchRepo(svc: Services, repoName: string, info: PatternInfo)
    : (r: Result<seq<RepoMatch>, SearchError>)
    ensures svc.lookupRepo(repoName).Err? ==> r == Err(Metadata(svc.lookupRepo(repoName).error))
    ensures svc.lookupRepo(repoName).Ok? && svc.searcherUrl == "" ==> r == Err(NotConfigured)
    ensures svc.lookupRepo(repoName).Ok? ==>
      var commit := svc.resolveRev(svc.lookupRepo(repoName).value);
      var found := TextSearch(svc.searcherUrl, repoName, commit, info, svc.fetch);
      found.Err? ==> r == Err(found.error)
    ensures svc.lookupRepo(repoName).Ok? ==>
      var commit := svc.resolveRev(svc.lookupRepo(repoName).value);
      var found := TextSearch(svc.searcherUrl, repoName, commit, info, svc.fetch);
      found.Ok? && MapFileMatches(repoName, commit, found.value, svc.parse).Err? ==>
        r == Err(UriParse(MapFileMatches(repoName, commit, found.value, svc.parse).error))
    ensures r.Ok? ==>
      && svc.lookupRepo(repoName).Ok?
      && var commit := svc.resolveRev(svc.lookupRepo(repoName).value);
      && var found := TextSearch(svc.searcherUrl, repoName, commit, info, svc.fetch);
      && found.Ok?
      && |r.value| == |found.value|
      && forall i :: 0 <= i < |found.value| ==>
           && r.value[i].lineMatches == found.value[i].lineMatches
           && svc.parse(LocationText(repoName, commit, found.value[i].path)) == Ok(r.value[i].uri)
  {
    match svc.lookupRepo(repoName)
    case Err(msg) => Err(Metadata(msg))
    case Ok(id) =>
      var commit := svc.resolveRev(id);
      match TextSearch(svc.searcherUrl, repoName, commit, info, svc.fetch)
      case Err(e) => Err(e)
      case Ok(fms) =>
        match MapFileMatches(repoName, commit, fms, svc.parse)
        case Err(msg) => Err(UriParse(msg))
        case Ok(rms) => Ok(rms)
  }

  /**
   * A repository search succeeds exactly when the repository resolves, the
   * searcher answers, and every file location parses.
   */
  lemma SearchRepoSucceedsIff(svc: Services, repoName: string, info: PatternInfo)
    ensures SearchRepo(svc, repoName, info).Ok? <==>
      && svc.lookupRepo(repoName).Ok?
      && var commit := svc.resolveRev(svc.lookupRepo(repoName).value);
      && var found := TextSearch(svc.searcherUrl, repoName, commit, info, svc.fetch);
      && found.Ok?
      && forall i :: 0 <= i < |found.value| ==>
           svc.parse(LocationText(repoName, commit, found.value[i].path)).Ok?
  {
  }
}

/**
 * The data exchanged by the text-search layer: the pattern a client asks
 * for, the matches the searcher service sends back, and the per-repository
 * matches the cross-repository search returns.
 */
module SearchTypes {

  /** Go's `int32`: the width of line numbers and match spans on the wire. */
  newtype int32 = x: int | -0x8000_0000 <= x < 0x8000_0000

  const MinInt32: int32 := -0x8000_0000
  const MaxInt32: int32 := 0x7fff_ffff

  /** A search request as the editor sends it: pattern text plus three flags. */
  datatype PatternInfo = PatternInfo(
    pattern: string,
    isRegExp: bool,
    isWordMatch: bool,
    isCaseSensitive: bool)

  /**
   * One matching line as decoded from the searcher's response. The line
   * number is the searcher's 0-based one; each span is an (offset, length)
   * pair inside the preview.
   */
  datatype LineMatch = LineMatch(
    preview: string,
    wireLineNumber: int32,
    offsetAndLengths: seq<seq<int32>>)

  /** One matching file of one repository, with its matching lines in order. */
  datatype FileMatch = FileMatch(path: string, lineMatches: seq<LineMatch>)

  /**
   * The parsed form of a `repo?commit#path` location. The URI parser is not
   * part of this model, so only what the aggregation reads is kept: `path`,
   * the URI's path component (the tie-break key of the final sort), and
   * `text`, its rendered form.
   */
  datatype Uri = Uri(path: string, text: string)

  /** One matching file within one repository at one commit. */
  datatype RepoMatch = RepoMatch(uri: Uri, lineMatches: seq<LineMatch>)

  /** The ways a search can fail. */
  datatype SearchError =
    | NotConfigured          // no searcher URL is configured
    | Backend(msg: string)   // request, non-200 status or decoding failed
    | Metadata(msg: string)  // the repository name did not resolve
    | UriParse(msg: string)  // a `repo?commit#path` location did not parse
    | Cancelled              // the cross-repository context was cancelled
}

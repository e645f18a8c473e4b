/**
 * Line numbers cross the searcher boundary 0-based and are reported to the
 * API 1-based. The field is a Go `int32`, so the `+ 1` wraps at the top of
 * its range; this module writes the wrap out.
 */
module LineNumbers {
  import opened SearchTypes

  const TwoTo31: int := 0x8000_0000
  const TwoTo32: int := 0x1_0000_0000

  /** Two's-complement truncation of an integer to 32 bits, as Go's int32 arithmetic does. */
  function Wrap32(x: int): (r: int32)
    ensures (r as int - x) % TwoTo32 == 0
    ensures MinInt32 as int <= x <= MaxInt32 as int ==> r as int == x
  {
    ((x + TwoTo31) % TwoTo32 - TwoTo31) as int32
  }

  /** The 1-based line number the API reports for a match. */
  function LineNumber(lm: LineMatch): (r: int32)
    ensures lm.wireLineNumber < MaxInt32 ==> r as int == lm.wireLineNumber as int + 1
    ensures lm.wireLineNumber == MaxInt32 ==> r == MinInt32
    ensures 0 <= lm.wireLineNumber < MaxInt32 ==> 1 <= r
  {
    Wrap32(lm.wireLineNumber as int + 1)
  }

  /** The 0-based wire value that is reported as `displayed`. */
  function WireLineNumber(displayed: int32): (w: int32)
    ensures MinInt32 < displayed ==> w as int == displayed as int - 1
    ensures displayed == MinInt32 ==> w == MaxInt32
  {
    Wrap32(displayed as int - 1)
  }

  /** What the API exposes of a line match: preview, 1-based number, spans. */
  datatype LineView = LineView(preview: string, lineNumber: int32, offsetAndLengths: seq<seq<int32>>)

  /** The API's view of a decoded line match. */
  function View(lm: LineMatch): (v: LineView)
    ensures v.preview == lm.preview
    ensures v.offsetAndLengths == lm.offsetAndLengths
    ensures v.lineNumber == LineNumber(lm)
  {
    LineView(lm.preview, LineNumber(lm), lm.offsetAndLengths)
  }

  /** The decoded line match a view was produced from. */
  function Unview(v: LineView): (lm: LineMatch)
    ensures lm.preview == v.preview
    ensures lm.offsetAndLengths == v.offsetAndLengths
    ensures lm.wireLineNumber == WireLineNumber(v.lineNumber)
  {
    LineMatch(v.preview, WireLineNumber(v.lineNumber), v.offsetAndLengths)
  }

  /**
   * The view loses nothing: every line match is recovered from its view and
   * every view is the view of exactly one line match, wrap-around included.
   */
  lemma ViewRoundTrip(lm: LineMatch, v: LineView)
    ensures Unview(View(lm)) == lm
    ensures View(Unview(v)) == v
  {
  }

  /** Distinct wire numbers are never reported as the same line number. */
  lemma LineNumberInjective(a: LineMatch, b: LineMatch)
    requires a.wireLineNumber != b.wireLineNumber
    ensures LineNumber(a) != LineNumber(b)
  {
  }
}

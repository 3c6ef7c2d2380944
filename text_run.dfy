/** core/src/nodes/textRun.ts: the smallest styled span of text. */
module TextRuns {
  import opened Constants

  /** A run: an immutable id, its text and its bold flag.
      The bold flag and `setBold`/`isBold` belong to the runs-based API the engines call. */
  datatype TextRun = TextRun(id: string, text: string, bold: bool)

  /** The text a placeholder run holds: the single marker U+200B. */
  const MARKER: string := [ZERO_WIDTH_SPACE]

  /** The normalisation rule of the run constructor (and of `BlockNode.setTextContent`):
      the empty string becomes the marker; otherwise a leading marker is dropped; otherwise
      a trailing marker is dropped; otherwise the text is kept. */
  function Normalize(text: string): (r: string)
    ensures text == [] ==> r == MARKER
    ensures text != [] && text[0] == ZERO_WIDTH_SPACE ==> r == text[1..]
    ensures text != [] && text[0] != ZERO_WIDTH_SPACE && text[|text| - 1] == ZERO_WIDTH_SPACE ==> r == text[..|text| - 1]
    ensures text != [] && text[0] != ZERO_WIDTH_SPACE && text[|text| - 1] != ZERO_WIDTH_SPACE ==> r == text
    ensures text != [] ==> |r| == |text| || |r| + 1 == |text|
  {
    if text == [] then MARKER
    else if StartsWithMarker(text) then text[1..]
    else if EndsWithMarker(text) then text[..|text| - 1]
    else text
  }

  /** JavaScript's `startsWith(ZERO_WIDTH_SPACE)`. */
  predicate StartsWithMarker(text: string)
  {
    |text| > 0 && text[0] == ZERO_WIDTH_SPACE
  }

  /** JavaScript's `endsWith(ZERO_WIDTH_SPACE)`. */
  predicate EndsWithMarker(text: string)
  {
    |text| > 0 && text[|text| - 1] == ZERO_WIDTH_SPACE
  }

  /** `new TextRun(text)`: a run with a caller-supplied fresh id, the normalised text, not bold. */
  function NewTextRun(id: string, text: string): (r: TextRun)
    ensures r.id == id && !r.bold
    ensures r.text == Normalize(text)
  {
    TextRun(id, Normalize(text), false)
  }

  /** `setText`: stores the new text verbatim, without normalisation. */
  function SetText(run: TextRun, newText: string): (r: TextRun)
    ensures r.text == newText
    ensures r.id == run.id && r.bold == run.bold
  {
    run.(text := newText)
  }

  /** `setBold` of the runs-based API. */
  function SetBold(run: TextRun, bold: bool): (r: TextRun)
    ensures r.bold == bold
    ensures r.id == run.id && r.text == run.text
  {
    run.(bold := bold)
  }

  /** Constructing from the empty string stores exactly the marker, and a lone marker is stored as
      the empty string. */
  lemma EmptyAndMarker(id: string)
    ensures NewTextRun(id, "").text == MARKER
    ensures NewTextRun(id, MARKER).text == ""
  {
  }

  /** A marker at both ends: only the leading one is dropped, the trailing one survives. */
  lemma LeadingBranchWins(id: string, middle: string)
    ensures NewTextRun(id, MARKER + middle + MARKER).text == middle + MARKER
  {
    var t := MARKER + middle + MARKER;
    assert t[0] == ZERO_WIDTH_SPACE;
    assert t[1..] == middle + MARKER;
  }

  /** Text with no marker at either end is stored unchanged. */
  lemma UnmarkedTextKept(id: string, text: string)
    requires text != [] && !StartsWithMarker(text) && !EndsWithMarker(text)
    ensures NewTextRun(id, text).text == text
  {
  }

  /** The rule is not idempotent: applying it twice to the lone marker gives the marker back
      instead of the empty string, and a doubled leading marker needs two applications. */
  lemma NormalizeNotIdempotent()
    ensures Normalize(MARKER) == "" && Normalize(Normalize(MARKER)) == MARKER
    ensures Normalize(Normalize(MARKER + MARKER + "x")) != Normalize(MARKER + MARKER + "x")
  {
    var t := MARKER + MARKER + "x";
    assert Normalize(t) == MARKER + "x";
    assert Normalize(MARKER + "x") == "x";
  }

  /** The strings the rule leaves unchanged are exactly the non-empty strings with no marker at either end. */
  lemma NormalizeFixedPoints(text: string)
    ensures Normalize(text) == text <==> text != [] && !StartsWithMarker(text) && !EndsWithMarker(text)
  {
    if text != [] && StartsWithMarker(text) {
      assert |Normalize(text)| < |text|;
    } else if text != [] && EndsWithMarker(text) {
      assert |Normalize(text)| < |text|;
    }
  }

  /** After `setText` the run reads back exactly the stored value, and its id never changes
      under `setText` or `setBold`. */
  lemma IdImmutable(run: TextRun, t: string, b: bool)
    ensures SetText(run, t).text == t
    ensures SetText(run, t).id == run.id && SetBold(run, b).id == run.id
    ensures SetBold(SetText(run, t), b).id == NewTextRun(run.id, t).id
  {
  }

  /** JavaScript's `s.slice(0, n)` for a non-negative `n`: the first `n` characters, or all of them. */
  function SliceTo(s: string, n: nat): (r: string)
    ensures n <= |s| ==> r == s[..n]
    ensures n > |s| ==> r == s
  {
    if n <= |s| then s[..n] else s
  }

  /** JavaScript's `s.slice(n)` for a non-negative `n`: what follows the first `n` characters. */
  function SliceFrom(s: string, n: nat): (r: string)
    ensures n <= |s| ==> r == s[n..]
    ensures n > |s| ==> r == ""
  {
    if n <= |s| then s[n..] else ""
  }

  /** Cutting a string at any non-negative offset and joining the halves gives it back. */
  lemma SliceJoin(s: string, n: nat)
    ensures SliceTo(s, n) + SliceFrom(s, n) == s
  {
  }
}

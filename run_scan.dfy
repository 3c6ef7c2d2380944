/** The run-location scan every editing operation of both engines starts with
    (core/src/engine/index.ts:115-124, 190-199, 270-279, 372-381 and the same loops in
    core/src/engine.ts): walk the runs accumulating their lengths and stop at the first run
    whose cumulative end reaches the cursor. */
module RunScan {
  import opened Wrappers
  import opened TextRuns

  /** The text of the first `n` runs, one after another. */
  function TextUpTo(runs: seq<TextRun>, n: nat): string
    requires n <= |runs|
  {
    if n == 0 then "" else TextUpTo(runs, n - 1) + runs[n - 1].text
  }

  /** The text of a block: its runs' texts one after another. */
  function RunsText(runs: seq<TextRun>): string
  {
    TextUpTo(runs, |runs|)
  }

  /** `totalOffset` after `i` iterations: the summed length of the runs before `i`. */
  function Prefix(runs: seq<TextRun>, i: nat): nat
    requires i <= |runs|
  {
    if i == 0 then 0 else Prefix(runs, i - 1) + |runs[i - 1].text|
  }

  /** The length of the whole block text. */
  function Total(runs: seq<TextRun>): (r: nat)
    ensures r == |RunsText(runs)|
  {
    PrefixLength(runs, |runs|);
    assert runs[..|runs|] == runs;
    Prefix(runs, |runs|)
  }

  /** The text of the first `n` runs depends on those runs only. */
  lemma {:induction false} TextUpToAgree(a: seq<TextRun>, b: seq<TextRun>, n: nat)
    requires n <= |a| && n <= |b| && a[..n] == b[..n]
    ensures TextUpTo(a, n) == TextUpTo(b, n)
  {
    if n > 0 {
      assert a[n - 1] == a[..n][n - 1] && b[n - 1] == b[..n][n - 1];
      assert a[..n - 1] == a[..n][..n - 1] && b[..n - 1] == b[..n][..n - 1];
      TextUpToAgree(a, b, n - 1);
    }
  }

  /** `totalOffset` after `i` iterations is the length of the text of the first `i` runs. */
  lemma {:induction false} PrefixLength(runs: seq<TextRun>, i: nat)
    requires i <= |runs|
    ensures Prefix(runs, i) == |RunsText(runs[..i])|
  {
    TextUpToAgree(runs[..i], runs, i);
    if i > 0 {
      PrefixLength(runs, i - 1);
      TextUpToAgree(runs[..i - 1], runs, i - 1);
    }
  }

  /** The cumulative end of run `i`: `totalOffset + runLength` in the loop. */
  function End(runs: seq<TextRun>, i: nat): nat
    requires i < |runs|
  {
    Prefix(runs, i) + |runs[i].text|
  }

  /** The scan from run `i` on. */
  function ScanFrom(runs: seq<TextRun>, cursor: int, i: nat): Option<nat>
    requires i <= |runs|
    decreases |runs| - i
  {
    if i == |runs| then None
    else if End(runs, i) >= cursor then Some(i)
    else ScanFrom(runs, cursor, i + 1)
  }

  /** The scan: the run the cursor is located in, or `None` when the cursor lies past every
      cumulative end. */
  function Scan(runs: seq<TextRun>, cursor: int): Option<nat>
  {
    ScanFrom(runs, cursor, 0)
  }

  /** The scan of the insertion path: the located run and `totalOffset`, or nothing
      (`currentRun` stays null). */
  function Locate(runs: seq<TextRun>, cursor: int): (r: Option<(nat, nat)>)
    ensures r.Some? ==> r.value.0 < |runs|
  {
    match Scan(runs, cursor)
    case None => None
    case Some(i) =>
      ScanFacts(runs, cursor);
      Some((i, Prefix(runs, i)))
  }

  /** The scan of the other three operations: `currentRunIndex` and `currentRun` start as run 0,
      so when nothing is found they stay there while `totalOffset` has summed every run. */
  function LocateOrFirst(runs: seq<TextRun>, cursor: int): (r: (nat, nat))
    requires runs != []
    ensures r.0 < |runs|
  {
    match Locate(runs, cursor)
    case Some(located) => located
    case None => (0, Total(runs))
  }

  /** Prefix sums grow with the index. */
  lemma {:induction false} PrefixMonotone(runs: seq<TextRun>, i: nat, j: nat)
    requires i <= j <= |runs|
    ensures Prefix(runs, i) <= Prefix(runs, j)
  {
    if i < j {
      PrefixMonotone(runs, i, j - 1);
    }
  }

  /** What the scan from `start` finds: the first run from `start` whose cumulative end reaches
      the cursor, or nothing when every one of them ends before it. */
  lemma {:induction false} ScanFromFacts(runs: seq<TextRun>, cursor: int, start: nat)
    requires start <= |runs|
    ensures ScanFrom(runs, cursor, start).Some? ==>
      var i := ScanFrom(runs, cursor, start).value;
      start <= i < |runs| && End(runs, i) >= cursor &&
      forall j :: start <= j < i ==> End(runs, j) < cursor
    ensures ScanFrom(runs, cursor, start).None? ==>
      forall j :: start <= j < |runs| ==> End(runs, j) < cursor
    decreases |runs| - start
  {
    if start < |runs| && End(runs, start) < cursor {
      ScanFromFacts(runs, cursor, start + 1);
    }
  }

  /** THE SCAN LEMMA. The located run is the first whose cumulative end is at least the cursor
      (so at a boundary between two runs the earlier run wins); the offset inside it lies in
      [0, length] for a non-negative cursor, and is at least 1 whenever the cursor is positive.
      The scan finds nothing exactly when there are no runs or the cursor lies past the end
      of the text. */
  lemma ScanFacts(runs: seq<TextRun>, cursor: int)
    ensures Scan(runs, cursor).Some? ==>
      var i := Scan(runs, cursor).value;
      && i < |runs|
      && End(runs, i) >= cursor
      && (forall j :: 0 <= j < i ==> End(runs, j) < cursor)
      && (i > 0 ==> 1 <= cursor - Prefix(runs, i))
      && (cursor >= 0 ==> 0 <= cursor - Prefix(runs, i) <= |runs[i].text|)
      && (cursor > 0 ==> 1 <= cursor - Prefix(runs, i))
    ensures Scan(runs, cursor).None? <==> runs == [] || cursor > Total(runs)
  {
    ScanFromFacts(runs, cursor, 0);
    if Scan(runs, cursor).Some? {
      var i := Scan(runs, cursor).value;
      if i > 0 {
        assert End(runs, i - 1) < cursor;
      }
    } else if runs != [] {
      assert End(runs, |runs| - 1) == Total(runs);
    }
    if cursor > Total(runs) && Scan(runs, cursor).Some? {
      var i := Scan(runs, cursor).value;
      PrefixMonotone(runs, i + 1, |runs|);
    }
  }

  /** Where the operations other than insertion start: the in-run offset is never negative and
      is positive for a positive cursor; for a cursor within the text the located run's span
      covers it. */
  lemma LocatedOffset(runs: seq<TextRun>, cursor: nat)
    requires runs != []
    ensures var (i, total) := LocateOrFirst(runs, cursor);
      && total <= cursor
      && (cursor > 0 ==> total < cursor)
      && (cursor <= Total(runs) ==> Locate(runs, cursor).Some? && total == Prefix(runs, i) && cursor <= total + |runs[i].text|)
  {
    ScanFacts(runs, cursor);
  }

  /** The insertion path's in-run offset lies within the located run. */
  lemma LocatedSpan(runs: seq<TextRun>, cursor: nat)
    requires Locate(runs, cursor).Some?
    ensures var (i, total) := Locate(runs, cursor).value;
      total <= cursor <= total + |runs[i].text| && cursor <= Total(runs)
  {
    ScanFacts(runs, cursor);
  }

  /** Every run before the located one ends before the cursor. */
  lemma LocatedBefore(runs: seq<TextRun>, cursor: int, j: nat)
    requires Locate(runs, cursor).Some? && j < Locate(runs, cursor).value.0
    ensures End(runs, j) < cursor
  {
    ScanFacts(runs, cursor);
  }

  /** The fallback of the three operations other than insertion: a cursor past the end of the
      text leaves them on run 0 with an in-run offset of at least 1. */
  lemma FallbackOffset(runs: seq<TextRun>, cursor: int)
    requires runs != [] && cursor > Total(runs)
    ensures LocateOrFirst(runs, cursor) == (0, Total(runs))
    ensures cursor - Total(runs) >= 1
  {
    ScanFacts(runs, cursor);
  }

  /** The scan loop of the engines: `currentRunIndex`, `totalOffset` and whether a run was found.
      When nothing is found the index is still its initial 0 and the total is the whole length. */
  method LocateRun(runs: seq<TextRun>, cursorOffset: int) returns (found: bool, index: nat, totalOffset: nat)
    ensures found <==> Locate(runs, cursorOffset).Some?
    ensures found ==> Locate(runs, cursorOffset).value == (index, totalOffset)
    ensures !found ==> index == 0 && totalOffset == Total(runs)
    ensures runs != [] ==> LocateOrFirst(runs, cursorOffset) == (index, totalOffset)
  {
    ScanFromFacts(runs, cursorOffset, 0);
    totalOffset := 0;
    index := 0;
    found := false;
    var i := 0;
    while i < |runs|
      invariant i <= |runs|
      invariant totalOffset == Prefix(runs, i)
      invariant ScanFrom(runs, cursorOffset, i) == Scan(runs, cursorOffset)
    {
      var runLength := |runs[i].text|;
      if totalOffset + runLength >= cursorOffset {
        index := i;
        found := true;
        return;
      }
      totalOffset := totalOffset + runLength;
      i := i + 1;
    }
    assert runs[..|runs|] == runs;
  }

  // ---------------------------------------------------------------------------------------
  // How the text of a run list decomposes around one run.
  // ---------------------------------------------------------------------------------------

  /** The text of a concatenation is the concatenation of the texts. */
  lemma RunsTextAppend(a: seq<TextRun>, b: seq<TextRun>)
    ensures RunsText(a + b) == RunsText(a) + RunsText(b)
  {
    AppendUpTo(a, b, |b|);
  }

  /** The text of `a + b` up to `|a| + k` is the text of `a` and then of the first `k` runs of `b`. */
  lemma {:induction false} AppendUpTo(a: seq<TextRun>, b: seq<TextRun>, k: nat)
    requires k <= |b|
    ensures TextUpTo(a + b, |a| + k) == RunsText(a) + TextUpTo(b, k)
  {
    if k == 0 {
      assert (a + b)[..|a|] == a[..|a|];
      TextUpToAgree(a + b, a, |a|);
    } else {
      AppendUpTo(a, b, k - 1);
      assert (a + b)[|a| + k - 1] == b[k - 1];
    }
  }

  /** The text of one run list is the text before run `i`, run `i`'s text, and the rest. */
  lemma RunsTextAround(runs: seq<TextRun>, i: nat)
    requires i < |runs|
    ensures RunsText(runs) == RunsText(runs[..i]) + runs[i].text + RunsText(runs[i + 1..])
  {
    var head := runs[..i];
    var rest := runs[i..];
    assert head + rest == runs;
    RunsTextAppend(head, rest);
    assert [runs[i]] + runs[i + 1..] == rest;
    RunsTextAppend([runs[i]], runs[i + 1..]);
    RunsTextSingle(runs[i]);
    AppendAssoc(RunsText(head), runs[i].text, RunsText(runs[i + 1..]));
  }

  /** String concatenation is associative. */
  lemma AppendAssoc(a: string, b: string, c: string)
    ensures a + (b + c) == a + b + c
  {
  }

  /** Replacing run `i` by a list of runs replaces its text by theirs. */
  lemma RunsTextReplace(runs: seq<TextRun>, i: nat, middle: seq<TextRun>)
    requires i < |runs|
    ensures RunsText(runs[..i] + middle + runs[i + 1..]) == RunsText(runs[..i]) + RunsText(middle) + RunsText(runs[i + 1..])
  {
    RunsTextAppend(runs[..i] + middle, runs[i + 1..]);
    RunsTextAppend(runs[..i], middle);
  }

  /** The text of a list of one run is that run's text. */
  lemma RunsTextSingle(run: TextRun)
    ensures RunsText([run]) == run.text
  {
    assert TextUpTo([run], 0) == "";
    assert "" + run.text == run.text;
  }
}

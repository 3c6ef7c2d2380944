/** What each editing operation of the engines (core/src/engine/index.ts and core/src/engine.ts)
    does to the run list of one block, given the cursor offset: the run-level half of typing,
    Enter, bold and Backspace. The engine state machine in editing.dfy applies these to the
    current block. */
module BlockEdits {
  import opened Wrappers
  import opened Constants
  import opened TextRuns
  import opened Nodes
  import opened RunScan

  /** The ids a transition needs for the nodes it creates (random ids in the engines): the new
      block, its placeholder run, and up to two new runs. */
  datatype FreshIds = FreshIds(block: string, placeholder: string, first: string, second: string)

  /** Typing `key`: the located run's text gets `key` spliced in at the in-run offset; the new
      cursor is one further unless the text before the insertion point starts with the marker.
      When the scan finds no run, nothing changes. */
  function InsertInRuns(runs: seq<TextRun>, cursor: nat, key: string): (seq<TextRun>, nat)
  {
    match Locate(runs, cursor)
    case None => (runs, cursor)
    case Some((i, total)) =>
      ScanFacts(runs, cursor);
      var text := runs[i].text;
      var before := text[..cursor - total];
      (runs[i := SetText(runs[i], before + key + text[cursor - total..])],
       if StartsWithMarker(before) then cursor else cursor + 1)
  }

  /** Typing written the way the engines compute it, with the slices of `text.slice`. */
  lemma InsertInRunsSlices(runs: seq<TextRun>, cursor: nat, key: string, i: nat, total: nat)
    requires Locate(runs, cursor) == Some((i, total)) && total <= cursor
    ensures var text := runs[i].text; var before := SliceTo(text, cursor - total);
      InsertInRuns(runs, cursor, key) ==
        (runs[i := SetText(runs[i], before + key + SliceFrom(text, cursor - total))],
         if StartsWithMarker(before) then cursor else cursor + 1)
  {
    LocatedSpan(runs, cursor);
  }

  /** Enter on one block: the runs that stay (those before the located run, and its head) and
      the runs of the new block (the split-off rest, or a fresh empty run, bold when the located
      run is bold, followed by every later run). */
  function SplitBlock(runs: seq<TextRun>, cursor: nat, ids: FreshIds): (seq<TextRun>, seq<TextRun>)
    requires runs != []
  {
    var (i, total) := LocateOrFirst(runs, cursor);
    LocatedOffset(runs, cursor);
    var (kept, tail) := SplitRuns(runs, i, cursor - total, ids.first);
    var splitRun := if tail.Some? then tail.value else NewTextRun(ids.first, "");
    var (stay, moved) := RemoveRunsFrom(kept, i + 1);
    var boldSplit := if runs[i].bold then SetBold(splitRun, true) else splitRun;
    (stay, InsertRunsAt([TextRun(ids.placeholder, MARKER, false)], [boldSplit] + moved, 0))
  }

  /** Apply-bold on one block: an empty bold run right after the located run when the cursor is
      at its end; otherwise the run is split and the empty bold run goes between the halves. */
  function BoldInRuns(runs: seq<TextRun>, cursor: nat, ids: FreshIds): seq<TextRun>
    requires runs != []
  {
    var (i, total) := LocateOrFirst(runs, cursor);
    LocatedOffset(runs, cursor);
    BoldAt(runs, i, cursor - total, ids)
  }

  /** Apply-bold on a block is the insertion at the located run and in-run offset. */
  lemma BoldInRunsAt(runs: seq<TextRun>, cursor: nat, ids: FreshIds, i: nat, total: nat)
    requires runs != [] && LocateOrFirst(runs, cursor) == (i, total)
    ensures i < |runs| && total <= cursor
    ensures BoldInRuns(runs, cursor, ids) == BoldAt(runs, i, cursor - total, ids)
  {
    LocatedOffset(runs, cursor);
  }

  /** The insertion half of apply-bold, at in-run offset `runOffset` of run `i`. */
  function BoldAt(runs: seq<TextRun>, i: nat, runOffset: nat, ids: FreshIds): seq<TextRun>
    requires i < |runs|
  {
    var emptyRun := SetBold(NewTextRun(ids.first, ""), true);
    if runOffset == |runs[i].text| then InsertRunAt(runs, emptyRun, i + 1)
    else
      var (kept, tail) := SplitRuns(runs, i, runOffset, ids.second);
      var withEmpty := InsertRunAt(kept, emptyRun, i + 1);
      if tail.Some? then InsertRunAt(withEmpty, tail.value, i + 2) else withEmpty
  }

  /** Backspace inside one block (positive cursor): the located run loses the character before
      the in-run offset. */
  function DeleteInRuns(runs: seq<TextRun>, cursor: nat): seq<TextRun>
    requires runs != [] && cursor > 0
  {
    var (i, total) := LocateOrFirst(runs, cursor);
    LocatedOffset(runs, cursor);
    var runOffset := cursor - total;
    var text := runs[i].text;
    runs[i := SetText(runs[i], SliceTo(text, runOffset - 1) + SliceFrom(text, runOffset))]
  }

  /** Backspace at the start of a block, seen from the previous block: its last run absorbs the
      first run of the removed block (when both exist), and the removed block's other runs are
      appended. */
  function MergedRuns(prev: seq<TextRun>, cur: seq<TextRun>): seq<TextRun>
  {
    var merged :=
      if prev != [] && cur != [] then MergeRuns(InsertRunAt(prev, cur[0], |prev|), |prev| - 1, |prev|)
      else prev;
    var moved := RemoveRunsFrom(cur, 1).1;
    InsertRunsAt(merged, moved, |merged|)
  }


  // ---------------------------------------------------------------------------------------
  // String facts, stated without runs so that the solver reasons about them cheaply.
  // ---------------------------------------------------------------------------------------

  /** Splicing `key` into the middle part of a string at offset `off` splices it into the whole
      string at `|a| + off`. */
  lemma InsertSplice(a: string, text: string, z: string, off: nat, key: string)
    requires off <= |text|
    ensures var t := a + text + z;
      |a| + off <= |t| &&
      a + (text[..off] + key + text[off..]) + z == t[..|a| + off] + key + t[|a| + off..]
  {
    var t := a + text + z;
    assert t[..|a| + off] == a + text[..off];
    assert t[|a| + off..] == text[off..] + z;
  }

  /** Deleting the character before offset `off` of the middle part of a string. */
  lemma DeleteSplice(a: string, text: string, z: string, off: nat)
    requires 0 < off <= |text|
    ensures var t := a + text + z;
      t[..|a| + off - 1] + t[|a| + off..] == a + (text[..off - 1] + text[off..]) + z
  {
    var t := a + text + z;
    assert t[..|a| + off - 1] == a + text[..off - 1];
    assert t[|a| + off..] == text[off..] + z;
  }

  /** Cutting the middle part of a string cuts the whole string. */
  lemma CutSplice(a: string, text: string, z: string, off: nat)
    requires off <= |text|
    ensures var t := a + text + z;
      |a| + off <= |t| && t[..|a| + off] == a + text[..off] && t[|a| + off..] == text[off..] + z
  {
  }

  /** Regrouping the four parts of a merged text. */
  lemma MergeSplice(p: string, l: string, c: string, r: string)
    ensures p + (l + c) + r == (p + l) + (c + r)
  {
  }

  // ---------------------------------------------------------------------------------------
  // Run-list text facts.
  // ---------------------------------------------------------------------------------------

  /** Replacing one run changes only that run's slice of the text. */
  lemma RunsTextSetRun(runs: seq<TextRun>, i: nat, run: TextRun)
    requires i < |runs|
    ensures RunsText(runs[i := run]) == RunsText(runs[..i]) + run.text + RunsText(runs[i + 1..])
  {
    var updated := runs[i := run];
    assert updated[..i] == runs[..i] && updated[i + 1..] == runs[i + 1..];
    RunsTextAround(updated, i);
  }

  /** The text of two runs in a row. */
  lemma RunsTextTwo(a: TextRun, b: TextRun)
    ensures RunsText([a, b]) == a.text + b.text
  {
    assert [a, b] == [a] + [b];
    RunsTextAppend([a], [b]);
    RunsTextSingle(a);
    RunsTextSingle(b);
  }

  /** The text of three runs in a row. */
  lemma RunsTextThree(a: TextRun, b: TextRun, c: TextRun)
    ensures RunsText([a, b, c]) == a.text + b.text + c.text
  {
    assert [a, b, c] == [a, b] + [c];
    RunsTextAppend([a, b], [c]);
    RunsTextTwo(a, b);
    RunsTextSingle(c);
  }

  /** Prefix sums only look at the runs before the index. */
  lemma {:induction false} PrefixAgree(a: seq<TextRun>, b: seq<TextRun>, n: nat)
    requires n <= |a| && n <= |b| && a[..n] == b[..n]
    ensures Prefix(a, n) == Prefix(b, n)
  {
    if n > 0 {
      assert a[..n - 1] == a[..n][..n - 1] && b[..n - 1] == b[..n][..n - 1];
      assert a[n - 1] == a[..n][n - 1] && b[n - 1] == b[..n][n - 1];
      PrefixAgree(a, b, n - 1);
    }
  }

  // ---------------------------------------------------------------------------------------
  // Properties of the block edits.
  // ---------------------------------------------------------------------------------------

  /** Typing lands the key in the text exactly at the cursor and changes only the located run
      (its id and weight kept); the cursor advances by one exactly when the text before the
      insertion point in that run does not start with the marker. A cursor past the text, or a
      block without runs, leaves everything as it was. */
  lemma InsertInRunsEffect(runs: seq<TextRun>, cursor: nat, key: string)
    ensures runs == [] || cursor > Total(runs) ==> InsertInRuns(runs, cursor, key) == (runs, cursor)
    ensures runs != [] && cursor <= Total(runs) ==>
      var (runs', cursor') := InsertInRuns(runs, cursor, key);
      var (i, total) := LocateOrFirst(runs, cursor);
      && total <= cursor <= total + |runs[i].text|
      && |runs'| == |runs|
      && (forall j :: 0 <= j < |runs| && j != i ==> runs'[j] == runs[j])
      && runs'[i].id == runs[i].id && runs'[i].bold == runs[i].bold
      && RunsText(runs') == RunsText(runs)[..cursor] + key + RunsText(runs)[cursor..]
      && (cursor' == cursor + 1 <==> !StartsWithMarker(runs[i].text[..cursor - total]))
      && (cursor' == cursor <==> StartsWithMarker(runs[i].text[..cursor - total]))
  {
    ScanFacts(runs, cursor);
    if runs != [] && cursor <= Total(runs) {
      var (i, total) := LocateOrFirst(runs, cursor);
      var text := runs[i].text;
      var off := cursor - total;
      RunsTextAround(runs, i);
      PrefixLength(runs, i);
      RunsTextSetRun(runs, i, SetText(runs[i], text[..off] + key + text[off..]));
      InsertSplice(RunsText(runs[..i]), text, RunsText(runs[i + 1..]), off, key);
    }
  }

  /** The shape of Enter on a block: the located run is cut at the in-run offset; the head stays
      with every run before it; the new block starts with the rest (or a lone marker when the rest
      is empty), bold when the located run is bold, and continues with every later run in order. */
  lemma SplitBlockShape(runs: seq<TextRun>, cursor: nat, ids: FreshIds)
    requires runs != []
    ensures var (i, total) := LocateOrFirst(runs, cursor);
      var (stay, moved) := SplitBlock(runs, cursor, ids);
      var text := runs[i].text;
      && total <= cursor
      && stay == runs[..i] + [SetText(runs[i], SliceTo(text, cursor - total))]
      && |moved| == |runs| - i
      && moved[1..] == runs[i + 1..]
      && moved[0].bold == runs[i].bold
      && (SliceFrom(text, cursor - total) != "" ==> moved[0] == TextRun(ids.first, SliceFrom(text, cursor - total), runs[i].bold))
      && (SliceFrom(text, cursor - total) == "" ==> moved[0] == TextRun(ids.first, MARKER, runs[i].bold))
  {
    LocatedOffset(runs, cursor);
    var (i, total) := LocateOrFirst(runs, cursor);
    var (kept, tail) := SplitRuns(runs, i, cursor - total, ids.first);
    assert kept[..i + 1] == runs[..i] + [kept[i]];
  }

  /** Enter keeps the text: the staying runs hold the text up to the cursor and the new block the
      text from the cursor on, with one marker in front exactly when the cursor is at the end of
      the located run. */
  lemma SplitBlockText(runs: seq<TextRun>, cursor: nat, ids: FreshIds)
    requires runs != [] && cursor <= Total(runs)
    ensures var (i, total) := LocateOrFirst(runs, cursor);
      var (stay, moved) := SplitBlock(runs, cursor, ids);
      var t := RunsText(runs);
      && RunsText(stay) == t[..cursor]
      && RunsText(moved) == if cursor - total < |runs[i].text| then t[cursor..] else MARKER + t[cursor..]
  {
    LocatedOffset(runs, cursor);
    SplitBlockShape(runs, cursor, ids);
    var (i, total) := LocateOrFirst(runs, cursor);
    var (stay, moved) := SplitBlock(runs, cursor, ids);
    var off := cursor - total;
    var text := runs[i].text;
    var a := RunsText(runs[..i]);
    var z := RunsText(runs[i + 1..]);
    assert RunsText(runs) == a + text + z && |a| == total by {
      RunsTextAround(runs, i);
      PrefixLength(runs, i);
    }
    assert RunsText(stay) == a + text[..off] by {
      RunsTextSnoc(runs[..i], stay[i]);
    }
    RunsTextFirst(moved);
    CutSplice(a, text, z, off);
    if off == |text| {
      assert text[off..] == "";
    }
  }

  /** The text of a run list with one more run at the end. */
  lemma RunsTextSnoc(runs: seq<TextRun>, run: TextRun)
    ensures RunsText(runs + [run]) == RunsText(runs) + run.text
  {
    RunsTextAppend(runs, [run]);
    RunsTextSingle(run);
  }

  /** The text of a run list is its first run's text followed by the text of the others. */
  lemma RunsTextFirst(runs: seq<TextRun>)
    requires runs != []
    ensures RunsText(runs) == runs[0].text + RunsText(runs[1..])
  {
    assert runs == [runs[0]] + runs[1..];
    RunsTextAppend([runs[0]], runs[1..]);
    RunsTextSingle(runs[0]);
  }

  /** The shape of apply-bold on a block: the located run is followed by the empty bold run, or,
      when the cursor is inside it, cut into a head and a new plain run that holds the rest, with
      the empty bold run between them. */
  lemma BoldInRunsShape(runs: seq<TextRun>, cursor: nat, ids: FreshIds)
    requires runs != [] && cursor <= Total(runs)
    ensures var (i, total) := LocateOrFirst(runs, cursor);
      var off := cursor - total;
      var text := runs[i].text;
      var empty := TextRun(ids.first, MARKER, true);
      && total == Prefix(runs, i) && 0 <= off <= |text|
      && BoldInRuns(runs, cursor, ids) ==
           runs[..i] +
           (if off == |text| then [runs[i], empty]
            else [SetText(runs[i], text[..off]), empty, TextRun(ids.second, text[off..], false)]) +
           runs[i + 1..]
  {
    LocatedOffset(runs, cursor);
    var (i, total) := LocateOrFirst(runs, cursor);
    var off := cursor - total;
    var text := runs[i].text;
    var empty := TextRun(ids.first, MARKER, true);
    assert SetBold(NewTextRun(ids.first, ""), true) == empty;
    if off == |text| {
      InsertAfterRun(runs, i, empty);
    } else {
      SplitAroundRun(runs, i, off, empty, ids.second);
    }
  }

  /** Inserting a run right after run `i`. */
  lemma InsertAfterRun(runs: seq<TextRun>, i: nat, run: TextRun)
    requires i < |runs|
    ensures InsertRunAt(runs, run, i + 1) == runs[..i] + [runs[i], run] + runs[i + 1..]
  {
    assert runs[..i + 1] == runs[..i] + [runs[i]];
  }

  /** Splitting run `i` at `off`, then inserting a run after the head and the rest after that. */
  lemma SplitAroundRun(runs: seq<TextRun>, i: nat, off: nat, run: TextRun, id: string)
    requires i < |runs| && off < |runs[i].text|
    ensures var (kept, tail) := SplitRuns(runs, i, off, id);
      var withRun := InsertRunAt(kept, run, i + 1);
      && tail == Some(TextRun(id, runs[i].text[off..], false))
      && InsertRunAt(withRun, tail.value, i + 2) ==
           runs[..i] + [SetText(runs[i], runs[i].text[..off]), run, tail.value] + runs[i + 1..]
  {
    var (kept, tail) := SplitRuns(runs, i, off, id);
    var head := SetText(runs[i], runs[i].text[..off]);
    InsertAfterRun(kept, i, run);
    assert kept[..i] == runs[..i] && kept[i + 1..] == runs[i + 1..];
    var withRun := InsertRunAt(kept, run, i + 1);
    assert withRun[..i + 2] == runs[..i] + [head, run];
    assert withRun[i + 2..] == runs[i + 1..];
  }

  /** Apply-bold inserts exactly one marker into the text, at the cursor. */
  lemma BoldInRunsText(runs: seq<TextRun>, cursor: nat, ids: FreshIds)
    requires runs != [] && cursor <= Total(runs)
    ensures RunsText(BoldInRuns(runs, cursor, ids)) == RunsText(runs)[..cursor] + MARKER + RunsText(runs)[cursor..]
  {
    BoldInRunsShape(runs, cursor, ids);
    var (i, total) := LocateOrFirst(runs, cursor);
    var off := cursor - total;
    var text := runs[i].text;
    var empty := TextRun(ids.first, MARKER, true);
    var middle :=
      if off == |text| then [runs[i], empty]
      else [SetText(runs[i], text[..off]), empty, TextRun(ids.second, text[off..], false)];
    assert RunsText(middle) == text[..off] + MARKER + text[off..] by {
      if off == |text| {
        RunsTextTwo(runs[i], empty);
        assert text[..off] == text && text[off..] == "";
      } else {
        RunsTextThree(middle[0], empty, middle[2]);
      }
    }
    var a := RunsText(runs[..i]);
    var z := RunsText(runs[i + 1..]);
    assert BoldInRuns(runs, cursor, ids) == runs[..i] + middle + runs[i + 1..];
    assert RunsText(BoldInRuns(runs, cursor, ids)) == a + (text[..off] + MARKER + text[off..]) + z by {
      RunsTextReplace(runs, i, middle);
    }
    assert RunsText(runs) == a + text + z && |a| + off == cursor by {
      RunsTextAround(runs, i);
      PrefixLength(runs, i);
    }
    InsertSplice(a, text, z, off, MARKER);
  }

  /** If run `i` is the first whose cumulative end reaches the cursor, the scan locates it. */
  lemma LocateUnique(runs: seq<TextRun>, cursor: int, i: nat)
    requires i < |runs| && End(runs, i) >= cursor
    requires forall j :: 0 <= j < i ==> End(runs, j) < cursor
    ensures Locate(runs, cursor) == Some((i, Prefix(runs, i)))
  {
    ScanFacts(runs, cursor);
    PrefixMonotone(runs, i + 1, |runs|);
    var k := Scan(runs, cursor).value;
    assert !(k < i) && !(i < k);
  }

  /** Applying bold twice at the end of a run, with nothing typed between, leaves TWO empty bold
      runs after it rather than one. */
  lemma BoldTwiceAtRunEnd(runs: seq<TextRun>, cursor: nat, ids1: FreshIds, ids2: FreshIds)
    requires runs != [] && cursor <= Total(runs)
    requires var (i, total) := LocateOrFirst(runs, cursor); cursor == total + |runs[i].text|
    ensures var (i, _) := LocateOrFirst(runs, cursor);
      BoldInRuns(BoldInRuns(runs, cursor, ids1), cursor + 1, ids2) ==
        runs[..i + 1] + [TextRun(ids1.first, MARKER, true), TextRun(ids2.first, MARKER, true)] + runs[i + 1..]
  {
    var (i, total) := LocateOrFirst(runs, cursor);
    var e1 := TextRun(ids1.first, MARKER, true);
    var e2 := TextRun(ids2.first, MARKER, true);
    BoldAtRunEnd(runs, cursor, ids1, i, total);
    var runs' := runs[..i + 1] + [e1] + runs[i + 1..];
    MarkerLocated(runs, cursor, i, total, e1);
    BoldAtRunEnd(runs', cursor + 1, ids2, i + 1, cursor);
    InsertTwice(runs, i + 1, e1, e2);
  }

  /** Apply-bold with the cursor at the end of the located run puts the empty bold run right
      after it. */
  lemma BoldAtRunEnd(runs: seq<TextRun>, cursor: nat, ids: FreshIds, i: nat, total: nat)
    requires runs != [] && LocateOrFirst(runs, cursor) == (i, total)
    requires cursor == total + |runs[i].text|
    ensures BoldInRuns(runs, cursor, ids) == runs[..i + 1] + [TextRun(ids.first, MARKER, true)] + runs[i + 1..]
  {
    BoldInRunsAt(runs, cursor, ids, i, total);
    assert SetBold(NewTextRun(ids.first, ""), true) == TextRun(ids.first, MARKER, true);
  }

  /** Inserting `x` at `k` and then `y` right after it. */
  lemma InsertTwice<T>(d: seq<T>, k: nat, x: T, y: T)
    requires k <= |d|
    ensures var e := d[..k] + [x] + d[k..];
      e[..k + 1] + [y] + e[k + 1..] == d[..k] + [x, y] + d[k..]
  {
    InsertAt(d, k, x);
    var e := d[..k] + [x] + d[k..];
    assert e[..k + 1] == d[..k] + [x];
  }

  /** After a one-character run is placed right after the run that ends at the cursor, a scan for
      the position one further stops at that new run, which ends exactly there. */
  lemma MarkerLocated(runs: seq<TextRun>, cursor: nat, i: nat, total: nat, e: TextRun)
    requires runs != [] && cursor <= Total(runs) && |e.text| == 1
    requires LocateOrFirst(runs, cursor) == (i, total)
    requires cursor == total + |runs[i].text|
    ensures var runs' := runs[..i + 1] + [e] + runs[i + 1..];
      && LocateOrFirst(runs', cursor + 1) == (i + 1, cursor)
      && |runs'[i + 1].text| == 1
  {
    var runs' := runs[..i + 1] + [e] + runs[i + 1..];
    LocatedOffset(runs, cursor);
    InsertAt(runs, i + 1, e);
    // in the new runs the first `i + 1` runs end where they did, and the new run ends one past
    // the cursor: the scan stops there
    forall j | 0 <= j <= i + 1
      ensures Prefix(runs', j) == Prefix(runs, j)
    {
      assert runs'[..j] == runs[..j];
      PrefixAgree(runs', runs, j);
    }
    forall j | 0 <= j < i + 1
      ensures End(runs', j) < cursor + 1
    {
      assert runs'[j] == runs[j];
      if j < i {
        LocatedBefore(runs, cursor, j);
      }
    }
    LocateUnique(runs', cursor + 1, i + 1);
  }

  /** Inserting `x` at position `k` keeps what comes before and shifts what follows by one. */
  lemma InsertAt<T>(d: seq<T>, k: nat, x: T)
    requires k <= |d|
    ensures var e := d[..k] + [x] + d[k..];
      && |e| == |d| + 1 && e[..k] == d[..k] && e[k] == x && e[k + 1..] == d[k..]
  {
    var e := d[..k] + [x] + d[k..];
    assert e[k + 1..] == d[k..];
  }

  /** Backspace inside a block never meets the start of a run: with a positive cursor the in-run
      offset is at least 1, so the engines' branch that merges two runs (offset 0 in a later run)
      is dead code. */
  lemma DeleteNeverMergesRuns(runs: seq<TextRun>, cursor: nat)
    requires runs != [] && cursor > 0
    ensures var (i, total) := LocateOrFirst(runs, cursor); cursor - total >= 1
  {
    LocatedOffset(runs, cursor);
  }

  /** Backspace inside a block deletes exactly the character before the cursor. */
  lemma DeleteInRunsEffect(runs: seq<TextRun>, cursor: nat)
    requires runs != [] && 0 < cursor <= Total(runs)
    ensures var runs' := DeleteInRuns(runs, cursor); var t := RunsText(runs);
      && |runs'| == |runs|
      && RunsText(runs') == t[..cursor - 1] + t[cursor..]
  {
    LocatedOffset(runs, cursor);
    var (i, total) := LocateOrFirst(runs, cursor);
    var off := cursor - total;
    var text := runs[i].text;
    var run := SetText(runs[i], text[..off - 1] + text[off..]);
    assert DeleteInRuns(runs, cursor) == runs[i := run];
    RunsTextAround(runs, i);
    PrefixLength(runs, i);
    RunsTextSetRun(runs, i, run);
    DeleteSplice(RunsText(runs[..i]), text, RunsText(runs[i + 1..]), off);
  }

  /** The shape of the block merge: the last run of the previous block absorbs the first run of
      the removed block, and the removed block's other runs follow, except that a merged
      result that is one lone marker run is replaced by those other runs. */
  lemma MergedRunsShape(prev: seq<TextRun>, cur: seq<TextRun>)
    requires prev != [] && cur != []
    ensures var n := |prev|;
      var last := SetText(prev[n - 1], prev[n - 1].text + cur[0].text);
      MergedRuns(prev, cur) ==
        if n == 1 && IsPlaceholder(last) && |cur| > 1 then cur[1..]
        else prev[..n - 1] + [last] + cur[1..]
  {
    var n := |prev|;
    var last := SetText(prev[n - 1], prev[n - 1].text + cur[0].text);
    var withFirst := InsertRunAt(prev, cur[0], n);
    assert withFirst == prev + [cur[0]];
    var merged := MergeRuns(withFirst, n - 1, n);
    assert withFirst[..n - 1] == prev[..n - 1];
    assert merged == prev[..n - 1] + [last];
  }

  /** The merge keeps the text: the previous block's text followed by the removed block's, except
      that when the merged first part is exactly one lone marker run and more runs follow, that
      run is dropped. */
  lemma MergedRunsText(prev: seq<TextRun>, cur: seq<TextRun>)
    requires prev != [] && cur != []
    ensures RunsText(MergedRuns(prev, cur)) ==
      if |prev| == 1 && prev[0].text + cur[0].text == MARKER && |cur| > 1 then RunsText(cur[1..])
      else RunsText(prev) + RunsText(cur)
  {
    MergedRunsShape(prev, cur);
    var n := |prev|;
    var last := SetText(prev[n - 1], prev[n - 1].text + cur[0].text);
    if !(|prev| == 1 && prev[0].text + cur[0].text == MARKER && |cur| > 1) {
      var head := prev[..n - 1];
      RunsTextAppend(head + [last], cur[1..]);
      RunsTextSnoc(head, last);
      assert head + [prev[n - 1]] == prev;
      RunsTextSnoc(head, prev[n - 1]);
      RunsTextFirst(cur);
      MergeSplice(RunsText(head), prev[n - 1].text, cur[0].text, RunsText(cur[1..]));
    }
  }

  /** After Enter the old block's text length is the cursor Enter started from. */
  lemma SplitStayTotal(runs: seq<TextRun>, cursor: nat, ids: FreshIds)
    requires runs != [] && cursor <= Total(runs)
    ensures Total(SplitBlock(runs, cursor, ids).0) == cursor
  {
    LocatedOffset(runs, cursor);
    SplitBlockShape(runs, cursor, ids);
    var (i, total) := LocateOrFirst(runs, cursor);
    var stay := SplitBlock(runs, cursor, ids).0;
    assert stay[..i] == runs[..i];
    PrefixAgree(stay, runs, i);
  }

  /** The run Backspace rebuilds from the head Enter kept and the first run Enter moved. */
  lemma SplitRejoin(runs: seq<TextRun>, cursor: nat, ids: FreshIds)
    requires runs != [] && cursor <= Total(runs)
    ensures var (i, total) := LocateOrFirst(runs, cursor);
      var (stay, moved) := SplitBlock(runs, cursor, ids);
      var text := runs[i].text;
      var joined := if cursor - total < |text| then text else text + MARKER;
      && |stay| == i + 1 && stay[..i] == runs[..i]
      && |moved| == |runs| - i && moved[1..] == runs[i + 1..]
      && SetText(stay[i], stay[i].text + moved[0].text) == SetText(runs[i], joined)
      && (cursor > 0 ==> |joined| >= 2)
      && (cursor == 0 ==> joined == text || text == "")
  {
    LocatedOffset(runs, cursor);
    SplitBlockShape(runs, cursor, ids);
    var (i, total) := LocateOrFirst(runs, cursor);
    SliceJoin(runs[i].text, cursor - total);
  }

  /** Enter followed by the merge Backspace performs at the start of the new block gives the runs
      back: exactly when the cursor was strictly inside the located run, and with one marker
      appended to that run when the cursor was at its end. The previous block's text length,
      where Backspace puts the cursor, is the cursor Enter started from. At offset 0 the leading
      run must be neither empty nor a lone marker unless it is the only run. */
  lemma SplitThenMergeBlock(runs: seq<TextRun>, cursor: nat, ids: FreshIds)
    requires runs != [] && cursor <= Total(runs)
    requires cursor == 0 ==> |runs| == 1 || (runs[0].text != "" && runs[0].text != MARKER)
    ensures var (i, total) := LocateOrFirst(runs, cursor);
      var (stay, moved) := SplitBlock(runs, cursor, ids);
      var text := runs[i].text;
      && Total(stay) == cursor
      && MergedRuns(stay, moved) ==
           if cursor - total < |text| then runs else runs[i := SetText(runs[i], text + MARKER)]
  {
    SplitStayTotal(runs, cursor, ids);
    SplitRejoin(runs, cursor, ids);
    var (i, total) := LocateOrFirst(runs, cursor);
    var (stay, moved) := SplitBlock(runs, cursor, ids);
    var text := runs[i].text;
    var joined := if cursor - total < |text| then text else text + MARKER;
    var last := SetText(runs[i], joined);
    assert !(i == 0 && IsPlaceholder(last) && |moved| > 1) by {
      if i == 0 && |moved| > 1 {
        assert joined != MARKER;
      }
    }
    MergedRunsShape(stay, moved);
    ReplaceRun(runs, i, last);
  }

  /** Apply-bold always adds runs: one empty bold run, and the split-off tail when the cursor
      is inside a run. */
  lemma BoldInRunsLength(runs: seq<TextRun>, cursor: nat, ids: FreshIds)
    requires runs != []
    ensures |runs| < |BoldInRuns(runs, cursor, ids)| <= |runs| + 2
  {
  }

  /** Putting a run between the runs before and after `i` replaces run `i`. */
  lemma ReplaceRun(runs: seq<TextRun>, i: nat, run: TextRun)
    requires i < |runs|
    ensures runs[..i] + [run] + runs[i + 1..] == runs[i := run]
    ensures run == runs[i] ==> runs[..i] + [run] + runs[i + 1..] == runs
  {
  }
}

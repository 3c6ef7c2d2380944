/** The editing state machine shared by both engines (core/src/engine/index.ts and its older
    twin core/src/engine.ts), stated on values: the blocks of the root container in order, the
    position of the current block among them and the cursor offset. The classes in editor.dfy
    run the same transitions in place and are proved against these functions. */
module Editing {
  import opened Wrappers
  import opened Constants
  import opened Utils
  import opened TextRuns
  import opened RunScan
  import opened BlockEdits
  import opened Interfaces

  /** A block as the engines see it: id, tag and runs. */
  datatype BlockView = BlockView(id: string, tag: string, runs: seq<TextRun>)

  /** The engine state: `root.getChildren()`, the position of `currentNode` in it, `cursorOffset`. */
  datatype State = State(doc: seq<BlockView>, current: nat, cursor: nat)

  /** Block ids are unique, so a lookup by id finds the intended block. */
  ghost predicate DistinctIds(doc: seq<BlockView>)
  {
    forall i, j :: 0 <= i < j < |doc| ==> doc[i].id != doc[j].id
  }

  /** Ids are unique, every tag passed the block constructor's check and every block has at
      least one run. */
  ghost predicate WellFormed(doc: seq<BlockView>)
  {
    && DistinctIds(doc)
    && (forall i :: 0 <= i < |doc| ==> IsBlockNodeTag(doc[i].tag))
    && (forall i :: 0 <= i < |doc| ==> doc[i].runs != [])
  }

  /** The invariant every reachable state keeps: the current block exists and the document is
      well formed. */
  ghost predicate Inv(s: State)
  {
    s.current < |s.doc| && WellFormed(s.doc)
  }

  /** The ids of the blocks. */
  function Ids(doc: seq<BlockView>): set<string>
  {
    set b | b in doc :: b.id
  }

  /** `findBlockNode` over the views: the first position with the id, or -1 when none has it. */
  function FindBlock(doc: seq<BlockView>, id: string): (r: int)
    ensures -1 <= r < |doc|
    ensures r == -1 <==> id !in Ids(doc)
    ensures r >= 0 ==> doc[r].id == id && forall i :: 0 <= i < r ==> doc[i].id != id
  {
    if doc == [] then -1
    else if doc[0].id == id then 0
    else
      var k := FindBlock(doc[1..], id);
      assert Ids(doc) == {doc[0].id} + Ids(doc[1..]);
      if k == -1 then -1 else k + 1
  }

  /** The state the engine constructors leave: one paragraph holding one placeholder run,
      current, with the cursor at 0. */
  function Initial(blockId: string, runId: string): (s: State)
    ensures Inv(s) && |s.doc| == 1 && s.doc[0].tag == "p" && s.doc[0].id == blockId
    ensures s.current == 0 && s.cursor == 0
    ensures RunsText(s.doc[0].runs) == MARKER
  {
    RunsTextSingle(TextRun(runId, MARKER, false));
    State([BlockView(blockId, "p", [TextRun(runId, MARKER, false)])], 0, 0)
  }

  // ---------------------------------------------------------------------------------------
  // The transitions.
  // ---------------------------------------------------------------------------------------

  /** `updateTextContent`: typing a character into the current block. */
  function InsertText(s: State, key: string): State
    requires s.current < |s.doc|
  {
    var b := s.doc[s.current];
    var (runs, cursor) := InsertInRuns(b.runs, s.cursor, key);
    State(s.doc[s.current := b.(runs := runs)], s.current, cursor)
  }

  /** `handleEnterKey`: a new block with the current block's tag goes right after it, takes the
      runs from the cursor on, and becomes current with the cursor at 0. A block without runs
      is left alone. */
  function Enter(s: State, ids: FreshIds): State
    requires s.current < |s.doc|
  {
    var k := s.current;
    var b := s.doc[k];
    if b.runs == [] then s
    else
      var (stay, moved) := SplitBlock(b.runs, s.cursor, ids);
      State(s.doc[..k] + [b.(runs := stay), BlockView(ids.block, b.tag, moved)] + s.doc[k + 1..], k + 1, 0)
  }

  /** `applyBold`: an empty bold run at the cursor; the cursor is set one past the split point,
      into the new run. */
  function ApplyBold(s: State, ids: FreshIds): (r: State)
    requires s.current < |s.doc|
    ensures s.doc[s.current].runs != [] ==> r.cursor == s.cursor + 1
  {
    var b := s.doc[s.current];
    if b.runs == [] then s
    else
      var (i, total) := LocateOrFirst(b.runs, s.cursor);
      LocatedOffset(b.runs, s.cursor);
      var runOffset := s.cursor - total;
      State(s.doc[s.current := b.(runs := BoldInRuns(b.runs, s.cursor, ids))], s.current, total + runOffset + 1)
  }

  /** `handleBackspace`. At offset 0: nothing on the first block; otherwise the block is merged
      into its previous sibling, which becomes current with the cursor at its old text length.
      Elsewhere: the character before the cursor is deleted and the cursor steps back. */
  function Backspace(s: State): State
    requires s.current < |s.doc|
  {
    var k := s.current;
    if s.cursor == 0 then
      if k == 0 then s
      else
        var prev := s.doc[k - 1];
        var cur := s.doc[k];
        State(s.doc[..k - 1] + [prev.(runs := MergedRuns(prev.runs, cur.runs))] + s.doc[k + 1..],
              k - 1, Total(prev.runs))
    else
      var b := s.doc[k];
      if b.runs == [] then s
      else State(s.doc[k := b.(runs := DeleteInRuns(b.runs, s.cursor))], k, s.cursor - 1)
  }

  /** `updateCursorOffset` given the caret manager's answer: only an arrow key asks it; a null
      answer changes nothing; otherwise the offset is taken and the current block switches to the
      answer's block when a child of the root carries that id. */
  function MoveCursor(s: State, key: string, answer: Option<CaretPosition>): State
  {
    if !IsArrowKey(key) || answer.None? then s
    else
      var k := FindBlock(s.doc, answer.value.blockNodeId);
      State(s.doc, if k >= 0 then k else s.current, answer.value.offset)
  }

  // ---------------------------------------------------------------------------------------
  // Properties of the transitions.
  // ---------------------------------------------------------------------------------------

  /** Typing changes only the current block's runs, and lands the key in its text at the cursor
      whenever the cursor lies within that text; past the text it changes nothing. */
  lemma InsertTextEffect(s: State, key: string)
    requires Inv(s)
    ensures var s' := InsertText(s, key); var b := s.doc[s.current];
      && s'.current == s.current && |s'.doc| == |s.doc|
      && (forall j :: 0 <= j < |s.doc| && j != s.current ==> s'.doc[j] == s.doc[j])
      && s'.doc[s.current].id == b.id && s'.doc[s.current].tag == b.tag
      && (s.cursor <= Total(b.runs) ==>
            RunsText(s'.doc[s.current].runs) == RunsText(b.runs)[..s.cursor] + key + RunsText(b.runs)[s.cursor..])
      && (s.cursor > Total(b.runs) ==> s' == s)
  {
    InsertInRunsEffect(s.doc[s.current].runs, s.cursor, key);
  }

  /** Enter puts the new block right after the current one, with the current block's tag, and
      makes it current at offset 0; the blocks before and after keep their order; for a cursor
      within the text the old block keeps the text before the cursor and the new one holds the
      text from the cursor on, behind one marker exactly when the cursor was at the end of the
      run the scan located (so that the split-off tail was empty). */
  lemma EnterEffect(s: State, ids: FreshIds)
    requires Inv(s)
    ensures var k := s.current; var b := s.doc[k]; var s' := Enter(s, ids);
      && |s'.doc| == |s.doc| + 1
      && s'.current == k + 1 && s'.cursor == 0
      && s'.doc[..k] == s.doc[..k] && s'.doc[k + 2..] == s.doc[k + 1..]
      && s'.doc[k].id == b.id && s'.doc[k].tag == b.tag
      && s'.doc[k + 1].id == ids.block && s'.doc[k + 1].tag == b.tag
    ensures var k := s.current; var b := s.doc[k]; var s' := Enter(s, ids); var t := RunsText(b.runs);
      s.cursor <= |t| ==>
        && RunsText(s'.doc[k].runs) == t[..s.cursor]
        && var (i, total) := LocateOrFirst(b.runs, s.cursor);
           RunsText(s'.doc[k + 1].runs) == if s.cursor - total < |b.runs[i].text| then t[s.cursor..] else MARKER + t[s.cursor..]
  {
    var k := s.current;
    var b := s.doc[k];
    var s' := Enter(s, ids);
    assert s'.doc[k + 2..] == s.doc[k + 1..];
    if s.cursor <= Total(b.runs) {
      SplitBlockText(b.runs, s.cursor, ids);
    }
  }

  /** Apply-bold moves the cursor exactly one forward and, for a cursor within the text, inserts
      one marker into the current block's text at the cursor; no other block changes. */
  lemma ApplyBoldEffect(s: State, ids: FreshIds)
    requires Inv(s)
    ensures var s' := ApplyBold(s, ids); var b := s.doc[s.current];
      && s'.cursor == s.cursor + 1 && s'.current == s.current && |s'.doc| == |s.doc|
      && (forall j :: 0 <= j < |s.doc| && j != s.current ==> s'.doc[j] == s.doc[j])
      && s'.doc[s.current].id == b.id && s'.doc[s.current].tag == b.tag
      && (s.cursor <= Total(b.runs) ==>
            RunsText(s'.doc[s.current].runs) == RunsText(b.runs)[..s.cursor] + MARKER + RunsText(b.runs)[s.cursor..])
  {
    var b := s.doc[s.current];
    LocatedOffset(b.runs, s.cursor);
    if s.cursor <= Total(b.runs) {
      BoldInRunsText(b.runs, s.cursor, ids);
    }
  }

  /** Backspace at a positive cursor within the text deletes exactly the character before it and
      steps back; no other block changes. */
  lemma BackspaceInBlock(s: State)
    requires Inv(s) && 0 < s.cursor <= Total(s.doc[s.current].runs)
    ensures var k := s.current; var t := RunsText(s.doc[k].runs); var s' := Backspace(s);
      && s'.current == k && s'.cursor == s.cursor - 1 && |s'.doc| == |s.doc|
      && (forall j :: 0 <= j < |s.doc| && j != k ==> s'.doc[j] == s.doc[j])
      && s'.doc[k].id == s.doc[k].id
      && RunsText(s'.doc[k].runs) == t[..s.cursor - 1] + t[s.cursor..]
  {
    DeleteInRunsEffect(s.doc[s.current].runs, s.cursor);
  }

  /** Backspace at offset 0 on the first block changes nothing; on a later block the previous
      sibling becomes current with the cursor at its pre-merge text length, the block is removed,
      the other blocks keep their order, and the previous block's text becomes its own followed
      by the removed block's (a lone marker run left by the merge is dropped when more runs
      follow). */
  lemma BackspaceAtStart(s: State)
    requires Inv(s) && s.cursor == 0
    ensures s.current == 0 ==> Backspace(s) == s
    ensures var k := s.current; var s' := Backspace(s);
      k > 0 ==>
        && s'.current == k - 1 && s'.cursor == |RunsText(s.doc[k - 1].runs)|
        && |s'.doc| + 1 == |s.doc|
        && s'.doc[..k - 1] == s.doc[..k - 1] && s'.doc[k..] == s.doc[k + 1..]
        && s'.doc[k - 1].id == s.doc[k - 1].id && s'.doc[k - 1].tag == s.doc[k - 1].tag
        && RunsText(s'.doc[k - 1].runs) ==
             var prev := s.doc[k - 1].runs; var cur := s.doc[k].runs;
             if |prev| == 1 && prev[0].text + cur[0].text == MARKER && |cur| > 1 then RunsText(cur[1..])
             else RunsText(prev) + RunsText(cur)
  {
    var k := s.current;
    if k > 0 {
      var s' := Backspace(s);
      assert s'.doc[k..] == s.doc[k + 1..];
      MergedRunsText(s.doc[k - 1].runs, s.doc[k].runs);
    }
  }

  /** Enter followed by Backspace (at the start of the new block) undoes the Enter: the state
      comes back exactly when the cursor was strictly inside a run, and with one marker appended
      to the located run when the cursor was at that run's end. */
  lemma EnterThenBackspace(s: State, ids: FreshIds)
    requires Inv(s)
    requires var runs := s.doc[s.current].runs;
      && s.cursor <= Total(runs)
      && (s.cursor == 0 ==> |runs| == 1 || (runs[0].text != "" && runs[0].text != MARKER))
    ensures var b := s.doc[s.current]; var (i, total) := LocateOrFirst(b.runs, s.cursor);
      var text := b.runs[i].text;
      Backspace(Enter(s, ids)) ==
        if s.cursor - total < |text| then s
        else s.(doc := s.doc[s.current := b.(runs := b.runs[i := SetText(b.runs[i], text + MARKER)])])
  {
    var b := s.doc[s.current];
    SplitThenMergeBlock(b.runs, s.cursor, ids);
    EnterThenBackspaceMerges(s, ids);
  }

  /** Enter followed by Backspace leaves the other blocks and the block count as they were, and
      gives the current block back the merge of the two halves Enter split it into. */
  lemma EnterThenBackspaceMerges(s: State, ids: FreshIds)
    requires s.current < |s.doc| && s.doc[s.current].runs != []
    requires s.cursor == Total(SplitBlock(s.doc[s.current].runs, s.cursor, ids).0)
    ensures var b := s.doc[s.current]; var (stay, moved) := SplitBlock(b.runs, s.cursor, ids);
      Backspace(Enter(s, ids)) == s.(doc := s.doc[s.current := b.(runs := MergedRuns(stay, moved))])
  {
    var k := s.current;
    var b := s.doc[k];
    var (stay, moved) := SplitBlock(b.runs, s.cursor, ids);
    var s1 := Enter(s, ids);
    SpliceTwo(s.doc, k, b.(runs := stay), BlockView(ids.block, b.tag, moved));
    var merged := MergedRuns(stay, moved);
    var s2 := Backspace(s1);
    assert s2.doc == s1.doc[..k] + [b.(runs := merged)] + s1.doc[k + 2..];
    SpliceOne(s.doc, k, b.(runs := merged));
  }

  /** Putting one element in place of position `k` is an update at `k`. */
  lemma SpliceOne<T>(d: seq<T>, k: nat, x: T)
    requires k < |d|
    ensures d[..k] + [x] + d[k + 1..] == d[k := x]
  {
  }

  /** Putting two elements in place of position `k`: what comes before and after is kept. */
  lemma SpliceTwo<T>(d: seq<T>, k: nat, x: T, y: T)
    requires k < |d|
    ensures var e := d[..k] + [x, y] + d[k + 1..];
      && |e| == |d| + 1 && e[..k] == d[..k] && e[k] == x && e[k + 1] == y && e[k + 2..] == d[k + 1..]
  {
    var e := d[..k] + [x, y] + d[k + 1..];
    assert e[k + 2..] == d[k + 1..];
  }

  /** Enter keeps the invariant when the new block's id is fresh. */
  lemma EnterInv(s: State, ids: FreshIds)
    requires Inv(s) && ids.block !in Ids(s.doc)
    ensures Inv(Enter(s, ids))
  {
    var k := s.current;
    var b := s.doc[k];
    var (stay, moved) := SplitBlock(b.runs, s.cursor, ids);
    assert stay != [] && moved != [] by {
      SplitBlockShape(b.runs, s.cursor, ids);
    }
    SplitKeeps(s.doc, k, b.(runs := stay), BlockView(ids.block, b.tag, moved));
  }

  /** Backspace keeps the invariant. */
  lemma BackspaceInv(s: State)
    requires Inv(s)
    ensures Inv(Backspace(s))
  {
    var k := s.current;
    if s.cursor == 0 && k > 0 {
      var prev := s.doc[k - 1];
      var merged := MergedRuns(prev.runs, s.doc[k].runs);
      assert merged != [] by {
        MergedRunsShape(prev.runs, s.doc[k].runs);
      }
      MergeKeeps(s.doc, k, prev.(runs := merged));
    } else if s.cursor > 0 {
      var b := s.doc[k];
      UpdateKeeps(s.doc, k, b.(runs := DeleteInRuns(b.runs, s.cursor)));
    }
  }

  /** Typing keeps the invariant. */
  lemma InsertTextInv(s: State, key: string)
    requires Inv(s)
    ensures Inv(InsertText(s, key))
  {
    var b := s.doc[s.current];
    var typed := InsertInRuns(b.runs, s.cursor, key).0;
    assert |typed| == |b.runs| by {
      InsertInRunsEffect(b.runs, s.cursor, key);
    }
    UpdateKeeps(s.doc, s.current, b.(runs := typed));
  }

  /** Apply-bold keeps the invariant. */
  lemma ApplyBoldInv(s: State, ids: FreshIds)
    requires Inv(s)
    ensures Inv(ApplyBold(s, ids))
  {
    var b := s.doc[s.current];
    var bolded := BoldInRuns(b.runs, s.cursor, ids);
    assert |bolded| > |b.runs| by {
      BoldInRunsLength(b.runs, s.cursor, ids);
    }
    UpdateKeeps(s.doc, s.current, b.(runs := bolded));
  }

  /** Cursor moves keep the invariant. */
  lemma MoveCursorInv(s: State, key: string, answer: Option<CaretPosition>)
    requires Inv(s)
    ensures Inv(MoveCursor(s, key, answer))
  {
  }

  /** Replacing a block by one with the same id and tag and some runs keeps the document well
      formed. */
  lemma UpdateKeeps(d: seq<BlockView>, k: nat, x: BlockView)
    requires WellFormed(d) && k < |d|
    requires x.id == d[k].id && x.tag == d[k].tag && x.runs != []
    ensures WellFormed(d[k := x])
  {
  }

  /** Splitting a block in two, the second with a fresh id, keeps the document well formed. */
  lemma SplitKeeps(d: seq<BlockView>, k: nat, x: BlockView, y: BlockView)
    requires WellFormed(d) && k < |d|
    requires x.id == d[k].id && x.tag == d[k].tag && x.runs != []
    requires y.id !in Ids(d) && y.tag == d[k].tag && y.runs != []
    ensures WellFormed(d[..k] + [x, y] + d[k + 1..])
  {
    var d' := d[..k] + [x, y] + d[k + 1..];
    SpliceTwo(d, k, x, y);
    // every block other than the new one is an old block, with its id, tag and runs
    forall i | 0 <= i < |d'| && i != k + 1
      ensures var o := if i <= k then i else i - 1; d'[i].id == d[o].id && d'[i].tag == d[o].tag && d'[i].runs != []
    {
      if i < k {
        assert d'[i] == d'[..k][i];
      } else if i > k + 1 {
        assert d'[i] == d'[k + 2..][i - k - 2];
      }
    }
    forall i, j | 0 <= i < j < |d'|
      ensures d'[i].id != d'[j].id
    {
      if j == k + 1 {
        assert d[i] in d;
      } else if i == k + 1 {
        assert d[j - 1] in d;
      }
    }
  }

  /** Merging block `k` into block `k - 1` keeps the document well formed. */
  lemma MergeKeeps(d: seq<BlockView>, k: nat, x: BlockView)
    requires WellFormed(d) && 0 < k < |d|
    requires x.id == d[k - 1].id && x.tag == d[k - 1].tag && x.runs != []
    ensures WellFormed(d[..k - 1] + [x] + d[k + 1..])
  {
    var d' := d[..k - 1] + [x] + d[k + 1..];
    forall i | 0 <= i < |d'|
      ensures var o := if i < k then i else i + 1; d'[i].id == d[o].id && d'[i].tag == d[o].tag && d'[i].runs != []
    {
      if i < k - 1 {
        assert d'[i] == d[..k - 1][i];
      } else if i >= k {
        assert d'[i] == d[k + 1..][i - k];
      }
    }
  }

  /** A null answer, or a key that is not an arrow, changes nothing; otherwise the offset is the
      answer's and the current block is the one carrying the answer's id, if any block does. */
  lemma MoveCursorEffect(s: State, key: string, answer: Option<CaretPosition>)
    requires Inv(s)
    ensures !IsArrowKey(key) || answer.None? ==> MoveCursor(s, key, answer) == s
    ensures IsArrowKey(key) && answer.Some? ==>
      var s' := MoveCursor(s, key, answer);
      && s'.doc == s.doc && s'.cursor == answer.value.offset
      && (answer.value.blockNodeId in Ids(s.doc) ==> s'.doc[s'.current].id == answer.value.blockNodeId)
      && (answer.value.blockNodeId !in Ids(s.doc) ==> s'.current == s.current)
  {
  }
}

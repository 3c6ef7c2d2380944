/** The editing core both engines share (core/src/engine/index.ts and core/src/engine.ts run the
    same five operations on the same two fields): the root container, `currentNode` and
    `cursorOffset`, updated in place. Every operation is proved against the matching transition
    of editing.dfy, read through `Abs()`. Renderer and caret-manager calls are output only and
    are left out; the caret manager's answer to an arrow key is a parameter. */
module EditorCore {
  import opened Wrappers
  import opened TextRuns
  import opened Nodes
  import opened RunScan
  import opened BlockEdits
  import opened Editing
  import opened Interfaces

  /** What the engines read of a block. */
  function View(b: Block): BlockView
    reads b
  {
    BlockView(b.id, b.tagName, b.runs)
  }

  /** The views of a children list, in order. */
  function Views(cs: seq<Block>): (r: seq<BlockView>)
    reads cs
    ensures |r| == |cs| && forall i :: 0 <= i < |cs| ==> r[i] == View(cs[i])
  {
    if cs == [] then [] else [View(cs[0])] + Views(cs[1..])
  }

  /** No two blocks of the list carry the same id. */
  ghost predicate UniqueIds(cs: seq<Block>)
  {
    forall i, j :: 0 <= i < j < |cs| ==> cs[i].id != cs[j].id
  }

  /** In a list with unique ids, looking up the id of the block at `k` finds `k`. */
  lemma IndexOfUnique(cs: seq<Block>, k: nat)
    requires k < |cs| && UniqueIds(cs)
    ensures IndexOfId(cs, cs[k].id) == k
  {
  }

  /** In a list with unique ids, the block at `k` is no other position's block. */
  lemma OthersDiffer(cs: seq<Block>, k: nat)
    requires k < |cs| && UniqueIds(cs)
    ensures forall j :: 0 <= j < |cs| && j != k ==> cs[j] != cs[k]
  {
    forall j | 0 <= j < |cs| && j != k
      ensures cs[j] != cs[k]
    {
      if j < k {
        assert cs[j].id != cs[k].id;
      } else {
        assert cs[k].id != cs[j].id;
      }
    }
  }

  /** A list whose views agree with `d` everywhere has `d` as its views. */
  lemma ViewsAgree(cs: seq<Block>, d: seq<BlockView>)
    requires |cs| == |d| && forall j :: 0 <= j < |cs| ==> View(cs[j]) == d[j]
    ensures Views(cs) == d
  {
  }

  /** A list whose views agree with `before` everywhere but at `k`. */
  lemma ViewsAllBut(cs: seq<Block>, before: seq<BlockView>, k: nat)
    requires k < |cs| == |before|
    requires forall j :: 0 <= j < |cs| && j != k ==> View(cs[j]) == before[j]
    ensures Views(cs) == before[k := View(cs[k])]
  {
  }

  /** The state apply-bold leads to, given the new runs of the current block and the new cursor
      as the block-level step computes them. */
  lemma BoldResult(s: State, ids: FreshIds, runs: seq<TextRun>, cursor: nat)
    requires s.current < |s.doc|
    requires s.doc[s.current].runs == [] ==> runs == [] && cursor == s.cursor
    requires s.doc[s.current].runs != [] ==> runs == BoldInRuns(s.doc[s.current].runs, s.cursor, ids) && cursor == s.cursor + 1
    ensures Editing.ApplyBold(s, ids) == State(s.doc[s.current := s.doc[s.current].(runs := runs)], s.current, cursor)
  {
    if s.doc[s.current].runs == [] {
      assert s.doc[s.current := s.doc[s.current].(runs := runs)] == s.doc;
    }
  }

  /** The views of a list with one more block right after position `k`. */
  lemma ViewsInsertAfter(cs: seq<Block>, k: nat, x: Block)
    requires k < |cs|
    ensures Views(cs[..k + 1] + [x] + cs[k + 1..]) == Views(cs)[..k + 1] + [View(x)] + Views(cs)[k + 1..]
  {
    var e := cs[..k + 1] + [x] + cs[k + 1..];
    var d := Views(cs)[..k + 1] + [View(x)] + Views(cs)[k + 1..];
    forall j | 0 <= j < |e|
      ensures View(e[j]) == d[j]
    {
      if j <= k {
        assert e[j] == cs[j] && d[j] == Views(cs)[j];
      } else if j > k + 1 {
        assert e[j] == cs[j - 1] && d[j] == Views(cs)[j - 1];
      }
    }
    ViewsAgree(e, d);
  }

  /** The views of a list with the block at `k` cut out. */
  lemma ViewsRemove(cs: seq<Block>, k: nat)
    requires k < |cs|
    ensures Views(cs[..k] + cs[k + 1..]) == Views(cs)[..k] + Views(cs)[k + 1..]
  {
    var e := cs[..k] + cs[k + 1..];
    var d := Views(cs)[..k] + Views(cs)[k + 1..];
    forall j | 0 <= j < |e|
      ensures View(e[j]) == d[j]
    {
      if j < k {
        assert e[j] == cs[j] && d[j] == Views(cs)[j];
      } else {
        assert e[j] == cs[j + 1] && d[j] == Views(cs)[j + 1];
      }
    }
    ViewsAgree(e, d);
  }

  /** `insertChildAfter` with a reference id that is found puts the block right after it. */
  lemma InsertAfterFound(cs: seq<Block>, x: Block, id: string)
    requires IndexOfId(cs, id) >= 0
    ensures var k := IndexOfId(cs, id); InsertAfterId(cs, x, id) == cs[..k + 1] + [x] + cs[k + 1..]
  {
  }

  /** The members of a list with one more element are that element and the old members. */
  lemma InsertedMembers<T>(cs: seq<T>, k: nat, x: T)
    requires k < |cs|
    ensures forall b | b in cs[..k + 1] + [x] + cs[k + 1..] :: b == x || b in cs
  {
    forall b | b in cs[..k + 1] + [x] + cs[k + 1..]
      ensures b == x || b in cs
    {
      if b != x && b in cs[..k + 1] {
        assert b in cs;
      }
    }
  }

  /** A block inserted with a fresh id keeps the ids unique. */
  lemma InsertKeepsUnique(cs: seq<Block>, k: nat, x: Block)
    requires k < |cs| && UniqueIds(cs) && forall b | b in cs :: b.id != x.id
    ensures UniqueIds(cs[..k + 1] + [x] + cs[k + 1..])
  {
    var e := cs[..k + 1] + [x] + cs[k + 1..];
    forall i, j | 0 <= i < j < |e|
      ensures e[i].id != e[j].id
    {
      if j == k + 1 {
        assert e[i] == cs[i];
      } else if i == k + 1 {
        assert e[j] == cs[j - 1];
      } else {
        var oi := if i <= k then i else i - 1;
        var oj := if j <= k then j else j - 1;
        assert e[i] == cs[oi] && e[j] == cs[oj];
      }
    }
  }

  /** The members of a list with one element cut out are old members. */
  lemma RemovedMembers<T>(cs: seq<T>, k: nat)
    requires k < |cs|
    ensures forall b | b in cs[..k] + cs[k + 1..] :: b in cs
  {
    forall b | b in cs[..k] + cs[k + 1..]
      ensures b in cs
    {
      if b in cs[..k] {
        assert b in cs;
      }
    }
  }

  /** Cutting one block out keeps the ids distinct. */
  lemma RemoveKeepsUnique(cs: seq<Block>, k: nat)
    requires k < |cs| && UniqueIds(cs)
    ensures UniqueIds(cs[..k] + cs[k + 1..])
  {
    var e := cs[..k] + cs[k + 1..];
    forall i, j | 0 <= i < j < |e|
      ensures e[i].id != e[j].id
    {
      var oi := if i < k then i else i + 1;
      var oj := if j < k then j else j + 1;
      assert e[i] == cs[oi] && e[j] == cs[oj];
    }
  }

  /** Looking a block up by id in the views finds the position `findIndex` finds in the
      children. */
  lemma {:induction false} FindBlockAgrees(cs: seq<Block>, id: string)
    ensures FindBlock(Views(cs), id) == IndexOfId(cs, id)
  {
    if cs != [] {
      assert Views(cs)[1..] == Views(cs[1..]);
      FindBlockAgrees(cs[1..], id);
    }
  }

  /** The state backspace at a positive offset leads to, given the current block's new runs and
      the new cursor as the block-level step computes them. */
  lemma DeleteResult(s: State, runs: seq<TextRun>, cursor: nat)
    requires s.current < |s.doc| && s.cursor > 0
    requires s.doc[s.current].runs == [] ==> runs == [] && cursor == s.cursor
    requires s.doc[s.current].runs != [] ==> runs == DeleteInRuns(s.doc[s.current].runs, s.cursor) && cursor == s.cursor - 1
    ensures Editing.Backspace(s) == State(s.doc[s.current := s.doc[s.current].(runs := runs)], s.current, cursor)
  {
    if s.doc[s.current].runs == [] {
      assert s.doc[s.current := s.doc[s.current].(runs := runs)] == s.doc;
    }
  }

  /** The state enter leads to, given the current block's runs after the split and the new block
      as the block-level steps compute them. */
  lemma EnterResult(s: State, ids: FreshIds, runs: seq<TextRun>, added: BlockView)
    requires s.current < |s.doc| && s.doc[s.current].runs != []
    requires var split := SplitBlock(s.doc[s.current].runs, s.cursor, ids);
      runs == split.0 && added == BlockView(ids.block, s.doc[s.current].tag, split.1)
    ensures var k := s.current; var d := s.doc[k := s.doc[k].(runs := runs)];
      Editing.Enter(s, ids) == State(d[..k + 1] + [added] + d[k + 1..], k + 1, 0)
  {
    var k := s.current;
    var x := s.doc[k].(runs := runs);
    assert s.doc[k := x][..k + 1] == s.doc[..k] + [x];
  }

  /** Updating positions `k - 1` and `k`, then cutting position `k` out. */
  lemma UpdateThenRemove<T>(d: seq<T>, k: nat, x: T, y: T)
    requires 0 < k < |d|
    ensures var e := d[k - 1 := x][k := y]; e[..k] + e[k + 1..] == d[..k - 1] + [x] + d[k + 1..]
  {
    var e := d[k - 1 := x][k := y];
    assert e[..k] == d[..k - 1] + [x];
  }

  /** The direction the engines pass to the caret manager for a key (`updateCursorOffset`):
      one per arrow key, none for any other key. */
  function DirectionOf(key: string): (r: Option<CaretDirection>)
    ensures r.Some? <==> Utils.IsArrowKey(key)
    ensures r == Some(LEFT) <==> key == "ArrowLeft"
    ensures r == Some(RIGHT) <==> key == "ArrowRight"
  {
    if key == "ArrowLeft" then Some(LEFT)
    else if key == "ArrowRight" then Some(RIGHT)
    else if key == "ArrowUp" then Some(UP)
    else if key == "ArrowDown" then Some(DOWN)
    else None
  }

  /** The state and the five editing operations of an engine. */
  class Editor {
    const root: Container
    var currentNode: Block
    var cursorOffset: nat

    /** The object structure: the current block is a child of the root, the children carry
        distinct ids and every child's parent is the root. */
    ghost predicate Linked()
      reads this, root, root.children
    {
      && IndexOfId(root.children, currentNode.id) >= 0
      && root.children[IndexOfId(root.children, currentNode.id)] == currentNode
      && UniqueIds(root.children)
      && (forall b | b in root.children :: b.parent == root)
    }

    /** The editing state this object stands for. */
    function Abs(): State
      reads this, root, root.children
      requires IndexOfId(root.children, currentNode.id) >= 0
    {
      State(Views(root.children), IndexOfId(root.children, currentNode.id), cursorOffset)
    }

    /** The object invariant: the structure holds and the state it stands for keeps the editing
        invariant (every tag a block tag, every block with runs). */
    ghost predicate Valid()
      reads this, root, root.children
    {
      Linked() && Inv(Abs())
    }

    /** The constructors of both engines: an `article` root holding one `p` block, which is
        current, with the cursor at 0. */
    constructor (rootId: string, blockId: string, runId: string)
      ensures Valid() && Abs() == Initial(blockId, runId)
      ensures root.tagName == "article" && root.parent == null && root.id == rootId
    {
      var r := new Container("article", null, rootId);
      var initialParagraph := new Block("p", r, blockId, runId);
      r.AppendChild(initialParagraph);
      root := r;
      currentNode := initialParagraph;
      cursorOffset := 0;
      new;
      assert root.children == [initialParagraph];
      ViewsAgree(root.children, [View(initialParagraph)]);
      assert Abs() == Initial(blockId, runId);
    }

    /** `findBlockNode`: the direct child of the root carrying the id, if any. */
    method FindBlockNode(blockNodeId: string) returns (r: Option<Block>)
      ensures r.None? <==> IndexOfId(root.children, blockNodeId) == -1
      ensures r.Some? ==> r.value == root.children[IndexOfId(root.children, blockNodeId)] && r.value.id == blockNodeId
    {
      var index := FindIndex(root.children, blockNodeId);
      if index == -1 {
        return None;
      }
      return Some(root.children[index]);
    }

    /** `updateTextContent`: the key goes into the located run at the in-run offset; the cursor
        moves on unless the text before the insertion point starts with the marker; nothing
        happens when the scan finds no run. */
    method UpdateTextContent(key: string)
      requires Valid()
      modifies this, currentNode
      ensures Valid() && Abs() == InsertText(old(Abs()), key)
    {
      ghost var s := Abs();
      TypeIntoCurrent(key);
      InsertTextInv(s, key);
    }

    /** The body of `updateTextContent` on the object structure. */
    method TypeIntoCurrent(key: string)
      requires Linked()
      modifies this, currentNode
      ensures Linked() && Abs() == InsertText(old(Abs()), key)
    {
      ghost var s := Abs();
      ghost var cs := root.children;
      OthersDiffer(cs, s.current);
      cursorOffset := TypeInBlock(currentNode, cursorOffset, key);
      assert forall j | 0 <= j < |cs| && j != s.current :: View(cs[j]) == s.doc[j];
      ViewsAllBut(cs, s.doc, s.current);
      assert View(currentNode) == s.doc[s.current].(runs := currentNode.runs);
    }

    /** `applyBold`: an empty bold run goes in at the cursor and the cursor moves one on;
        nothing happens on a block without runs. */
    method ApplyBold(ids: FreshIds)
      requires Valid()
      modifies this, currentNode
      ensures Valid() && Abs() == Editing.ApplyBold(old(Abs()), ids)
    {
      ghost var s := Abs();
      BoldAtCursor(ids);
      ApplyBoldInv(s, ids);
    }

    /** The body of `applyBold` on the object structure. */
    method BoldAtCursor(ids: FreshIds)
      requires Linked()
      modifies this, currentNode
      ensures Linked() && Abs() == Editing.ApplyBold(old(Abs()), ids)
    {
      ghost var s := Abs();
      ghost var cs := root.children;
      OthersDiffer(cs, s.current);
      cursorOffset := BoldInBlock(currentNode, cursorOffset, ids);
      assert forall j | 0 <= j < |cs| && j != s.current :: View(cs[j]) == s.doc[j];
      ViewsAllBut(cs, s.doc, s.current);
      assert View(currentNode) == s.doc[s.current].(runs := currentNode.runs);
      BoldResult(s, ids, currentNode.runs, cursorOffset);
    }

    /** `handleEnterKey`: the current block is split at the cursor, a new block with its tag
        takes the rest and goes right after it, and becomes current at offset 0. The new block's
        id must be fresh (a random id in the engines). */
    method HandleEnterKey(ids: FreshIds)
      requires Valid() && ids.block !in Ids(Abs().doc)
      modifies this, currentNode, root
      ensures Valid() && Abs() == Editing.Enter(old(Abs()), ids)
    {
      ghost var s := Abs();
      assert forall b | b in root.children :: b.id != ids.block by {
        assert forall j | 0 <= j < |s.doc| :: s.doc[j] in s.doc;
      }
      SplitIntoNewBlock(ids);
      EnterInv(s, ids);
    }

    /** The body of `handleEnterKey` on the object structure. */
    method SplitIntoNewBlock(ids: FreshIds)
      requires Linked() && forall b | b in root.children :: b.id != ids.block
      requires Utils.IsBlockNodeTag(currentNode.tagName)
      modifies this, currentNode, root
      ensures Linked() && Abs() == Editing.Enter(old(Abs()), ids)
    {
      ghost var s := Abs();
      ghost var k := s.current;
      var located, remainingRuns := SplitCurrent(ids);
      if !located {
        return;
      }
      ghost var b := s.doc[k];
      ghost var added := BlockView(ids.block, b.tag, SplitBlock(b.runs, s.cursor, ids).1);
      assert View(currentNode) == b.(runs := currentNode.runs);
      ghost var d := Views(root.children);
      assert d == s.doc[k := b.(runs := currentNode.runs)] && IndexOfId(root.children, currentNode.id) == k;
      EnterResult(s, ids, currentNode.runs, added);
      AddSplitOff(ids, remainingRuns);
      assert Abs() == State(d[..k + 1] + [added] + d[k + 1..], k + 1, 0);
    }

    /** The block `handleEnterKey` creates, with the current block's tag and the split-off runs,
        goes in right after the current block and becomes current at offset 0. */
    method AddSplitOff(ids: FreshIds, remainingRuns: seq<TextRun>)
      requires Linked() && Utils.IsBlockNodeTag(currentNode.tagName)
      requires forall b | b in root.children :: b.id != ids.block
      modifies this, root
      ensures Linked()
      ensures var d := old(Views(root.children)); var k := old(IndexOfId(root.children, currentNode.id));
        var added := BlockView(ids.block, old(currentNode.tagName), InsertRunsAt([TextRun(ids.placeholder, MARKER, false)], remainingRuns, 0));
        Abs() == State(d[..k + 1] + [added] + d[k + 1..], k + 1, 0)
    {
      var newNode := NewSibling(currentNode, ids, remainingRuns);
      AddAfterCurrent(newNode);
    }

    /** The first half of `handleEnterKey`: the current block keeps the runs before the cursor;
        no other block changes. */
    method SplitCurrent(ids: FreshIds) returns (located: bool, remainingRuns: seq<TextRun>)
      requires Linked()
      modifies currentNode
      ensures Linked()
      ensures var s := old(Abs()); var b := s.doc[s.current];
        && (located <==> b.runs != [])
        && (!located ==> Abs() == s)
        && (located ==> Abs() == s.(doc := s.doc[s.current := View(currentNode)]))
      ensures located ==> currentNode.runs == SplitBlock(old(currentNode.runs), cursorOffset, ids).0 && currentNode.tagName == old(currentNode.tagName)
      ensures located ==> InsertRunsAt([TextRun(ids.placeholder, MARKER, false)], remainingRuns, 0) == SplitBlock(old(currentNode.runs), cursorOffset, ids).1
    {
      ghost var s := Abs();
      ghost var cs := root.children;
      OthersDiffer(cs, s.current);
      located, remainingRuns := SplitOffRuns(currentNode, cursorOffset, ids);
      assert forall j | 0 <= j < |cs| && j != s.current :: View(cs[j]) == s.doc[j];
      ViewsAllBut(cs, s.doc, s.current);
      if !located {
        assert View(currentNode) == s.doc[s.current];
        assert s.doc[s.current := View(currentNode)] == s.doc;
      }
    }

    /** The second half of `handleEnterKey`: the new block goes in right after the current one
        and becomes current at offset 0; no block changes. */
    method AddAfterCurrent(newNode: Block)
      requires Linked() && newNode.parent == root
      requires forall b | b in root.children :: b.id != newNode.id
      modifies this, root
      ensures Linked()
      ensures var d := old(Views(root.children)); var k := old(IndexOfId(root.children, currentNode.id));
        Abs() == State(d[..k + 1] + [View(newNode)] + d[k + 1..], k + 1, 0)
    {
      ghost var cs := root.children;
      ghost var k := IndexOfId(cs, currentNode.id);
      ghost var d := Views(cs);
      ghost var e := cs[..k + 1] + [newNode] + cs[k + 1..];
      InsertAfterFound(cs, newNode, currentNode.id);
      root.InsertChildAfter(newNode, currentNode);
      currentNode := newNode;
      cursorOffset := 0;
      assert forall j | 0 <= j < |cs| :: View(cs[j]) == d[j];
      ViewsAgree(cs, d);
      ViewsInsertAfter(cs, k, newNode);
      InsertKeepsUnique(cs, k, newNode);
      IndexOfUnique(e, k + 1);
      InsertedMembers(cs, k, newNode);
    }

    /** `handleBackspace`: at offset 0 the current block is merged into its previous sibling,
        which becomes current with the cursor at its old text length (nothing happens on the
        first block); elsewhere the character before the cursor is deleted and the cursor steps
        back. */
    method HandleBackspace()
      requires Valid()
      modifies this, root, set b | b in root.children
      ensures Valid() && Abs() == Editing.Backspace(old(Abs()))
    {
      if cursorOffset == 0 {
        MergeWithPrevious();
      } else {
        ghost var s := Abs();
        DeleteBeforeCursor();
        BackspaceInv(s);
      }
    }

    /** The positive-offset half of `handleBackspace` on the object structure. */
    method DeleteBeforeCursor()
      requires Linked() && cursorOffset > 0
      modifies this, currentNode
      ensures Linked() && Abs() == Editing.Backspace(old(Abs()))
    {
      ghost var s := Abs();
      ghost var cs := root.children;
      OthersDiffer(cs, s.current);
      var located := DeleteInBlock(currentNode, cursorOffset);
      if located {
        cursorOffset := cursorOffset - 1;
      }
      assert forall j | 0 <= j < |cs| && j != s.current :: View(cs[j]) == s.doc[j];
      ViewsAllBut(cs, s.doc, s.current);
      DeleteResult(s, currentNode.runs, cursorOffset);
    }

    /** The offset-0 half of `handleBackspace`. */
    method MergeWithPrevious()
      requires Valid() && cursorOffset == 0
      modifies this, root, set b | b in root.children
      ensures Valid() && Abs() == Editing.Backspace(old(Abs()))
    {
      ghost var s := Abs();
      var parent := currentNode.GetParent();
      var nodeToDelete := currentNode;
      var siblings := parent.GetChildren();
      var currentIndex := FindIndex(siblings, nodeToDelete.id);
      assert siblings == root.children && currentIndex == s.current;
      if currentIndex <= 0 {
        return;
      }
      var prevSibling := siblings[currentIndex - 1];
      MergeAtStart(prevSibling, nodeToDelete, currentIndex);
    }

    /** The merging branch of `handleBackspace` at offset 0, once a previous sibling exists. */
    method MergeAtStart(prevSibling: Block, nodeToDelete: Block, currentIndex: nat)
      requires Valid() && cursorOffset == 0 && currentNode == nodeToDelete
      requires 0 < currentIndex == IndexOfId(root.children, currentNode.id)
      requires root.children[currentIndex - 1] == prevSibling
      modifies this, root, prevSibling, nodeToDelete
      ensures Valid() && Abs() == Editing.Backspace(old(Abs()))
    {
      ghost var s := Abs();
      MergeInto(prevSibling, nodeToDelete, currentIndex);
      BackspaceInv(s);
    }

    /** The rest of `handleBackspace` at offset 0, once the previous sibling is found: the cursor
        goes to the end of its text, it becomes current and absorbs the current block, which is
        cut out. */
    method MergeInto(prevSibling: Block, nodeToDelete: Block, currentIndex: nat)
      requires Linked() && 0 < currentIndex < |root.children| && currentNode == nodeToDelete
      requires root.children[currentIndex - 1] == prevSibling && root.children[currentIndex] == nodeToDelete
      modifies this, root, prevSibling, nodeToDelete
      ensures Linked()
      ensures var d := old(Views(root.children)); var k := currentIndex; var prev := d[k - 1];
        Abs() == State(d[..k - 1] + [prev.(runs := MergedRuns(prev.runs, d[k].runs))] + d[k + 1..], k - 1, Total(prev.runs))
    {
      ghost var d := Views(root.children);
      assert prevSibling.runs == d[currentIndex - 1].runs;
      cursorOffset := Total(prevSibling.runs);
      currentNode := prevSibling;
      assert forall j | 0 <= j < |root.children| :: View(root.children[j]) == d[j];
      ViewsAgree(root.children, d);
      MergeAndDrop(prevSibling, nodeToDelete, currentIndex);
    }

    /** The rest of `handleBackspace` at offset 0 once the previous sibling is current: it absorbs
        the block after it, which is cut out. */
    method MergeAndDrop(prevSibling: Block, nodeToDelete: Block, k: nat)
      requires Linked() && 0 < k < |root.children| && currentNode == prevSibling
      requires root.children[k - 1] == prevSibling && root.children[k] == nodeToDelete
      modifies root, prevSibling, nodeToDelete
      ensures Linked()
      ensures var d := old(Views(root.children));
        Abs() == State(d[..k - 1] + [d[k - 1].(runs := MergedRuns(d[k - 1].runs, d[k].runs))] + d[k + 1..], k - 1, cursorOffset)
    {
      ghost var d := Views(root.children);
      ghost var merged := d[k - 1].(runs := MergedRuns(d[k - 1].runs, d[k].runs));
      MergePair(prevSibling, nodeToDelete, k);
      ghost var v := View(nodeToDelete);
      IndexOfUnique(root.children, k - 1);
      DropChild(k);
      UpdateThenRemove(d, k, merged, v);
    }

    /** The merging step of `handleBackspace` at offset 0, on the blocks at `k - 1` and `k`:
        the first takes the merged runs, the second is left with its first run only; no other
        block changes. */
    method MergePair(prevSibling: Block, nodeToDelete: Block, ghost k: nat)
      requires Linked() && 0 < k < |root.children|
      requires root.children[k - 1] == prevSibling && root.children[k] == nodeToDelete
      modifies prevSibling, nodeToDelete
      ensures Linked()
      ensures var d := old(Views(root.children));
        Views(root.children) == d[k - 1 := d[k - 1].(runs := MergedRuns(d[k - 1].runs, d[k].runs))][k := View(nodeToDelete)]
    {
      ghost var cs := root.children;
      ghost var d := Views(cs);
      OthersDiffer(cs, k);
      OthersDiffer(cs, k - 1);
      MergeIntoPrevious(prevSibling, nodeToDelete);
      ghost var mid := d[k - 1 := d[k - 1].(runs := MergedRuns(d[k - 1].runs, d[k].runs))];
      assert View(prevSibling) == mid[k - 1];
      assert forall j | 0 <= j < |cs| && j != k :: View(cs[j]) == mid[j];
      ViewsAllBut(cs, mid, k);
    }

    /** The last step of `handleBackspace` at offset 0: the child at `i`, right after the
        current block, is cut out of the live children list; no block changes. */
    method DropChild(i: nat)
      requires Linked() && i == IndexOfId(root.children, currentNode.id) + 1 && i < |root.children|
      modifies root
      ensures Linked()
      ensures var d := old(Views(root.children));
        Abs() == State(d[..i] + d[i + 1..], i - 1, cursorOffset)
    {
      var cs := root.children;
      ghost var d := Views(cs);
      root.children := cs[..i] + cs[i + 1..];
      assert forall j | 0 <= j < |cs| :: View(cs[j]) == d[j];
      ViewsAgree(cs, d);
      ViewsRemove(cs, i);
      RemoveKeepsUnique(cs, i);
      RemovedMembers(cs, i);
      assert root.children[i - 1] == currentNode;
      IndexOfUnique(root.children, i - 1);
    }

    /** `updateCursorOffset`, given what the caret manager answered for the current block, the
        cursor offset and the key's direction (only an arrow key asks it): a null answer changes
        nothing; otherwise the offset is taken, and the current block switches to the answer's
        block when a direct child of the root carries its id. */
    method UpdateCursorOffset(key: string, answer: Option<CaretPosition>)
      requires Valid()
      modifies this
      ensures Valid() && Abs() == MoveCursor(old(Abs()), key, answer)
    {
      ghost var s := Abs();
      MoveByAnswer(key, answer);
      MoveCursorInv(s, key, answer);
    }

    /** The body of `updateCursorOffset` on the object structure. */
    method MoveByAnswer(key: string, answer: Option<CaretPosition>)
      requires Linked()
      modifies this
      ensures Linked() && Abs() == MoveCursor(old(Abs()), key, answer)
    {
      ghost var s := Abs();
      ghost var cs := root.children;
      var newPosition: Option<CaretPosition> := None;
      if DirectionOf(key).Some? {
        newPosition := answer;
      }
      if newPosition.Some? {
        var id := newPosition.value.blockNodeId;
        FindBlockAgrees(cs, id);
        cursorOffset := newPosition.value.offset;
        var blockNode := FindBlockNode(id);
        if blockNode.Some? {
          currentNode := blockNode.value;
          IndexOfUnique(cs, IndexOfId(cs, id));
        }
      }
      assert forall j | 0 <= j < |cs| :: View(cs[j]) == s.doc[j];
      ViewsAgree(cs, s.doc);
    }
  }

  // ---------------------------------------------------------------------------------------
  // What each operation does to the current block, in place.
  // ---------------------------------------------------------------------------------------

  /** The typing half of `updateTextContent` on the current block: scan, splice the key into
      the located run, and compute the new cursor. */
  method TypeInBlock(node: Block, cursorOffset: nat, key: string) returns (newOffset: nat)
    modifies node
    ensures (node.runs, newOffset) == InsertInRuns(old(node.runs), cursorOffset, key)
    ensures node.tagName == old(node.tagName) && node.textContent == old(node.textContent) && node.attributes == old(node.attributes)
  {
    var runs := node.runs;
    var found, index, totalOffset := LocateRun(runs, cursorOffset);
    if !found {
      return cursorOffset;
    }
    LocatedSpan(runs, cursorOffset);
    var runOffset := cursorOffset - totalOffset;
    var text := runs[index].text;
    var beforeText := SliceTo(text, runOffset);
    var afterText := SliceFrom(text, runOffset);
    node.runs := runs[index := SetText(runs[index], beforeText + key + afterText)];
    newOffset := if StartsWithMarker(beforeText) then cursorOffset else cursorOffset + 1;
    InsertInRunsSlices(runs, cursorOffset, key, index, totalOffset);
  }

  /** The apply-bold half of `applyBold` on the current block: scan, insert the empty bold
      run (splitting the located run when the cursor is inside it), and compute the new cursor.
      On a block without runs nothing happens. */
  method BoldInBlock(node: Block, cursorOffset: nat, ids: FreshIds) returns (newOffset: nat)
    modifies node
    ensures old(node.runs) == [] ==> node.runs == old(node.runs) && newOffset == cursorOffset
    ensures old(node.runs) != [] ==> node.runs == BoldInRuns(old(node.runs), cursorOffset, ids) && newOffset == cursorOffset + 1
    ensures node.tagName == old(node.tagName) && node.textContent == old(node.textContent) && node.attributes == old(node.attributes)
  {
    var runs := node.runs;
    var found, currentRunIndex, totalOffset := LocateRun(runs, cursorOffset);
    if runs == [] {
      return cursorOffset;
    }
    BoldInRunsAt(runs, cursorOffset, ids, currentRunIndex, totalOffset);
    var runOffset := cursorOffset - totalOffset;
    BoldRunAt(node, currentRunIndex, runOffset, ids);
    newOffset := totalOffset + runOffset + 1;
  }

  /** The insertion half of `applyBold` on a block, at in-run offset `runOffset` of run `i`. */
  method BoldRunAt(node: Block, i: nat, runOffset: nat, ids: FreshIds)
    requires i < |node.runs|
    modifies node
    ensures node.runs == BoldAt(old(node.runs), i, runOffset, ids)
    ensures node.tagName == old(node.tagName) && node.textContent == old(node.textContent) && node.attributes == old(node.attributes)
  {
    var emptyRun := SetBold(NewTextRun(ids.first, ""), true);
    if runOffset == |node.runs[i].text| {
      node.InsertTextRun(emptyRun, i + 1);
    } else {
      var splitRun := node.SplitRunAtOffset(i, runOffset, ids.second);
      node.InsertTextRun(emptyRun, i + 1);
      if splitRun.Some? {
        node.InsertTextRun(splitRun.value, i + 2);
      }
    }
  }

  /** The splitting half of `handleEnterKey` on the current block: scan, split the located run,
      cut off the later runs and put the split-off rest (bold when the located run is) in front
      of them. On a block without runs nothing happens. */
  method SplitOffRuns(node: Block, cursorOffset: nat, ids: FreshIds) returns (located: bool, remainingRuns: seq<TextRun>)
    modifies node
    ensures located <==> old(node.runs) != []
    ensures !located ==> node.runs == old(node.runs)
    ensures located ==> node.runs == SplitBlock(old(node.runs), cursorOffset, ids).0
    ensures located ==> InsertRunsAt([TextRun(ids.placeholder, MARKER, false)], remainingRuns, 0) == SplitBlock(old(node.runs), cursorOffset, ids).1
    ensures node.tagName == old(node.tagName) && node.textContent == old(node.textContent) && node.attributes == old(node.attributes)
  {
    var runs := node.runs;
    var found, currentRunIndex, totalOffset := LocateRun(runs, cursorOffset);
    if runs == [] {
      return false, [];
    }
    LocatedOffset(runs, cursorOffset);
    var runOffset := cursorOffset - totalOffset;
    var tail := node.SplitRunAtOffset(currentRunIndex, runOffset, ids.first);
    var splitRun := if tail.Some? then tail.value else NewTextRun(ids.first, "");
    if runs[currentRunIndex].bold {
      splitRun := SetBold(splitRun, true);
    }
    remainingRuns := node.RemoveRunsFromIndex(currentRunIndex + 1);
    remainingRuns := [splitRun] + remainingRuns;
    located := true;
  }

  /** The block `handleEnterKey` creates: a sibling of `node` with its tag and the fresh id,
      whose placeholder run gives way to the runs split off `node`. */
  method NewSibling(node: Block, ids: FreshIds, remainingRuns: seq<TextRun>) returns (newNode: Block)
    requires Utils.IsBlockNodeTag(node.tagName)
    ensures fresh(newNode) && newNode.parent == node.parent
    ensures View(newNode) == BlockView(ids.block, node.tagName, InsertRunsAt([TextRun(ids.placeholder, MARKER, false)], remainingRuns, 0))
  {
    var parent := node.GetParent();
    newNode := new Block(node.tagName, parent, ids.block, ids.placeholder);
    newNode.InsertRunsAtIndex(remainingRuns, 0);
  }

  /** The in-block half of `handleBackspace` (positive cursor): scan and delete the character
      before the in-run offset. The scan's offset is at least 1 there, so the run-merging
      branch of the engines is never taken (`DeleteNeverMergesRuns`). On a block without runs
      nothing happens. */
  method DeleteInBlock(node: Block, cursorOffset: nat) returns (located: bool)
    requires cursorOffset > 0
    modifies node
    ensures located <==> old(node.runs) != []
    ensures node.runs == if located then DeleteInRuns(old(node.runs), cursorOffset) else old(node.runs)
    ensures node.tagName == old(node.tagName) && node.textContent == old(node.textContent) && node.attributes == old(node.attributes)
  {
    var runs := node.runs;
    var found, currentRunIndex, totalOffset := LocateRun(runs, cursorOffset);
    if runs == [] {
      return false;
    }
    LocatedOffset(runs, cursorOffset);
    var runOffset := cursorOffset - totalOffset;
    if runOffset == 0 && currentRunIndex > 0 {
      assert false;
    }
    var text := runs[currentRunIndex].text;
    var newText := SliceTo(text, runOffset - 1) + SliceFrom(text, runOffset);
    node.runs := runs[currentRunIndex := SetText(runs[currentRunIndex], newText)];
    located := true;
  }

  /** The merging half of `handleBackspace` at offset 0: the previous block's last run absorbs
      the first run of the block being removed (when both exist), and that block's other runs
      are cut off and appended. */
  method MergeIntoPrevious(prevSibling: Block, nodeToDelete: Block)
    requires prevSibling != nodeToDelete
    modifies prevSibling, nodeToDelete
    ensures prevSibling.runs == MergedRuns(old(prevSibling.runs), old(nodeToDelete.runs))
    ensures prevSibling.tagName == old(prevSibling.tagName)
    ensures nodeToDelete.tagName == old(nodeToDelete.tagName)
  {
    var prevRuns := prevSibling.runs;
    var currentRuns := nodeToDelete.runs;
    ghost var merged :=
      if prevRuns != [] && currentRuns != [] then MergeRuns(InsertRunAt(prevRuns, currentRuns[0], |prevRuns|), |prevRuns| - 1, |prevRuns|)
      else prevRuns;
    if prevRuns != [] && currentRuns != [] {
      var insertAtIndex := |prevRuns|;
      prevSibling.InsertTextRun(currentRuns[0], insertAtIndex);
      prevSibling.MergeRunsAt(insertAtIndex - 1, insertAtIndex);
    }
    assert prevSibling.runs == merged;
    var remainingRuns := nodeToDelete.RemoveRunsFromIndex(1);
    assert remainingRuns == RemoveRunsFrom(currentRuns, 1).1;
    prevSibling.InsertRunsAtIndex(remainingRuns, |prevSibling.runs|);
  }
}

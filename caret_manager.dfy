/** core/src/renderers/caretManager.ts, its logical part. The document is abstracted as the
    sequence of text nodes under the editor root in document order (`TextLeaf`), each knowing the
    `data-editrix-id` attributes of its enclosing elements; what `querySelector` and
    `getSelection` find is passed in. The selection update of `applyRange`, vertical movement and
    hit-testing are outside the model. */
module CaretManagement {
  import opened Wrappers
  import opened Constants
  import opened Interfaces

  /** The characters `String.prototype.trim` removes: the ECMAScript WhiteSpace code points
      (tab, vertical tab, form feed, the byte order mark and the space separators) and the
      LineTerminator code points. The zero-width space U+200B is not among them. */
  predicate IsTrimmed(c: char)
  {
    c == '\t' || c == '\n' || c == '\U{000B}' || c == '\U{000C}' || c == '\r' || c == ' ' ||
    c == '\U{00A0}' || c == '\U{1680}' || ('\U{2000}' <= c <= '\U{200A}') || c == '\U{2028}' ||
    c == '\U{2029}' || c == '\U{202F}' || c == '\U{205F}' || c == '\U{3000}' || c == '\U{FEFF}'
  }

  /** The tree walker's filter: `textContent.trim()` is not empty. */
  predicate Accepted(text: string)
  {
    exists k | 0 <= k < |text| :: !IsTrimmed(text[k])
  }

  /** A text node: its content and the `data-editrix-id` attribute (absent or present) of each
      enclosing element, the parent first; an empty list is a node without parent. */
  datatype TextLeaf = TextLeaf(text: string, ancestry: seq<Option<string>>)

  /** What the walker filter does with placeholders and blanks: a node holding only the marker
      is accepted, an empty or all-blank node is skipped. */
  lemma FilterExamples(blank: string)
    requires forall k | 0 <= k < |blank| :: blank[k] == ' ' || blank[k] == '\n'
    ensures Accepted([ZERO_WIDTH_SPACE])
    ensures !Accepted(blank)
  {
    assert !IsTrimmed([ZERO_WIDTH_SPACE][0]);
  }

  // ---------------------------------------------------------------------------------------
  // Where the tree walker steps to.
  // ---------------------------------------------------------------------------------------

  /** The first accepted leaf at index `j` or later. */
  function FirstAcceptedFrom(leaves: seq<TextLeaf>, j: nat): (r: Option<nat>)
    ensures r.Some? ==> j <= r.value < |leaves| && Accepted(leaves[r.value].text)
    ensures r.Some? ==> forall k | j <= k < r.value :: !Accepted(leaves[k].text)
    ensures r.None? ==> forall k | j <= k < |leaves| :: !Accepted(leaves[k].text)
    decreases |leaves| - j
  {
    if j >= |leaves| then None
    else if Accepted(leaves[j].text) then Some(j)
    else FirstAcceptedFrom(leaves, j + 1)
  }

  /** The last accepted leaf before index `j`. */
  function LastAcceptedBefore(leaves: seq<TextLeaf>, j: nat): (r: Option<nat>)
    requires j <= |leaves|
    ensures r.Some? ==> r.value < j && Accepted(leaves[r.value].text)
    ensures r.Some? ==> forall k | r.value < k < j :: !Accepted(leaves[k].text)
    ensures r.None? ==> forall k | 0 <= k < j :: !Accepted(leaves[k].text)
  {
    if j == 0 then None
    else if Accepted(leaves[j - 1].text) then Some(j - 1)
    else LastAcceptedBefore(leaves, j - 1)
  }

  /** `nextNode()` from leaf `i`. */
  function NextAccepted(leaves: seq<TextLeaf>, i: nat): Option<nat>
  {
    FirstAcceptedFrom(leaves, i + 1)
  }

  /** `previousNode()` from leaf `i`. */
  function PrevAccepted(leaves: seq<TextLeaf>, i: nat): Option<nat>
    requires i < |leaves|
  {
    LastAcceptedBefore(leaves, i)
  }

  /** The indices of the accepted leaves from `j` on, in document order. */
  function AcceptedIndices(leaves: seq<TextLeaf>, j: nat): (r: seq<nat>)
    ensures forall k :: k in r <==> j <= k < |leaves| && Accepted(leaves[k].text)
    ensures forall a, b | 0 <= a < b < |r| :: r[a] < r[b]
    decreases |leaves| - j
  {
    if j >= |leaves| then []
    else
      var rest := AcceptedIndices(leaves, j + 1);
      assert forall b | 0 <= b < |rest| :: j < rest[b] by {
        forall b | 0 <= b < |rest| ensures j < rest[b] {
          assert rest[b] in rest;
        }
      }
      (if Accepted(leaves[j].text) then [j] else []) + rest
  }

  /** Stepping the walker from an accepted leaf moves one place along the accepted leaves:
      forward to the next one, back to the previous one, and fails at either end. */
  lemma AcceptedNeighbours(leaves: seq<TextLeaf>, p: nat)
    requires p < |AcceptedIndices(leaves, 0)|
    ensures var a := AcceptedIndices(leaves, 0);
      NextAccepted(leaves, a[p]) == if p + 1 < |a| then Some(a[p + 1]) else None
    ensures var a := AcceptedIndices(leaves, 0);
      a[p] < |leaves| && PrevAccepted(leaves, a[p]) == if p > 0 then Some(a[p - 1]) else None
  {
    NextNeighbour(leaves, AcceptedIndices(leaves, 0), p);
    PrevNeighbour(leaves, AcceptedIndices(leaves, 0), p);
  }

  /** The forward half of `AcceptedNeighbours`. */
  lemma {:induction false} NextNeighbour(leaves: seq<TextLeaf>, a: seq<nat>, p: nat)
    requires a == AcceptedIndices(leaves, 0) && p < |a|
    ensures NextAccepted(leaves, a[p]) == if p + 1 < |a| then Some(a[p + 1]) else None
  {
    assert a[p] in a;
    var next := NextAccepted(leaves, a[p]);
    if p + 1 < |a| {
      assert a[p + 1] in a;
      assert next.Some? && next.value <= a[p + 1];
      assert next.value in a;
      var q :| 0 <= q < |a| && a[q] == next.value;
      assert p < q;
      assert q <= p + 1;
    }
  }

  /** The backward half of `AcceptedNeighbours`. */
  lemma {:induction false} PrevNeighbour(leaves: seq<TextLeaf>, a: seq<nat>, p: nat)
    requires a == AcceptedIndices(leaves, 0) && p < |a|
    ensures a[p] < |leaves| && PrevAccepted(leaves, a[p]) == if p > 0 then Some(a[p - 1]) else None
  {
    assert a[p] in a;
    var prev := PrevAccepted(leaves, a[p]);
    if p > 0 {
      assert a[p - 1] in a;
      assert prev.Some? && a[p - 1] <= prev.value;
      assert prev.value in a;
      var q :| 0 <= q < |a| && a[q] == prev.value;
      assert q < p;
      assert p - 1 <= q;
    }
  }

  /** Where a tree walker stands: at its root, or at a leaf. */
  datatype WalkerPosition = AtRoot | AtLeaf(index: nat)

  /** The first index `nextNode()` looks at. */
  function After(pos: WalkerPosition): nat
  {
    match pos
    case AtRoot => 0
    case AtLeaf(i) => i + 1
  }

  /** The index `previousNode()` looks before; nothing precedes the root. */
  function Before(pos: WalkerPosition): nat
  {
    match pos
    case AtRoot => 0
    case AtLeaf(i) => i
  }

  /** A DOM `TreeWalker` over the text nodes of the editor root with the non-blank filter; the
      document's leaves are passed to each step. */
  class TreeWalker {
    var currentNode: WalkerPosition

    /** `createTreeWalker`: the walker starts at its root. */
    constructor ()
      ensures currentNode == AtRoot
    {
      currentNode := AtRoot;
    }

    /** `nextNode()`: the first accepted leaf after the current position, which becomes
        current; when there is none the walker stays where it is. */
    method NextNode(leaves: seq<TextLeaf>) returns (r: Option<nat>)
      modifies this
      ensures r == FirstAcceptedFrom(leaves, After(old(currentNode)))
      ensures currentNode == if r.Some? then AtLeaf(r.value) else old(currentNode)
    {
      ghost var from := After(currentNode);
      var j := After(currentNode);
      while j < |leaves|
        invariant from <= j && currentNode == old(currentNode)
        invariant FirstAcceptedFrom(leaves, from) == FirstAcceptedFrom(leaves, j)
        decreases |leaves| - j
      {
        if Accepted(leaves[j].text) {
          currentNode := AtLeaf(j);
          return Some(j);
        }
        j := j + 1;
      }
      return None;
    }

    /** `previousNode()`: the last accepted leaf before the current position, which becomes
        current; when there is none the walker stays where it is. */
    method PreviousNode(leaves: seq<TextLeaf>) returns (r: Option<nat>)
      requires Before(currentNode) <= |leaves|
      modifies this
      ensures r == LastAcceptedBefore(leaves, Before(old(currentNode)))
      ensures currentNode == if r.Some? then AtLeaf(r.value) else old(currentNode)
    {
      ghost var before := Before(currentNode);
      var j: nat := Before(currentNode);
      while j > 0
        invariant j <= before && currentNode == old(currentNode)
        invariant LastAcceptedBefore(leaves, before) == LastAcceptedBefore(leaves, j)
      {
        if Accepted(leaves[j - 1].text) {
          currentNode := AtLeaf(j - 1);
          return Some(j - 1);
        }
        j := j - 1;
      }
      return None;
    }
  }

  // ---------------------------------------------------------------------------------------
  // Block ids and offsets.
  // ---------------------------------------------------------------------------------------

  /** `closest('[data-editrix-id]')?.getAttribute(...)`: the attribute of the nearest element
      in the list that carries one. */
  function Closest(ancestry: seq<Option<string>>): (r: Option<string>)
    ensures r.None? <==> forall k | 0 <= k < |ancestry| :: ancestry[k].None?
    ensures r.Some? ==> exists k | 0 <= k < |ancestry| :: ancestry[k] == r && forall j | 0 <= j < k :: ancestry[j].None?
  {
    if ancestry == [] then None
    else if ancestry[0].Some? then ancestry[0]
    else
      var r := Closest(ancestry[1..]);
      assert forall k | 1 <= k < |ancestry| :: ancestry[k] == ancestry[1..][k - 1];
      r
  }

  /** `getBlockNodeIdFromNode` for a text node: climb to the parent element, then take the
      nearest `data-editrix-id`. */
  function BlockNodeIdOf(leaf: TextLeaf): Option<string>
  {
    Closest(leaf.ancestry)
  }

  /** `blockNodeId ? { blockNodeId, offset } : null`: an absent or empty id gives null. */
  function Reported(blockNodeId: Option<string>, offset: nat): (r: Option<CaretPosition>)
    ensures r.Some? <==> blockNodeId.Some? && blockNodeId.value != ""
    ensures r.Some? ==> r.value == CaretPosition(blockNodeId.value, offset)
  {
    if blockNodeId.Some? && blockNodeId.value != "" then Some(CaretPosition(blockNodeId.value, offset)) else None
  }

  /** `Math.max(0, Math.min(offset, max))`. */
  function Clamp(offset: int, max: nat): (r: nat)
    ensures r <= max
    ensures 0 <= offset <= max ==> r == offset
    ensures offset < 0 ==> r == 0
    ensures offset > max ==> r == max
  {
    if offset < 0 then 0 else if offset > max then max else offset
  }

  // ---------------------------------------------------------------------------------------
  // Horizontal movement.
  // ---------------------------------------------------------------------------------------

  /** The start container of the selection's first range: a text node (by its index among the
      leaves), or some other node. */
  datatype StartContainer = TextStart(leaf: nat) | OtherStart

  /** Where a horizontal move puts the caret: a leaf, an offset in it, and whether it left the
      start leaf. */
  datatype Target = Target(leaf: nat, offset: nat, moved: bool)

  /** The move from `startOffset` in leaf `start`, one to the left or right; `walkable` says
      whether the caret manager has (or can make) its tree walker. */
  function HorizontalTarget(leaves: seq<TextLeaf>, start: nat, startOffset: nat, direction: CaretDirection, walkable: bool): Target
    requires start < |leaves| && (direction == LEFT || direction == RIGHT)
  {
    var textLength := |leaves[start].text|;
    var newOffset: int := if direction == LEFT then startOffset - 1 else startOffset + 1;
    if newOffset < 0 then
      var previous := if walkable then PrevAccepted(leaves, start) else None;
      if previous.Some? then Target(previous.value, |leaves[previous.value].text|, true)
      else Target(start, 0, false)
    else if newOffset > textLength then
      var next := if walkable then NextAccepted(leaves, start) else None;
      if next.Some? then Target(next.value, 0, true)
      else Target(start, textLength, false)
    else Target(start, newOffset, false)
  }

  /** `handleHorizontalMove`'s answer: null for a start container that is not text, otherwise
      the target offset with the block id of the target leaf. */
  function Horizontal(leaves: seq<TextLeaf>, start: StartContainer, startOffset: nat, direction: CaretDirection, walkable: bool): Option<CaretPosition>
    requires start.TextStart? ==> start.leaf < |leaves|
    requires direction == LEFT || direction == RIGHT
  {
    if !start.TextStart? then None
    else
      var t := HorizontalTarget(leaves, start.leaf, startOffset, direction, walkable);
      Reported(BlockNodeIdOf(leaves[t.leaf]), t.offset)
  }

  /** A horizontal move steps one place within the leaf when it can, and otherwise crosses to
      the end of the previous accepted leaf (left) or the start of the next one (right), or
      clamps at the leaf's edge when there is none; the target lies within its leaf. */
  lemma HorizontalSteps(leaves: seq<TextLeaf>, start: nat, startOffset: nat, direction: CaretDirection, walkable: bool)
    requires start < |leaves| && (direction == LEFT || direction == RIGHT)
    requires startOffset <= |leaves[start].text|
    ensures var t := HorizontalTarget(leaves, start, startOffset, direction, walkable);
      t.leaf < |leaves| && t.offset <= |leaves[t.leaf].text| && (t.moved <==> t.leaf != start)
    ensures var t := HorizontalTarget(leaves, start, startOffset, direction, walkable);
      && (direction == LEFT && startOffset > 0 ==> t == Target(start, startOffset - 1, false))
      && (direction == RIGHT && startOffset < |leaves[start].text| ==> t == Target(start, startOffset + 1, false))
    ensures var t := HorizontalTarget(leaves, start, startOffset, direction, walkable);
      t.moved ==>
        && walkable && Accepted(leaves[t.leaf].text)
        && (direction == LEFT ==> t.leaf < start && t.offset == |leaves[t.leaf].text| &&
                                  forall k | t.leaf < k < start :: !Accepted(leaves[k].text))
        && (direction == RIGHT ==> start < t.leaf && t.offset == 0 &&
                                   forall k | start < k < t.leaf :: !Accepted(leaves[k].text))
  {
  }

  /** From an accepted leaf with an accepted neighbour on the side of the move, a move across
      the leaf's edge lands on that neighbour: the previous accepted leaf's end, or the next
      one's start. */
  lemma {:induction false} CrossesToNeighbour(leaves: seq<TextLeaf>, p: nat, direction: CaretDirection)
    requires p < |AcceptedIndices(leaves, 0)|
    requires direction == LEFT || direction == RIGHT
    ensures AcceptedIndices(leaves, 0)[p] < |leaves|
    ensures var a := AcceptedIndices(leaves, 0);
      direction == LEFT && p > 0 ==>
        HorizontalTarget(leaves, a[p], 0, direction, true) == Target(a[p - 1], |leaves[a[p - 1]].text|, true)
    ensures var a := AcceptedIndices(leaves, 0);
      (direction == RIGHT && p + 1 < |a| ==>
        HorizontalTarget(leaves, a[p], |leaves[a[p]].text|, direction, true) == Target(a[p + 1], 0, true))
  {
    AcceptedNeighbours(leaves, p);
  }

  // ---------------------------------------------------------------------------------------
  // Explicit placement.
  // ---------------------------------------------------------------------------------------

  /** A child node of an element: a text node or anything else. */
  datatype ChildNode = TextChild(text: string) | OtherChild

  /** The index of the first direct text child. */
  function FirstTextChild(children: seq<ChildNode>): (r: Option<nat>)
    ensures r.Some? ==> r.value < |children| && children[r.value].TextChild?
    ensures r.Some? ==> forall k | 0 <= k < r.value :: !children[k].TextChild?
    ensures r.None? ==> forall k | 0 <= k < |children| :: !children[k].TextChild?
  {
    if children == [] then None
    else if children[0].TextChild? then Some(0)
    else
      var r := FirstTextChild(children[1..]);
      assert forall k | 1 <= k < |children| :: children[k] == children[1..][k - 1];
      if r.Some? then Some(r.value + 1) else None
  }

  /** The offset `setExplicitCursor` settles on: clamped to the first direct text child, or 0
      on the marker child it appends when there is none. */
  function ExplicitOffset(children: seq<ChildNode>, offset: int): (r: nat)
    ensures FirstTextChild(children).None? ==> r == 0
    ensures FirstTextChild(children).Some? ==>
      var text := children[FirstTextChild(children).value].text;
      r <= |text| && (0 <= offset <= |text| ==> r == offset) && (offset < 0 ==> r == 0) && (offset > |text| ==> r == |text|)
  {
    match FirstTextChild(children)
    case None => Clamp(0, |MARKER_TEXT|)
    case Some(i) => Clamp(offset, |children[i].text|)
  }

  /** The text of the node appended when an element has no direct text child. */
  const MARKER_TEXT: string := [ZERO_WIDTH_SPACE]

  /** An element found by `querySelector`: its child nodes (appended to in place) and the
      `data-editrix-id` attributes of itself and its ancestors, itself first. */
  class DomElement {
    var childNodes: seq<ChildNode>
    const ancestry: seq<Option<string>>

    constructor (childNodes: seq<ChildNode>, ancestry: seq<Option<string>>)
      ensures this.childNodes == childNodes && this.ancestry == ancestry
    {
      this.childNodes := childNodes;
      this.ancestry := ancestry;
    }
  }

  /** Placing the caret explicitly in an element carrying the id `blockNodeId` reports that
      block and an offset within the first direct text child (0 when one had to be made); the
      element keeps its children and gains a marker child only when it had no text child. */
  lemma ExplicitReportsBlock(children: seq<ChildNode>, ancestry: seq<Option<string>>, blockNodeId: string, offset: int)
    requires ancestry != [] && ancestry[0] == Some(blockNodeId) && blockNodeId != ""
    ensures Reported(Closest(ancestry), ExplicitOffset(children, offset)) == Some(CaretPosition(blockNodeId, ExplicitOffset(children, offset)))
    ensures var after := WithTextChild(children);
      FirstTextChild(after).Some? && ExplicitOffset(children, offset) <= |after[FirstTextChild(after).value].text|
  {
    if FirstTextChild(children).None? {
      var after := children + [TextChild(MARKER_TEXT)];
      assert after[|children|].TextChild?;
      assert forall k | 0 <= k < |children| :: after[k] == children[k];
    }
  }

  /** The children after `setExplicitCursor`: a marker text node appended when there was no
      direct text child. */
  function WithTextChild(children: seq<ChildNode>): (r: seq<ChildNode>)
    ensures FirstTextChild(children).Some? ==> r == children
    ensures FirstTextChild(children).None? ==> |r| == |children| + 1 && r[..|children|] == children && r[|children|] == TextChild(MARKER_TEXT)
  {
    if FirstTextChild(children).None? then children + [TextChild(MARKER_TEXT)] else children
  }

  // ---------------------------------------------------------------------------------------
  // The caret manager.
  // ---------------------------------------------------------------------------------------

  /** The selection `window.getSelection()` answers: the starts of its ranges. */
  datatype Selection = Selection(ranges: seq<RangeStart>)

  /** The start of a range: its container and offset. */
  datatype RangeStart = RangeStart(container: StartContainer, offset: nat)

  /** `CaretManager`: the root id and a lazily created tree walker. */
  class CaretManager {
    var rootId: string
    var treeWalker: TreeWalker?

    /** A new caret manager has an empty root id and no walker. */
    constructor ()
      ensures rootId == "" && treeWalker == null
    {
      rootId := "";
      treeWalker := null;
    }

    /** `setRootId`: records the id and tries to make the walker; `rootFound` says whether an
        element carries the id. */
    method SetRootId(id: string, rootFound: bool)
      modifies this
      ensures rootId == id
      ensures rootFound ==> treeWalker != null && fresh(treeWalker) && treeWalker.currentNode == AtRoot
      ensures !rootFound ==> treeWalker == old(treeWalker)
    {
      rootId := id;
      InitTreeWalker(rootFound);
    }

    /** `initTreeWalker`: a new walker at the root element when there is one, else nothing
        changes. */
    method InitTreeWalker(rootFound: bool)
      modifies this
      ensures rootId == old(rootId)
      ensures rootFound ==> treeWalker != null && fresh(treeWalker) && treeWalker.currentNode == AtRoot
      ensures !rootFound ==> treeWalker == old(treeWalker)
    {
      if !rootFound {
        return;
      }
      treeWalker := new TreeWalker();
    }

    /** `getNextTextNode`: positions the walker at `current` and steps it; on failure the walker
        is put back at `current` and the answer is null. Without a walker (none yet and no root
        element to make one) the answer is null. */
    method GetNextTextNode(leaves: seq<TextLeaf>, current: nat, forward: bool, rootFound: bool) returns (r: Option<nat>)
      requires current < |leaves|
      modifies this, treeWalker
      ensures rootId == old(rootId)
      ensures r == if old(treeWalker) == null && !rootFound then None
                   else if forward then NextAccepted(leaves, current) else PrevAccepted(leaves, current)
      ensures treeWalker != null ==> treeWalker.currentNode == AtLeaf(if r.Some? then r.value else current)
      ensures old(treeWalker) != null ==> treeWalker == old(treeWalker)
    {
      if treeWalker == null {
        InitTreeWalker(rootFound);
      }
      if treeWalker == null {
        return None;
      }
      treeWalker.currentNode := AtLeaf(current);
      if forward {
        r := treeWalker.NextNode(leaves);
      } else {
        r := treeWalker.PreviousNode(leaves);
      }
      if r.None? {
        treeWalker.currentNode := AtLeaf(current);
      }
    }

    /** `handleHorizontalMove` from the first range's start. */
    method HandleHorizontalMove(leaves: seq<TextLeaf>, start: StartContainer, startOffset: nat, direction: CaretDirection, rootFound: bool)
      returns (r: Option<CaretPosition>)
      requires start.TextStart? ==> start.leaf < |leaves|
      requires direction == LEFT || direction == RIGHT
      modifies this, treeWalker
      ensures rootId == old(rootId)
      ensures r == Horizontal(leaves, start, startOffset, direction, old(treeWalker) != null || rootFound)
    {
      if !start.TextStart? {
        return None;
      }
      var node := start.leaf;
      var textLength := |leaves[node].text|;
      var newOffset: int := if direction == LEFT then startOffset - 1 else startOffset + 1;
      var isMovingToNewNode := false;
      if newOffset < 0 {
        var previousNode := GetNextTextNode(leaves, node, false, rootFound);
        if previousNode.Some? {
          node := previousNode.value;
          newOffset := |leaves[node].text|;
          isMovingToNewNode := true;
        } else {
          newOffset := 0;
        }
      } else if newOffset > textLength {
        var nextNode := GetNextTextNode(leaves, node, true, rootFound);
        if nextNode.Some? {
          node := nextNode.value;
          newOffset := 0;
          isMovingToNewNode := true;
        } else {
          newOffset := textLength;
        }
      }
      var blockNodeId := if isMovingToNewNode then BlockNodeIdOf(leaves[node]) else BlockNodeIdOf(leaves[start.leaf]);
      return Reported(blockNodeId, newOffset);
    }

    /** `setExplicitCursor`: the first direct text child of the element, or a marker child
        appended to it with the offset reset to 0; the offset is clamped to the child's
        length, and the block id is read from the element up. */
    method SetExplicitCursor(element: DomElement, offset: int) returns (r: Option<CaretPosition>)
      modifies element
      ensures element.childNodes == WithTextChild(old(element.childNodes))
      ensures r == Reported(Closest(element.ancestry), ExplicitOffset(old(element.childNodes), offset))
    {
      var i := 0;
      while i < |element.childNodes| && !element.childNodes[i].TextChild?
        invariant i <= |element.childNodes|
        invariant forall k | 0 <= k < i :: !element.childNodes[k].TextChild?
      {
        i := i + 1;
      }
      var textNode: string;
      var safeOffset := offset;
      if i < |element.childNodes| {
        textNode := element.childNodes[i].text;
      } else {
        textNode := MARKER_TEXT;
        element.childNodes := element.childNodes + [TextChild(MARKER_TEXT)];
        safeOffset := 0;
      }
      var maxOffset := |textNode|;
      safeOffset := if 0 > (if safeOffset < maxOffset then safeOffset else maxOffset) then 0
                    else if safeOffset < maxOffset then safeOffset else maxOffset;
      return Reported(Closest(element.ancestry), safeOffset);
    }

    /** `setCursorPosition(blockNodeId, offset, direction)`. `element` is what the query for the
        block id finds, `selection` what `getSelection` answers, `leaves` the text nodes under
        the root, `rootFound` whether the root element exists, and `vertical` what vertical
        movement answers. Null without element or selection; with a direction and a range,
        left and right move horizontally and up and down vertically; otherwise the caret is
        placed explicitly. */
    method SetCursorPosition(blockNodeId: string, offset: int, direction: Option<CaretDirection>,
                             element: DomElement?, selection: Option<Selection>,
                             leaves: seq<TextLeaf>, rootFound: bool, vertical: Option<CaretPosition>)
      returns (r: Option<CaretPosition>)
      requires selection.Some? && selection.value.ranges != [] && selection.value.ranges[0].container.TextStart? ==>
        selection.value.ranges[0].container.leaf < |leaves|
      modifies this, treeWalker, element
      ensures rootId == old(rootId)
      ensures element == null || selection.None? ==> r.None? && unchanged(this)
      ensures element != null && selection.Some? && direction.Some? && selection.value.ranges != [] ==>
        var range := selection.value.ranges[0];
        && (direction.value == LEFT || direction.value == RIGHT ==>
              r == Horizontal(leaves, range.container, range.offset, direction.value, old(treeWalker) != null || rootFound))
        && (direction.value == UP || direction.value == DOWN ==> r == vertical)
      ensures element != null && selection.Some? && (direction.None? || selection.value.ranges == []) ==>
        && element.childNodes == WithTextChild(old(element.childNodes))
        && r == Reported(Closest(element.ancestry), ExplicitOffset(old(element.childNodes), offset))
    {
      if element == null {
        return None;
      }
      if selection.None? {
        return None;
      }
      if direction.Some? && |selection.value.ranges| > 0 {
        var range := selection.value.ranges[0];
        if direction.value == LEFT || direction.value == RIGHT {
          r := HandleHorizontalMove(leaves, range.container, range.offset, direction.value, rootFound);
          return;
        }
        return vertical;
      }
      r := SetExplicitCursor(element, offset);
    }
  }
}

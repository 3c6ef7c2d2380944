/** core/src/nodes/block.ts and core/src/nodes/container.ts: the document tree.
    A block refers to its parent container and a container lists its blocks, so both
    classes live in one module. */
module Nodes {
  import opened Wrappers
  import opened Constants
  import opened Utils
  import opened TextRuns

  /** After `setAttribute(name, value)` the name reads back `value` and every other name
      reads back what it read before. */
  lemma SetThenGet(attributes: map<string, string>, name: string, value: string, other: string)
    ensures Get(attributes[name := value], name) == Some(value)
    ensures other != name ==> Get(attributes[name := value], other) == Get(attributes, other)
  {
  }

  // ---------------------------------------------------------------------------------------
  // Children lists: `findIndex` by id and the two splices of container.ts.
  // ---------------------------------------------------------------------------------------

  /** `children.findIndex(child => child.getId() === id)`: the first position holding that id, or -1. */
  function IndexOfId(blocks: seq<Block>, id: string): (r: int)
    ensures -1 <= r < |blocks|
    ensures r == -1 <==> forall i :: 0 <= i < |blocks| ==> blocks[i].id != id
    ensures r >= 0 ==> blocks[r].id == id && forall i :: 0 <= i < r ==> blocks[i].id != id
  {
    if blocks == [] then -1
    else if blocks[0].id == id then 0
    else
      var k := IndexOfId(blocks[1..], id);
      if k == -1 then -1 else k + 1
  }

  /** The same search, written as the loop that `findIndex` runs. */
  method FindIndex(blocks: seq<Block>, id: string) returns (index: int)
    ensures index == IndexOfId(blocks, id)
  {
    index := 0;
    while index < |blocks|
      invariant 0 <= index <= |blocks|
      invariant forall i :: 0 <= i < index ==> blocks[i].id != id
    {
      if blocks[index].id == id {
        return;
      }
      index := index + 1;
    }
    index := -1;
  }

  /** `insertChildAfter`: the new node goes right after the first child carrying the reference id;
      nothing happens when no child carries it. */
  function InsertAfterId(blocks: seq<Block>, newNode: Block, refId: string): (r: seq<Block>)
    ensures IndexOfId(blocks, refId) == -1 ==> r == blocks
    ensures IndexOfId(blocks, refId) >= 0 ==>
      var k := IndexOfId(blocks, refId);
      |r| == |blocks| + 1 && r[k + 1] == newNode && r[..k + 1] == blocks[..k + 1] && r[k + 2..] == blocks[k + 1..]
  {
    var k := IndexOfId(blocks, refId);
    if k == -1 then blocks else blocks[..k + 1] + [newNode] + blocks[k + 1..]
  }

  /** `removeChild`: the first child carrying the id is dropped and the others keep their order;
      nothing happens when no child carries it. */
  function RemoveId(blocks: seq<Block>, id: string): (r: seq<Block>)
    ensures IndexOfId(blocks, id) == -1 ==> r == blocks
    ensures IndexOfId(blocks, id) >= 0 ==>
      var k := IndexOfId(blocks, id);
      |r| + 1 == |blocks| && r == blocks[..k] + blocks[k + 1..]
    ensures multiset(r) <= multiset(blocks)
  {
    var k := IndexOfId(blocks, id);
    if k == -1 then blocks
    else
      assert blocks == blocks[..k] + [blocks[k]] + blocks[k + 1..];
      blocks[..k] + blocks[k + 1..]
  }

  // ---------------------------------------------------------------------------------------
  // Run-list helpers of the runs-based block. They are not in the shown block.ts; their
  // behaviour below is an assumption stated as contracts, not a transcription.
  // ---------------------------------------------------------------------------------------

  /** A placeholder run: its text is the lone marker. */
  predicate IsPlaceholder(run: TextRun)
  {
    run.text == MARKER
  }

  /** Assumed `splitRunAtOffset(i, k)`: run `i` keeps its first `k` characters and a new,
      non-bold run with the caller's fresh id takes the rest; no run is made when the rest is
      empty or `i` is out of range. */
  function SplitRuns(runs: seq<TextRun>, i: nat, k: nat, newId: string): (r: (seq<TextRun>, Option<TextRun>))
    ensures |r.0| == |runs|
    ensures i >= |runs| ==> r == (runs, None)
    ensures i < |runs| ==>
      && r.0 == runs[i := SetText(runs[i], SliceTo(runs[i].text, k))]
      && (r.1.Some? <==> SliceFrom(runs[i].text, k) != "")
      && (r.1.Some? ==> r.1.value == TextRun(newId, SliceFrom(runs[i].text, k), false))
  {
    if i >= |runs| then (runs, None)
    else
      var text := runs[i].text;
      var tail := SliceFrom(text, k);
      (runs[i := SetText(runs[i], SliceTo(text, k))],
       if tail == "" then None else Some(TextRun(newId, tail, false)))
  }

  /** Assumed `mergeRuns(i, j)`: run `i` gets run `j`'s text appended, then run `j` is deleted. */
  function MergeRuns(runs: seq<TextRun>, i: nat, j: nat): (r: seq<TextRun>)
    requires i < |runs| && j < |runs| && i != j
    ensures |r| + 1 == |runs|
    ensures i + 1 == j ==> r == runs[..i] + [SetText(runs[i], runs[i].text + runs[j].text)] + runs[j + 1..]
  {
    var merged := runs[i := SetText(runs[i], runs[i].text + runs[j].text)];
    merged[..j] + merged[j + 1..]
  }

  /** Assumed `removeRunsFrom(i)`: the suffix from `i` is cut off and returned. */
  function RemoveRunsFrom(runs: seq<TextRun>, i: nat): (r: (seq<TextRun>, seq<TextRun>))
    ensures r.0 + r.1 == runs
    ensures i <= |runs| ==> |r.0| == i
    ensures i > |runs| ==> r.1 == []
  {
    if i <= |runs| then (runs[..i], runs[i..]) else (runs, [])
  }

  /** Assumed `insertTextRun(run, i)`: a splice of one run at `i` (at the end when `i` is past it). */
  function InsertRunAt(runs: seq<TextRun>, run: TextRun, i: nat): (r: seq<TextRun>)
    ensures |r| == |runs| + 1
    ensures i <= |runs| ==> r[..i] == runs[..i] && r[i] == run && r[i + 1..] == runs[i..]
    ensures i > |runs| ==> r == runs + [run]
  {
    if i <= |runs| then runs[..i] + [run] + runs[i..] else runs + [run]
  }

  /** Assumed `insertRunsAt(newRuns, i)`: a splice at `i`, except that a destination holding only
      a placeholder run is replaced outright by non-empty content. */
  function InsertRunsAt(runs: seq<TextRun>, newRuns: seq<TextRun>, i: nat): (r: seq<TextRun>)
    ensures |runs| == 1 && IsPlaceholder(runs[0]) && newRuns != [] ==> r == newRuns
    ensures !(|runs| == 1 && IsPlaceholder(runs[0]) && newRuns != []) && i <= |runs| ==>
      r == runs[..i] + newRuns + runs[i..]
    ensures !(|runs| == 1 && IsPlaceholder(runs[0]) && newRuns != []) && i > |runs| ==>
      r == runs + newRuns
  {
    if |runs| == 1 && IsPlaceholder(runs[0]) && newRuns != [] then newRuns
    else if i <= |runs| then runs[..i] + newRuns + runs[i..]
    else runs + newRuns
  }

  /** Splitting run `i` at `k` and merging the tail back into it restores the run list
      (the split/merge round trip). */
  lemma {:induction false} SplitThenMerge(runs: seq<TextRun>, i: nat, k: nat, newId: string)
    requires i < |runs|
    requires SplitRuns(runs, i, k, newId).1.Some?
    ensures
      var (kept, tail) := SplitRuns(runs, i, k, newId);
      MergeRuns(InsertRunAt(kept, tail.value, i + 1), i, i + 1) == runs
  {
    var (kept, tail) := SplitRuns(runs, i, k, newId);
    var text := runs[i].text;
    var withTail := InsertRunAt(kept, tail.value, i + 1);
    assert withTail == kept[..i + 1] + [tail.value] + kept[i + 1..];
    var merged := SetText(withTail[i], withTail[i].text + withTail[i + 1].text);
    assert MergeRuns(withTail, i, i + 1) == withTail[..i] + [merged] + withTail[i + 2..];
    SliceJoin(text, k);
    assert merged == runs[i];
    assert withTail[..i] == runs[..i];
    assert withTail[i + 2..] == runs[i + 1..];
    assert runs == runs[..i] + [runs[i]] + runs[i + 1..];
  }

  // ---------------------------------------------------------------------------------------
  // The node classes.
  // ---------------------------------------------------------------------------------------

  /** `BlockNode`: a paragraph or heading. */
  class Block {
    const id: string
    const parent: Container
    var tagName: string
    /** The `textContent` string of the shown block.ts. */
    var textContent: string
    var attributes: map<string, string>
    /** The run list of the runs-based block the engines are written against (assumed). */
    var runs: seq<TextRun>

    /** The constructor after its tag check. A fresh block holds the marker as its text and,
        in the runs-based block, one placeholder run (assumed). */
    constructor (tagName: string, parent: Container, id: string, runId: string)
      requires IsBlockNodeTag(tagName)
      ensures this.id == id && this.parent == parent && this.tagName == tagName
      ensures textContent == MARKER
      ensures attributes == map[EDITRIX_DATA_ID := id, "contenteditable" := "true"]
      ensures runs == [TextRun(runId, MARKER, false)]
    {
      this.id := id;
      this.attributes := map[];
      this.parent := parent;
      this.tagName := tagName;
      this.textContent := MARKER;
      this.runs := [TextRun(runId, MARKER, false)];
      new;
      SetAttribute(EDITRIX_DATA_ID, id);
      SetAttribute("contenteditable", "true");
    }

    /** `new BlockNode(tagName, parent)` with its check: a tag outside p, h1, h2, h3 throws. */
    static method Create(tagName: string, parent: Container, id: string, runId: string) returns (r: Result<Block>)
      ensures r.Err? <==> !IsBlockNodeTag(tagName)
      ensures r.Ok? ==> fresh(r.value) && r.value.id == id && r.value.parent == parent && r.value.tagName == tagName
      ensures r.Ok? ==> r.value.textContent == MARKER && r.value.runs == [TextRun(runId, MARKER, false)]
      ensures r.Ok? ==> r.value.GetAttribute(EDITRIX_DATA_ID) == Some(id) && r.value.GetAttribute("contenteditable") == Some("true")
    {
      if !IsBlockNodeTag(tagName) {
        return Err("Invalid tag for block node: " + tagName);
      }
      var b := new Block(tagName, parent, id, runId);
      return Ok(b);
    }

    /** `setTagName`: replaces the tag, without the constructor's check. */
    method SetTagName(tagName: string)
      modifies this
      ensures this.tagName == tagName
      ensures textContent == old(textContent) && attributes == old(attributes) && runs == old(runs)
    {
      this.tagName := tagName;
    }

    /** `getTextContent` of the shown block.ts. */
    function GetTextContent(): string
      reads this
    {
      textContent
    }

    /** `setTextContent`: stores the text under the run constructor's normalisation rule. */
    method SetTextContent(text: string)
      modifies this
      ensures textContent == Normalize(text)
      ensures tagName == old(tagName) && attributes == old(attributes) && runs == old(runs)
    {
      textContent := Normalize(text);
    }

    /** `setAttribute`: one entry of the map is written. */
    method SetAttribute(name: string, value: string)
      modifies this
      ensures attributes == old(attributes)[name := value]
      ensures GetAttribute(name) == Some(value)
      ensures forall n :: n != name ==> GetAttribute(n) == old(GetAttribute(n))
      ensures tagName == old(tagName) && textContent == old(textContent) && runs == old(runs)
    {
      attributes := attributes[name := value];
    }

    /** `getAttribute`. */
    function GetAttribute(name: string): Option<string>
      reads this
    {
      Get(attributes, name)
    }

    /** `getParent`: the parent given to the constructor. */
    function GetParent(): (p: Container)
      ensures p == parent
    {
      parent
    }

    /** `remove`: exactly `parent.removeChild(this)`. */
    method Remove()
      modifies parent
      ensures parent.children == RemoveId(old(parent.children), id)
      ensures parent.attributes == old(parent.attributes)
    {
      parent.RemoveChild(this);
    }

    /** Assumed `splitRunAtOffset`. */
    method SplitRunAtOffset(i: nat, k: nat, newId: string) returns (tail: Option<TextRun>)
      modifies this
      ensures (runs, tail) == SplitRuns(old(runs), i, k, newId)
      ensures tagName == old(tagName) && textContent == old(textContent) && attributes == old(attributes)
    {
      var split := SplitRuns(runs, i, k, newId);
      runs := split.0;
      tail := split.1;
    }

    /** Assumed `mergeRuns`. */
    method MergeRunsAt(i: nat, j: nat)
      requires i < |runs| && j < |runs| && i != j
      modifies this
      ensures runs == MergeRuns(old(runs), i, j)
      ensures tagName == old(tagName) && textContent == old(textContent) && attributes == old(attributes)
    {
      runs := MergeRuns(runs, i, j);
    }

    /** Assumed `removeRunsFrom`. */
    method RemoveRunsFromIndex(i: nat) returns (removed: seq<TextRun>)
      modifies this
      ensures (runs, removed) == RemoveRunsFrom(old(runs), i)
      ensures tagName == old(tagName) && textContent == old(textContent) && attributes == old(attributes)
    {
      var cut := RemoveRunsFrom(runs, i);
      runs := cut.0;
      removed := cut.1;
    }

    /** Assumed `insertTextRun`. */
    method InsertTextRun(run: TextRun, i: nat)
      modifies this
      ensures runs == InsertRunAt(old(runs), run, i)
      ensures tagName == old(tagName) && textContent == old(textContent) && attributes == old(attributes)
    {
      runs := InsertRunAt(runs, run, i);
    }

    /** Assumed `insertRunsAt`. */
    method InsertRunsAtIndex(newRuns: seq<TextRun>, i: nat)
      modifies this
      ensures runs == InsertRunsAt(old(runs), newRuns, i)
      ensures tagName == old(tagName) && textContent == old(textContent) && attributes == old(attributes)
    {
      runs := InsertRunsAt(runs, newRuns, i);
    }
  }

  /** `ContainerNode`: the document root. */
  class Container {
    const id: string
    const tagName: string
    const parent: Container?
    /** The live `children` array: callers that hold it see and make changes. */
    var children: seq<Block>
    var attributes: map<string, string>

    /** A new container has no children and carries its id as `data-editrix-id`. */
    constructor (tagName: string, parent: Container?, id: string)
      ensures this.id == id && this.tagName == tagName && this.parent == parent
      ensures children == []
      ensures attributes == map[EDITRIX_DATA_ID := id]
    {
      this.id := id;
      this.children := [];
      this.attributes := map[];
      this.parent := parent;
      this.tagName := tagName;
      new;
      SetAttribute(EDITRIX_DATA_ID, id);
    }

    /** `appendChild`: the child goes last and the earlier children stay. */
    method AppendChild(child: Block)
      modifies this
      ensures children == old(children) + [child]
      ensures attributes == old(attributes)
    {
      children := children + [child];
    }

    /** `insertChildAfter`. */
    method InsertChildAfter(newNode: Block, referenceNode: Block)
      modifies this
      ensures children == InsertAfterId(old(children), newNode, referenceNode.id)
      ensures attributes == old(attributes)
    {
      var index := FindIndex(children, referenceNode.id);
      if index != -1 {
        children := children[..index + 1] + [newNode] + children[index + 1..];
      }
    }

    /** `removeChild`. */
    method RemoveChild(child: Block)
      modifies this
      ensures children == RemoveId(old(children), child.id)
      ensures attributes == old(attributes)
    {
      var index := FindIndex(children, child.id);
      if index != -1 {
        children := children[..index] + children[index + 1..];
      }
    }

    /** `getChildren`. */
    function GetChildren(): seq<Block>
      reads this
    {
      children
    }

    /** `setAttribute`. */
    method SetAttribute(name: string, value: string)
      modifies this
      ensures attributes == old(attributes)[name := value]
      ensures GetAttribute(name) == Some(value)
      ensures forall n :: n != name ==> GetAttribute(n) == old(GetAttribute(n))
      ensures children == old(children)
    {
      attributes := attributes[name := value];
    }

    /** `getAttribute`. */
    function GetAttribute(name: string): Option<string>
      reads this
    {
      Get(attributes, name)
    }
  }
}

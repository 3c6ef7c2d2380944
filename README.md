# Editrix core in Dafny

This project models the document model and editing state machine of the Editrix rich-text editor.
The model covers:

- the node classes: text runs, block nodes and the container node;
- the key-binding and command registries, and the default binding table;
- the two editing engines: the registry-based `Engine` and the older `Editrix`;
- the logical part of the caret manager.

The files are organised as follows:

- `wrappers.dfy`, `constants.dfy`, `interfaces.dfy`: the `Option`/`Result` types, the U+200B marker, the `data-editrix-id` attribute name, the command enum and the caret types.
- `text_run.dfy`: `TextRun` and the marker normalisation rule shared with `BlockNode.setTextContent`.
- `nodes.dfy`: `BlockNode` and `ContainerNode` as classes whose fields change in place. The run helpers the engines call but `block.ts` does not define are given assumed contracts (see "Left out").
- `utils.dfy`: the tag whitelist and the typeable-key test.
- `key_binding.dfy`, `command_binding.dfy`, `default_key_bindings.dfy`: canonical chord strings, the registries and the seven default bindings.
- `run_scan.dfy`: the accumulating run-location scan every edit starts with (the `>=` tie-break). The scan lemma is proved once here.
- `block_edits.dfy`: what each edit does to the run list of one block.
- `editing.dfy`: the engine state `(blocks, current block, cursor offset)` as a value, the five transitions, their effects and the invariant they keep.
- `editor.dfy`: the `Editor` class holding the root container, `currentNode` and `cursorOffset`. Its methods run the transitions in place on the node objects, and each is proved equal to its transition function. Both engines build on this one class. The older engine's `updateTextContent`, `updateCursorOffset`, `handleEnterKey`, `applyBold` and `handleBackspace` (core/src/engine.ts:95-385) are the same code as the registry-based engine's (core/src/engine/index.ts:108-407), so they are modelled once.
- `dispatch.dfy`: the four outcomes of a keydown (run a command, swallow, type, ignore) and what each outcome does to the state.
- `registry_engine.dfy`: the registry-based engine: its constructor, `setupCommands` and the registry-driven `keydown`.
- `editrix.dfy`: the older engine: its constructor with the container check and its hard-wired `keydown`. It also holds lemmas on where the two front-ends agree and where they part.
- `caret_manager.dfy`: the caret manager over an abstract DOM, covering:
  - the text leaves under the root, in document order;
  - the tree walker filter and its steps;
  - block-id lookup, explicit placement and horizontal movement;
  - `setCursorPosition` routing.

## Model

| member | source | states |
|---|---|---|
| Wrappers.Get | core/src/nodes/block.ts:68-70 | `Map.prototype.get`, shared by `getAttribute`, the key-binding registry and the command registry: the stored value when the key is present, and `undefined` exactly when it is absent |
| TextRuns.Normalize | core/src/nodes/textRun.ts:10-18 | the four-way rule: `''` gives the marker; else a leading marker is dropped; else a trailing marker is dropped; else the text is kept; length changes by at most one |
| TextRuns.NewTextRun | core/src/nodes/textRun.ts:7-19 | a new run carries the given id, the normalised text and is not bold |
| TextRuns.SetText | core/src/nodes/textRun.ts:29-31 | `setText` stores its argument verbatim and keeps id and weight |
| TextRuns.SetBold | core/src/engine/index.ts:213-214 | `setBold` changes only the weight |
| TextRuns.EmptyAndMarker | core/src/nodes/textRun.ts:10-13 | `''` is stored as exactly the marker, and the lone marker as `''` |
| TextRuns.LeadingBranchWins | core/src/nodes/textRun.ts:12-15 | with a marker at both ends only the leading one is dropped |
| TextRuns.UnmarkedTextKept | core/src/nodes/textRun.ts:16-18 | a non-empty text with no marker at either end is stored unchanged |
| TextRuns.NormalizeFixedPoints | core/src/nodes/textRun.ts:10-18 | the rule leaves a text unchanged if and only if it is non-empty with no marker at either end |
| TextRuns.NormalizeNotIdempotent | core/src/nodes/textRun.ts:10-18 | the rule is not idempotent: twice on the lone marker gives the marker back |
| TextRuns.IdImmutable | core/src/nodes/textRun.ts:21-31 | `getText` after `setText` reads back the stored value; neither `setText` nor `setBold` changes the id |
| TextRuns.SliceTo | core/src/engine/index.ts:131 | `text.slice(0, n)` is the first `n` characters, or the whole text when `n` is past its end |
| TextRuns.SliceFrom | core/src/engine/index.ts:132 | `text.slice(n)` is what follows the first `n` characters, or `''` |
| TextRuns.SliceJoin | core/src/engine/index.ts:131-135 | the two slices at any offset join back to the text |
| Utils.IsBlockNodeTag | core/src/utils.ts:3-7 | true exactly for `p`, `h1`, `h2`, `h3` |
| Utils.TypeableCharacter | core/src/utils.ts:9-11 | typeable exactly when the key's JavaScript length is one UTF-16 code unit (one character of the Basic Multilingual Plane) and Ctrl, Meta and Alt are all released; Shift makes no difference |
| Utils.AstralKeyNotTypeable | core/src/utils.ts:9-11 | an emoji key such as U+1F600 has JavaScript length two and is not typeable |
| Nodes.SetThenGet | core/src/nodes/block.ts:64-70 | after `setAttribute(n, v)` the name `n` reads `v` and every other name reads what it read before |
| Nodes.IndexOfId | core/src/nodes/container.ts:34-36 | `findIndex` by id: the first position holding the id, or -1 exactly when no child has it |
| Nodes.FindIndex | core/src/nodes/container.ts:34-36 | the `findIndex` loop computes that position |
| Nodes.InsertAfterId | core/src/nodes/container.ts:33-40 | the new node lands right after the first child with the reference id and the others keep their order; with no such child nothing changes |
| Nodes.RemoveId | core/src/nodes/container.ts:42-49 | exactly the first child with the id is dropped and the rest keep their order; with no such child nothing changes |
| Nodes.SplitRuns | core/src/engine/index.ts:205 | assumed `splitRunAtOffset(i, k)`: run `i` keeps its first `k` characters and a new run gets the rest, or null when the rest is empty or `i` is out of range |
| Nodes.MergeRuns | core/src/engine/index.ts:342 | assumed `mergeRuns(i, j)`: run `i` gets run `j`'s text appended and run `j` is deleted |
| Nodes.RemoveRunsFrom | core/src/engine/index.ts:218 | assumed `removeRunsFrom(i)`: the suffix from `i` is cut off and returned, and the two parts rebuild the list |
| Nodes.InsertRunAt | core/src/engine/index.ts:290 | assumed `insertTextRun(run, i)`: a splice of one run at `i` |
| Nodes.InsertRunsAt | core/src/engine/index.ts:221 | assumed `insertRunsAt(runs, i)`: a splice at `i`, except that a destination holding only a placeholder run is replaced |
| Nodes.SplitThenMerge | core/src/engine/index.ts:294-297 | splitting run `i` and merging the tail back restores the run list |
| Nodes.Block.constructor | core/src/nodes/block.ts:13-26 | a new block has the given id, parent and tag, text exactly the marker, and the attributes `data-editrix-id` = id and `contenteditable` = `true`; the one placeholder run it also holds is assumed, since the shown constructor creates no runs |
| Nodes.Block.Create | core/src/nodes/block.ts:13-26 | construction fails exactly for a tag outside p, h1, h2, h3, and otherwise yields that block |
| Nodes.Block.SetTagName | core/src/nodes/block.ts:36-38 | the tag is replaced without validation; nothing else changes |
| Nodes.Block.SetTextContent | core/src/nodes/block.ts:44-54 | the stored text is the run constructor's normalisation of the argument |
| Nodes.Block.SetAttribute | core/src/nodes/block.ts:64-66 | one attribute is written and every other attribute reads as before |
| Nodes.Block.GetParent | core/src/nodes/block.ts:60-62 | always the parent given to the constructor |
| Nodes.Block.Remove | core/src/nodes/block.ts:56-58 | exactly `parent.removeChild(this)` |
| Nodes.Block.SplitRunAtOffset | core/src/engine/index.ts:205 | the block's runs and the result follow the assumed `splitRunAtOffset` |
| Nodes.Block.MergeRunsAt | core/src/engine/index.ts:342 | the block's runs follow the assumed `mergeRuns` |
| Nodes.Block.RemoveRunsFromIndex | core/src/engine/index.ts:218 | the block's runs and the result follow the assumed `removeRunsFrom` |
| Nodes.Block.InsertTextRun | core/src/engine/index.ts:290 | the block's runs follow the assumed `insertTextRun` |
| Nodes.Block.InsertRunsAtIndex | core/src/engine/index.ts:221 | the block's runs follow the assumed `insertRunsAt` |
| Nodes.Container.constructor | core/src/nodes/container.ts:11-19 | a new container has no children and its `data-editrix-id` attribute is its id |
| Nodes.Container.AppendChild | core/src/nodes/container.ts:29-31 | the child goes last and the earlier children stay |
| Nodes.Container.InsertChildAfter | core/src/nodes/container.ts:33-40 | the children become `InsertAfterId` of the old children |
| Nodes.Container.RemoveChild | core/src/nodes/container.ts:42-49 | the children become `RemoveId` of the old children |
| Nodes.Container.SetAttribute | core/src/nodes/container.ts:59-61 | one attribute is written and every other attribute reads as before |
| KeyBindings.FromEvent | core/src/bindings/keyBinding.ts:15-17 | the combo copies the event's key and all four modifier flags |
| KeyBindings.ToStringPrefix | core/src/bindings/keyBinding.ts:19-30 | the canonical string is the present modifiers in the fixed order Ctrl, Meta, Alt, Shift, each followed by `+`, then the key |
| KeyBindings.PlainComboString | core/src/bindings/keyBinding.ts:6-12 | with every flag at its default (false) the canonical string is the key itself |
| KeyBindings.SplitJoin | core/src/bindings/keyBinding.ts:29 | splitting at `+` undoes joining parts that hold no `+` |
| KeyBindings.PartsRecovered | core/src/bindings/keyBinding.ts:19-30 | for a key without `+` the parts are recovered from the canonical string |
| KeyBindings.ModifierNames | core/src/bindings/keyBinding.ts:22-25 | each flag is set exactly when its word is among the pushed modifier names |
| KeyBindings.ToStringInjective | core/src/bindings/keyBinding.ts:19-30 | for keys without `+`, two combos share a canonical string if and only if key and all four flags are equal |
| KeyBindings.PlusKeyCollides | core/src/bindings/keyBinding.ts:19-30 | a key containing `+` can collide with a modified chord: plain `Ctrl+b` and Ctrl with `b` share a string |
| KeyBindings.KeyBindingRegistry.constructor | core/src/bindings/keyBinding.ts:40-41 | a new registry binds nothing |
| KeyBindings.KeyBindingRegistry.AddBinding | core/src/bindings/keyBinding.ts:43-45 | the chord's canonical string maps to the command, overwriting any earlier one, and other entries stay |
| KeyBindings.KeyBindingRegistry.GetCommand | core/src/bindings/keyBinding.ts:47-50 | an exact lookup of the event's canonical string |
| KeyBindings.AddThenGet | core/src/bindings/keyBinding.ts:43-50 | after `addBinding`, an event with exactly that chord finds the command, and an event with any other chord finds what it found before (an extra modifier or a different key does not match) |
| CommandBindings.CommandRegistry.constructor | core/src/bindings/commandBinding.ts:5-6 | a new registry holds no handler |
| CommandBindings.CommandRegistry.Register | core/src/bindings/commandBinding.ts:8-10 | the name maps to the new handler, replacing any earlier one |
| CommandBindings.CommandRegistry.Get | core/src/bindings/commandBinding.ts:12-14 | the registered handler or null |
| CommandBindings.RegisterThenGet | core/src/bindings/commandBinding.ts:8-14 | after `register(n, f)`, `get(n)` is `f` and every other name answers as before |
| DefaultKeyBindings.CreateDefaultKeyBindings | core/src/engine/defaultKeyBindings.ts:4-21 | a fresh registry holding the seven bindings added in order |
| DefaultKeyBindings.DefaultsAreTable | core/src/engine/defaultKeyBindings.ts:8-18 | the result binds Ctrl+b to BOLD, Enter to ENTER, Backspace to BACKSPACE and the four arrows to MOVE_CURSOR: seven distinct chords, no overwrite, nothing else |
| DefaultKeyBindings.DefaultLookups | core/src/engine/defaultKeyBindings.ts:8 | plain `b` and Ctrl+Shift+`B` are unbound, and Ctrl+b alone finds BOLD |
| RunScan.Total | core/src/engine/index.ts:115-124 | the summed run lengths are the length of the block text |
| RunScan.PrefixLength | core/src/engine/index.ts:190-199 | `totalOffset` after `i` iterations is the length of the text of the first `i` runs |
| RunScan.ScanFacts | core/src/engine/index.ts:190-199 | the scan lemma: the located run is the first whose cumulative end is at least the cursor, `totalOffset` is the sum before it, and no run is found exactly when there are no runs or the cursor is past the text |
| RunScan.Locate | core/src/engine/index.ts:115-126 | the insertion path's scan: a located run is within the list |
| RunScan.LocateOrFirst | core/src/engine/index.ts:184-199 | the other paths' scan falls back to run 0 with `totalOffset` the full length |
| RunScan.LocatedOffset | core/src/engine/index.ts:204 | the in-run offset is never negative and, for a cursor within the text, at most the located run's length |
| RunScan.LocatedSpan | core/src/engine/index.ts:129 | the insertion path's in-run offset lies within the located run |
| RunScan.LocatedBefore | core/src/engine/index.ts:119-123 | every run before the located one ends before the cursor (the earlier run wins at a boundary) |
| RunScan.FallbackOffset | core/src/engine/index.ts:184-201 | a cursor past the text falls back to run 0 with a positive in-run offset |
| RunScan.LocateRun | core/src/engine/index.ts:190-199 | the scan loop returns the located run and `totalOffset`, or run 0 and the full length when none is found |
| BlockEdits.InsertInRunsSlices | core/src/engine/index.ts:129-135 | typing spliced in with the two `slice` calls is the model's splice |
| BlockEdits.InsertInRunsEffect | core/src/engine/index.ts:108-143 | typing lands the key in the text at the cursor and changes only the located run; the cursor advances by one exactly when the text before the insertion point does not start with the marker; a cursor past the text changes nothing |
| BlockEdits.SplitBlockShape | core/src/engine/index.ts:204-221 | Enter cuts the located run at the in-run offset: the head stays with the runs before it; the new block gets the tail (or a placeholder when the tail is empty), bold when the located run was bold, then the later runs in order |
| BlockEdits.SplitBlockText | core/src/engine/index.ts:204-221 | the staying runs hold the text before the cursor and the new block the text from the cursor on, behind one marker when the tail was empty |
| BlockEdits.SplitStayTotal | core/src/engine/index.ts:204-218 | after Enter the old block's text length is the cursor Enter started from |
| BlockEdits.BoldInRunsAt | core/src/engine/index.ts:264-284 | apply-bold is the insertion at the located run and in-run offset |
| BlockEdits.BoldInRunsShape | core/src/engine/index.ts:288-300 | at a run end one empty bold run is inserted at index+1; otherwise the run is split, the empty bold run goes to index+1 and the tail to index+2 |
| BlockEdits.BoldAtRunEnd | core/src/engine/index.ts:288-291 | at the end of the located run the empty bold run goes right after it |
| BlockEdits.BoldInRunsText | core/src/engine/index.ts:284-300 | apply-bold inserts exactly one marker into the text, at the cursor |
| BlockEdits.BoldInRunsLength | core/src/engine/index.ts:288-300 | apply-bold adds one or two runs |
| BlockEdits.BoldTwiceAtRunEnd | core/src/engine/index.ts:288-291 | applying bold twice at a run end leaves two empty bold runs |
| BlockEdits.LocateUnique | core/src/engine/index.ts:190-199 | a run that is the first to reach the cursor is the one the scan locates |
| BlockEdits.DeleteNeverMergesRuns | core/src/engine/index.ts:386-393 | with a positive cursor the in-run offset is at least one, so the run-merge branch is never taken |
| BlockEdits.DeleteInRunsEffect | core/src/engine/index.ts:366-400 | backspace inside a block deletes exactly the character before the cursor |
| BlockEdits.MergedRunsShape | core/src/engine/index.ts:329-347 | the previous block's last run absorbs the removed block's first run and the removed block's other runs follow in order |
| BlockEdits.MergedRunsText | core/src/engine/index.ts:329-347 | the merged text is the previous block's text then the removed block's, except where a lone placeholder is discarded |
| BlockEdits.SplitRejoin | core/src/engine/index.ts:204-214 | the run Backspace rebuilds from Enter's head and tail is the original run, with a marker appended when the tail was empty |
| BlockEdits.SplitThenMergeBlock | core/src/engine/index.ts:204-347 | Enter followed by the start-of-block merge gives back the runs, with one marker appended to the located run when the cursor was at its end |
| Editing.FindBlock | core/src/engine/index.ts:99-106 | the first block with the id, or -1 exactly when no block has it |
| Editing.Initial | core/src/engine/index.ts:29-46 | the start state: one `p` block, current, with the cursor at 0, satisfying the invariant; the block's one placeholder run (text the marker) is assumed, since the shown block constructor creates no runs |
| Editing.ApplyBold | core/src/engine/index.ts:303 | for a block with runs the cursor becomes `totalOffset + runOffset + 1`, one past the old cursor |
| Editing.InsertTextEffect | core/src/engine/index.ts:108-143 | typing changes only the current block, lands the key at the cursor in its text, and is a no-op past the text |
| Editing.EnterEffect | core/src/engine/index.ts:181-235 | a new block with the current block's tag and the fresh id goes right after it and becomes current at offset 0; the other blocks keep their order; the old block keeps the text before the cursor, and the new one holds the text from the cursor on, behind one marker exactly when the cursor was at the end of the located run |
| Editing.ApplyBoldEffect | core/src/engine/index.ts:261-306 | the cursor moves exactly one forward, one marker is inserted at the cursor, and no other block changes |
| Editing.BackspaceInBlock | core/src/engine/index.ts:366-407 | at a positive cursor the character before it is deleted and the cursor steps back; no other block changes |
| Editing.BackspaceAtStart | core/src/engine/index.ts:312-363 | at offset 0 on the first block nothing changes; otherwise the previous block becomes current at its pre-merge text length, the block is removed, the others keep their order, and the texts are joined |
| Editing.EnterThenBackspace | core/src/engine/index.ts:181-363 | Backspace right after Enter gives the state back when the cursor was inside a run, and otherwise the state with one marker appended to the located run |
| Editing.EnterThenBackspaceMerges | core/src/engine/index.ts:181-363 | Backspace right after Enter keeps the other blocks and the count and merges the two halves |
| Editing.EnterInv | core/src/engine/index.ts:181-248 | Enter with a fresh block id keeps the invariant: unique ids, whitelisted tags, non-empty run lists, a valid current block |
| Editing.BackspaceInv | core/src/engine/index.ts:308-407 | Backspace keeps the invariant |
| Editing.InsertTextInv | core/src/engine/index.ts:108-143 | typing keeps the invariant |
| Editing.ApplyBoldInv | core/src/engine/index.ts:261-306 | apply-bold keeps the invariant |
| Editing.MoveCursorInv | core/src/engine/index.ts:145-179 | cursor moves keep the invariant |
| Editing.MoveCursorEffect | core/src/engine/index.ts:172-178 | a null answer or a non-arrow key changes nothing; otherwise the offset is taken and the current block switches only when a block with the answer's id exists |
| EditorCore.FindBlockAgrees | core/src/engine/index.ts:99-106 | the lookup on the abstract state agrees with `find` on the live children |
| EditorCore.DirectionOf | core/src/engine/index.ts:150-170 | each arrow key maps to its own direction and any other key to none |
| EditorCore.Editor.constructor | core/src/engine/index.ts:36-45 | an `article` root with one `p` block, current, cursor 0; the object invariant holds |
| EditorCore.Editor.FindBlockNode | core/src/engine/index.ts:99-106 | the direct child carrying the id, or null exactly when none does |
| EditorCore.Editor.UpdateTextContent | core/src/engine/index.ts:108-143 | the objects keep the invariant and stand for `InsertText` of the old state |
| EditorCore.Editor.TypeIntoCurrent | core/src/engine/index.ts:111-142 | the in-place typing on the object structure is `InsertText` |
| EditorCore.Editor.ApplyBold | core/src/engine/index.ts:261-306 | the objects keep the invariant and stand for `ApplyBold` of the old state |
| EditorCore.Editor.BoldAtCursor | core/src/engine/index.ts:264-303 | the in-place apply-bold on the object structure |
| EditorCore.Editor.HandleEnterKey | core/src/engine/index.ts:181-248 | the objects keep the invariant and stand for `Enter` of the old state |
| EditorCore.Editor.SplitIntoNewBlock | core/src/engine/index.ts:184-235 | the in-place Enter on the object structure |
| EditorCore.Editor.SplitCurrent | core/src/engine/index.ts:184-218 | the current block keeps the runs before the cursor and the moved runs are returned |
| EditorCore.Editor.AddSplitOff | core/src/engine/index.ts:210-235 | the new block with the current tag and moved runs is inserted after the current block and becomes current at 0 |
| EditorCore.Editor.AddAfterCurrent | core/src/engine/index.ts:223 | the new block goes in right after the current one |
| EditorCore.Editor.HandleBackspace | core/src/engine/index.ts:308-407 | the objects keep the invariant and stand for `Backspace` of the old state |
| EditorCore.Editor.DeleteBeforeCursor | core/src/engine/index.ts:366-400 | the in-block delete on the object structure |
| EditorCore.Editor.MergeWithPrevious | core/src/engine/index.ts:312-363 | the offset-0 path on the object structure, including the first-block no-op |
| EditorCore.Editor.MergeAtStart | core/src/engine/index.ts:326-362 | the merge once a previous sibling exists |
| EditorCore.Editor.MergeInto | core/src/engine/index.ts:334-350 | the cursor goes to the previous block's text length and the previous block becomes current before the merge |
| EditorCore.Editor.MergeAndDrop | core/src/engine/index.ts:339-350 | the previous block absorbs the runs and the removed block leaves the children |
| EditorCore.Editor.MergePair | core/src/engine/index.ts:339-347 | the previous block's runs become the merge of the two blocks' runs |
| EditorCore.Editor.DropChild | core/src/engine/index.ts:350 | the child after the current one is spliced out and the others keep their order |
| EditorCore.Editor.UpdateCursorOffset | core/src/engine/index.ts:145-179 | the objects keep the invariant and stand for `MoveCursor` of the old state |
| EditorCore.Editor.MoveByAnswer | core/src/engine/index.ts:172-178 | adopting the answer on the object structure |
| EditorCore.TypeInBlock | core/src/engine/index.ts:111-142 | the block's runs and the new cursor are `InsertInRuns` of the old ones |
| EditorCore.BoldInBlock | core/src/engine/index.ts:264-303 | the block's runs become `BoldInRuns` and the cursor moves one on |
| EditorCore.BoldRunAt | core/src/engine/index.ts:284-300 | the empty bold run and the split tail are placed at index+1 and index+2 |
| EditorCore.SplitOffRuns | core/src/engine/index.ts:184-219 | the block keeps `SplitBlock`'s staying runs and the returned runs are its moved runs |
| EditorCore.NewSibling | core/src/engine/index.ts:210 | a fresh block with the current tag and parent, holding the moved runs |
| EditorCore.DeleteInBlock | core/src/engine/index.ts:366-400 | the block's runs become `DeleteInRuns` of the old ones |
| EditorCore.MergeIntoPrevious | core/src/engine/index.ts:339-347 | the previous block's runs become `MergedRuns` of the two blocks' runs |
| Dispatch.PerformInv | core/src/engine/index.ts:76-89 | every keydown outcome keeps the invariant |
| Dispatch.Run | core/src/engine/index.ts:76-89 | carrying out an outcome on the objects is `Perform` on the state |
| RegistryEngine.Engine.constructor | core/src/engine/index.ts:29-56 | the initial state, and the command registry holds the four engine methods, each under its own command |
| RegistryEngine.Engine.Keydown | core/src/engine/index.ts:76-89 | the handler prevents the default and changes the state exactly as `KeydownAction` decides from the two registries |
| RegistryEngine.SetupRegistersAll | core/src/engine/index.ts:48-56 | after `setupCommands` every command has its own engine method |
| RegistryEngine.BoundChordsSwallowed | core/src/engine/index.ts:76-89 | a bound chord is always swallowed and never typed, even without a handler; an unbound chord is typed exactly when typeable, and otherwise left alone |
| RegistryEngine.BoundChordRunsItsCommand | core/src/engine/index.ts:76-82 | once the commands are set up, a bound chord runs exactly its command's method |
| EditrixEngine.ContainerNotFound | core/src/engine.ts:19-20 | the error message ends with the selector |
| EditrixEngine.Editrix.constructor | core/src/engine.ts:23-34 | one `p` block, current, cursor 0, invariant holds |
| EditrixEngine.Editrix.Create | core/src/engine.ts:17-35 | throws exactly when the selector matches nothing, with that message; otherwise the initial editor |
| EditrixEngine.Editrix.Keydown | core/src/engine.ts:55-76 | Enter, Backspace, Ctrl with `b`, typeable key, arrow key in that order, first match wins; anything else is left without `preventDefault` |
| EditrixEngine.FrontEndsAgree | core/src/engine.ts:55-76 | on unmodified keys without `+` and on Ctrl+b the two front-ends decide alike, given the default bindings |
| EditrixEngine.ModifiedEnterDiffers | core/src/engine.ts:56-59 | Enter fires whatever modifiers are held in the older engine, while the default bindings ignore a modified Enter |
| EditrixEngine.ShiftedChordsDiffer | core/src/engine.ts:64-75 | the older engine bolds on Ctrl+Shift+b and moves on Shift+arrow, where the default bindings ignore both |
| CaretManagement.FilterExamples | core/src/renderers/caretManager.ts:28-33 | a node holding only the marker passes the walker filter; blank text does not |
| CaretManagement.FirstAcceptedFrom | core/src/renderers/caretManager.ts:49-51 | the first accepted leaf at or after an index, or none exactly when no later leaf passes the filter |
| CaretManagement.LastAcceptedBefore | core/src/renderers/caretManager.ts:49-51 | the last accepted leaf before an index, or none exactly when no earlier leaf passes the filter |
| CaretManagement.AcceptedIndices | core/src/renderers/caretManager.ts:24-36 | the accepted leaves in strictly increasing document order, containing exactly the leaves that pass the filter |
| CaretManagement.AcceptedNeighbours | core/src/renderers/caretManager.ts:49-51 | from an accepted leaf the walker steps to the next or previous accepted leaf, and to null at either end |
| CaretManagement.TreeWalker.constructor | core/src/renderers/caretManager.ts:24-36 | a new walker stands at its root |
| CaretManagement.TreeWalker.NextNode | core/src/renderers/caretManager.ts:50 | `nextNode()` answers the first accepted leaf after its position and moves there, or answers null and stays |
| CaretManagement.TreeWalker.PreviousNode | core/src/renderers/caretManager.ts:51 | `previousNode()` answers the last accepted leaf before its position and moves there, or answers null and stays |
| CaretManagement.Closest | core/src/renderers/caretManager.ts:216-219 | the id of the nearest ancestor element carrying `data-editrix-id`, or null exactly when none does |
| CaretManagement.Reported | core/src/renderers/caretManager.ts:132 | the result is null exactly when the id is missing or empty, and otherwise the id and offset |
| CaretManagement.Clamp | core/src/renderers/caretManager.ts:179 | `max(0, min(offset, max))`: within bounds, and the offset itself when already within them |
| CaretManagement.HorizontalSteps | core/src/renderers/caretManager.ts:92-123 | the move stays in the leaf at start±1 when that lies within it; otherwise it goes to the end of the previous accepted leaf (left) or the start of the next one (right), or clamps to 0 or the length; the target lies within its leaf |
| CaretManagement.CrossesToNeighbour | core/src/renderers/caretManager.ts:102-123 | from an accepted leaf a crossing move lands on the neighbouring accepted leaf, at its end going left and its start going right |
| CaretManagement.FirstTextChild | core/src/renderers/caretManager.ts:164-170 | the first direct text child, or none exactly when there is none |
| CaretManagement.ExplicitOffset | core/src/renderers/caretManager.ts:172-179 | the offset clamped to the first text child's length, or 0 when a marker child is created |
| CaretManagement.WithTextChild | core/src/renderers/caretManager.ts:172-176 | a marker text node is appended exactly when there was no text child, and the children are otherwise unchanged |
| CaretManagement.DomElement.constructor | core/src/renderers/caretManager.ts:66-69 | the element found for a block id, with its children and ancestry |
| CaretManagement.ExplicitReportsBlock | core/src/renderers/caretManager.ts:159-185 | placing the caret in an element carrying the id reports that id with the clamped offset, and the element then has a text child |
| CaretManagement.CaretManager.constructor | core/src/renderers/caretManager.ts:9-11 | an empty root id and no walker |
| CaretManagement.CaretManager.SetRootId | core/src/renderers/caretManager.ts:13-16 | records the id; a walker at the root is made when the root element exists |
| CaretManagement.CaretManager.InitTreeWalker | core/src/renderers/caretManager.ts:18-37 | a new walker at the root when the root element exists, otherwise nothing changes |
| CaretManagement.CaretManager.GetNextTextNode | core/src/renderers/caretManager.ts:39-59 | null without a walker; otherwise the walker's step from the current leaf; on failure the walker is back at the current leaf |
| CaretManagement.CaretManager.HandleHorizontalMove | core/src/renderers/caretManager.ts:87-133 | the answer is `Horizontal` of the start container, offset and direction: null for a non-text start, else the target with its block's id |
| CaretManagement.CaretManager.SetExplicitCursor | core/src/renderers/caretManager.ts:159-185 | the element gains a marker text node exactly when it had no text child; the answer is the clamped offset with the block id, or null |
| CaretManagement.CaretManager.SetCursorPosition | core/src/renderers/caretManager.ts:61-85 | null without element or selection; with a direction and a range, left and right move horizontally and up and down vertically; otherwise the caret is placed explicitly |

## Left out

- Rendering (core/src/renderers/dom.ts, core/src/renderers/renderer.ts) is presentation I/O. The engines' `renderer.mount`, `createNode`, `updateNode` and `deleteNode` calls change nothing the model tracks, so they are left out.
- Event listener registration and the click handler depend on the browser and its hit-testing, so they are not modelled. The DOM selection set up after Enter (core/src/engine/index.ts:238-247) is left out too.
- `restoreFocus` and the `setCursorPosition` calls the engines make after an edit are left out. Only their return value is used, by `updateCursorOffset`. There the caret manager's answer is a parameter (`answer`) of `UpdateCursorOffset`, `Keydown` and `Perform`.
- Vertical caret movement and `getRangeFromPoint` depend on float geometry and browser hit-testing. `SetCursorPosition` takes their answer as the parameter `vertical`.
- `applyRange` rewrites the browser selection and is left out. `HandleHorizontalMove` and `SetExplicitCursor` therefore leave the selection alone.
- The live DOM is abstracted. The text nodes under the root are a sequence of leaves in document order, each with its text and its ancestors' `data-editrix-id` values. The walker steps over that snapshot, passed to each call, rather than over a tree that can change between calls.
- Whether `querySelector` finds the root or a block element, and what `getSelection` answers, are parameters.
- Random ids (`Math.random().toString(36)`) are parameters: fresh block and run ids are passed in as `FreshIds`.
- Handlers in the command registry range over the engine's own four methods (`CommandFn`). A foreign handler registered by outside code runs code that is not part of this model.
- The run API the engines call but `block.ts` does not define is modelled on a `runs` field with ASSUMED contracts. These are not transcriptions of any shown code:
  - `getRuns`;
  - the one placeholder run (text the marker) a new block starts with;
  - `splitRunAtOffset`;
  - `mergeRuns`;
  - `removeRunsFrom`;
  - `insertTextRun`;
  - `insertRunsAt`;
  - `TextRun.isBold`/`setBold`.

  The assumptions are listed in the Model table. `insertRunsAt` also replaces a destination holding only a placeholder run. That is the reading chosen so that Enter does not leave a stray marker run.
- The shown `block.ts` keeps a `textContent` string that no edit updates. The engines' `getTextContent()` at Backspace-at-start (core/src/engine/index.ts:334) is modelled as the length of the runs' text.
- Two places where the design description and the code disagree follow the code:
  - applying bold twice at a run end makes two empty bold runs (`BlockEdits.BoldTwiceAtRunEnd`);
  - the normalisation rule is not idempotent (`TextRuns.NormalizeNotIdempotent`).
- A Dafny `char` is a Unicode scalar value, whereas JavaScript's string length counts UTF-16 code units. The typeable-key test counts code units (`Utils.Utf16Length`), so only characters of the Basic Multilingual Plane are ever typed. Every text the editor builds therefore has the same length under both counts. Lone surrogates are not representable.
- Text runs are values, not objects. `setText` and `setBold` update the run in place in the source. In the model that update is a replacement of the element in its owning block's `runs`, done by methods that modify the block. No run object is shared between live blocks, so no aliasing behaviour is lost.
- `isArrowKey` is imported by core/src/engine.ts but not defined in core/src/utils.ts. It is modelled as membership in the four arrow key names.
- The wiring facades (core/src/editrix.ts, core/src/index.ts), the declaration-only interface files and the playground are not part of this model.
- CaretManagement.CaretManager.HandleHorizontalMove: for a left move whose start offset is more than one past the leaf's length, the code steps forward (`startOffset - 1 > textLength`). The model follows the code.
- The null guards on `currentNode` are not modelled: every constructor sets it and every later assignment is non-null, so they are unreachable.

/** core/src/engine/defaultKeyBindings.ts: the registry the registry-based engine is given by
    default, built by seven successive `addBinding` calls. */
module DefaultKeyBindings {
  import opened Wrappers
  import opened Constants
  import opened Utils
  import opened KeyBindings

  /** The seven bindings in the order `createDefaultKeyBindings` adds them. */
  const DEFAULT_BINDINGS: seq<KeyBinding> := [
    KeyBinding(KeyCombo("b", ctrl := true), BOLD),
    KeyBinding(KeyCombo("Enter"), ENTER),
    KeyBinding(KeyCombo("Backspace"), BACKSPACE),
    KeyBinding(KeyCombo("ArrowLeft"), MOVE_CURSOR),
    KeyBinding(KeyCombo("ArrowRight"), MOVE_CURSOR),
    KeyBinding(KeyCombo("ArrowUp"), MOVE_CURSOR),
    KeyBinding(KeyCombo("ArrowDown"), MOVE_CURSOR)
  ]

  /** The map the registry holds after the given bindings are added in order, starting from
      `bindings`. */
  function AddAll(bindings: map<string, EditorCommand>, added: seq<KeyBinding>): map<string, EditorCommand>
    decreases |added|
  {
    if added == [] then bindings
    else AddAll(bindings[ToString(added[0].combo) := added[0].command], added[1..])
  }

  /** The default table read off as chord strings. */
  function DefaultTable(): map<string, EditorCommand>
  {
    map["Ctrl+b" := BOLD, "Enter" := ENTER, "Backspace" := BACKSPACE,
        "ArrowLeft" := MOVE_CURSOR, "ArrowRight" := MOVE_CURSOR, "ArrowUp" := MOVE_CURSOR, "ArrowDown" := MOVE_CURSOR]
  }

  /** `createDefaultKeyBindings`: a fresh registry with the seven default bindings. */
  method CreateDefaultKeyBindings() returns (registry: KeyBindingRegistry)
    ensures fresh(registry)
    ensures registry.bindings == AddAll(map[], DEFAULT_BINDINGS)
  {
    registry := new KeyBindingRegistry();
    registry.AddBinding(KeyBinding(KeyCombo("b", true), BOLD));
    registry.AddBinding(KeyBinding(KeyCombo("Enter"), ENTER));
    registry.AddBinding(KeyBinding(KeyCombo("Backspace"), BACKSPACE));
    registry.AddBinding(KeyBinding(KeyCombo("ArrowLeft"), MOVE_CURSOR));
    registry.AddBinding(KeyBinding(KeyCombo("ArrowRight"), MOVE_CURSOR));
    registry.AddBinding(KeyBinding(KeyCombo("ArrowUp"), MOVE_CURSOR));
    registry.AddBinding(KeyBinding(KeyCombo("ArrowDown"), MOVE_CURSOR));
    AddAllSeven(map[]);
  }

  /** Unfolding the seven additions. */
  lemma AddAllSeven(m: map<string, EditorCommand>)
    ensures AddAll(m, DEFAULT_BINDINGS) ==
      m[ToString(KeyCombo("b", true)) := BOLD][ToString(KeyCombo("Enter")) := ENTER]
       [ToString(KeyCombo("Backspace")) := BACKSPACE][ToString(KeyCombo("ArrowLeft")) := MOVE_CURSOR]
       [ToString(KeyCombo("ArrowRight")) := MOVE_CURSOR][ToString(KeyCombo("ArrowUp")) := MOVE_CURSOR]
       [ToString(KeyCombo("ArrowDown")) := MOVE_CURSOR]
  {
    var d := DEFAULT_BINDINGS;
    assert d[1..][1..][1..][1..][1..][1..][1..] == [];
    assert AddAll(m, d) == AddAll(m[ToString(d[0].combo) := d[0].command], d[1..]);
    var m1 := m[ToString(d[0].combo) := d[0].command];
    assert AddAll(m1, d[1..]) == AddAll(m1[ToString(d[1].combo) := d[1].command], d[2..]);
    var m2 := m1[ToString(d[1].combo) := d[1].command];
    assert AddAll(m2, d[2..]) == AddAll(m2[ToString(d[2].combo) := d[2].command], d[3..]);
    var m3 := m2[ToString(d[2].combo) := d[2].command];
    assert AddAll(m3, d[3..]) == AddAll(m3[ToString(d[3].combo) := d[3].command], d[4..]);
    var m4 := m3[ToString(d[3].combo) := d[3].command];
    assert AddAll(m4, d[4..]) == AddAll(m4[ToString(d[4].combo) := d[4].command], d[5..]);
    var m5 := m4[ToString(d[4].combo) := d[4].command];
    assert AddAll(m5, d[5..]) == AddAll(m5[ToString(d[5].combo) := d[5].command], d[6..]);
    var m6 := m5[ToString(d[5].combo) := d[5].command];
    assert AddAll(m6, d[6..]) == AddAll(m6[ToString(d[6].combo) := d[6].command], d[7..]);
  }

  /** The canonical strings of the seven default chords. */
  lemma DefaultStrings()
    ensures ToString(KeyCombo("b", true)) == "Ctrl+b"
    ensures ToString(KeyCombo("Enter")) == "Enter" && ToString(KeyCombo("Backspace")) == "Backspace"
    ensures ToString(KeyCombo("ArrowLeft")) == "ArrowLeft" && ToString(KeyCombo("ArrowRight")) == "ArrowRight"
    ensures ToString(KeyCombo("ArrowUp")) == "ArrowUp" && ToString(KeyCombo("ArrowDown")) == "ArrowDown"
  {
    ToStringPrefix(KeyCombo("b", true));
    assert "Ctrl+" + "b" == "Ctrl+b";
    PlainComboString("Enter");
    PlainComboString("Backspace");
    PlainComboString("ArrowLeft");
    PlainComboString("ArrowRight");
    PlainComboString("ArrowUp");
    PlainComboString("ArrowDown");
  }

  /** The default registry binds Ctrl+b to BOLD, plain Enter to ENTER, plain Backspace to
      BACKSPACE and each plain arrow key to MOVE_CURSOR: seven distinct chords, none bound
      twice, and nothing else. */
  lemma DefaultsAreTable()
    ensures AddAll(map[], DEFAULT_BINDINGS) == DefaultTable()
    ensures |DefaultTable().Keys| == |DEFAULT_BINDINGS| == 7
  {
    AddAllSeven(map[]);
    DefaultStrings();
    var keys := ["Ctrl+b", "Enter", "Backspace", "ArrowLeft", "ArrowRight", "ArrowUp", "ArrowDown"];
    assert DefaultTable().Keys == set k | k in keys;
    DistinctCard(keys);
  }

  /** Seven pairwise different strings make a set of seven. */
  lemma DistinctCard(keys: seq<string>)
    requires keys == ["Ctrl+b", "Enter", "Backspace", "ArrowLeft", "ArrowRight", "ArrowUp", "ArrowDown"]
    ensures |set k | k in keys| == 7
  {
    assert forall i, j | 0 <= i < j < |keys| :: keys[i] != keys[j] by {
      assert "ArrowLeft"[5] != "ArrowRight"[5] && "ArrowLeft"[5] != "ArrowUp"[5] && "ArrowLeft"[5] != "ArrowDown"[5];
      assert "ArrowRight"[5] != "ArrowUp"[5] && "ArrowRight"[5] != "ArrowDown"[5] && "ArrowUp"[5] != "ArrowDown"[5];
    }
    DistinctElements(keys);
  }

  /** A sequence without repeated elements has as many distinct elements as it is long. */
  lemma {:induction false} DistinctElements<T>(xs: seq<T>)
    requires forall i, j | 0 <= i < j < |xs| :: xs[i] != xs[j]
    ensures |set x | x in xs| == |xs|
  {
    if xs != [] {
      DistinctElements(xs[1..]);
      assert (set x | x in xs) == {xs[0]} + (set x | x in xs[1..]);
      assert xs[0] !in xs[1..];
    }
  }

  /** Events on the default registry: plain `b` and Ctrl+Shift+`B` are unbound, while Ctrl+b
      with Ctrl as its only modifier is bound to BOLD. */
  lemma DefaultLookups(e: KeyEvent)
    ensures e.key == "b" && !e.ctrlKey && !e.metaKey && !e.altKey && !e.shiftKey ==>
      Get(DefaultTable(), ToString(FromEvent(e))) == None
    ensures e.key == "B" && e.ctrlKey && !e.metaKey && !e.altKey && e.shiftKey ==>
      Get(DefaultTable(), ToString(FromEvent(e))) == None
    ensures e.key == "b" && e.ctrlKey && !e.metaKey && !e.altKey && !e.shiftKey ==>
      Get(DefaultTable(), ToString(FromEvent(e))) == Some(BOLD)
  {
    ToStringPrefix(FromEvent(e));
    if e.key == "b" && e.ctrlKey && !e.metaKey && !e.altKey && !e.shiftKey {
      assert ToString(FromEvent(e)) == "Ctrl+" + "b" == "Ctrl+b";
    }
    if e.key == "B" && e.ctrlKey && !e.metaKey && !e.altKey && e.shiftKey {
      assert ToString(FromEvent(e)) == "Ctrl+" + "Shift+" + "B";
      assert ("Ctrl+" + "Shift+" + "B")[5] == 'S';
    }
  }
}

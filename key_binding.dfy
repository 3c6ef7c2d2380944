/** core/src/bindings/keyBinding.ts: key chords, their canonical strings, and the registry that
    maps a chord string to an editor command. */
module KeyBindings {
  import opened Wrappers
  import opened Constants
  import opened Utils

  /** `KEY_BINDING_DELIMITER`. */
  const KEY_BINDING_DELIMITER: char := '+'

  /** `KeyCombo`: a key and four modifier flags, all of which default to false. */
  datatype KeyCombo = KeyCombo(key: string, ctrl: bool := false, meta: bool := false, alt: bool := false, shift: bool := false)

  /** `KeyBinding`: a chord and the command it triggers. */
  datatype KeyBinding = KeyBinding(combo: KeyCombo, command: EditorCommand)

  /** `KeyCombo.fromEvent`: the event's key and its four modifier flags. */
  function FromEvent(e: KeyEvent): (c: KeyCombo)
    ensures c.key == e.key && c.ctrl == e.ctrlKey && c.meta == e.metaKey && c.alt == e.altKey && c.shift == e.shiftKey
  {
    KeyCombo(e.key, e.ctrlKey, e.metaKey, e.altKey, e.shiftKey)
  }

  /** The modifier names `toString` pushes, in its fixed order. */
  function Modifiers(c: KeyCombo): seq<string>
  {
    (if c.ctrl then ["Ctrl"] else []) + (if c.meta then ["Meta"] else []) +
    (if c.alt then ["Alt"] else []) + (if c.shift then ["Shift"] else [])
  }

  /** The parts `toString` collects: the modifier names, then the key. */
  function Parts(c: KeyCombo): seq<string>
  {
    Modifiers(c) + [c.key]
  }

  /** `Array.prototype.join` with a one-character separator. */
  function Join(parts: seq<string>, sep: char): string
  {
    if |parts| == 0 then ""
    else if |parts| == 1 then parts[0]
    else parts[0] + [sep] + Join(parts[1..], sep)
  }

  /** `KeyCombo.toString`: the parts joined by `+`. */
  function ToString(c: KeyCombo): string
  {
    Join(Parts(c), KEY_BINDING_DELIMITER)
  }

  /** An independent reading of the canonical string: `Ctrl+`, `Meta+`, `Alt+`, `Shift+` for
      the flags that are set, in that order, then the key. */
  function ModifierPrefix(c: KeyCombo): string
  {
    (if c.ctrl then "Ctrl+" else "") + (if c.meta then "Meta+" else "") +
    (if c.alt then "Alt+" else "") + (if c.shift then "Shift+" else "")
  }

  /** Splitting a string at every occurrence of a separator, as `String.prototype.split` does
      with a one-character separator. */
  function Split(s: string, sep: char): (r: seq<string>)
    ensures |r| >= 1
  {
    if |s| == 0 then [""]
    else
      var rest := Split(s[1..], sep);
      if s[0] == sep then [""] + rest
      else [[s[0]] + rest[0]] + rest[1..]
  }

  /** Each part followed by the delimiter, one after another. */
  function Prefixed(parts: seq<string>): string
  {
    if parts == [] then "" else parts[0] + [KEY_BINDING_DELIMITER] + Prefixed(parts[1..])
  }

  /** A separator-free start of a string is glued to its first part. */
  lemma {:induction false} SplitPlainStart(m: string, t: string, sep: char)
    requires sep !in m
    ensures var r := Split(t, sep); Split(m + t, sep) == [m + r[0]] + r[1..]
    decreases |m|
  {
    if |m| == 0 {
      var r := Split(t, sep);
      assert m + t == t && m + r[0] == r[0];
      assert r == [r[0]] + r[1..];
    } else {
      assert (m + t)[1..] == m[1..] + t;
      assert sep !in m[1..] by {
        forall k | 0 <= k < |m[1..]| ensures m[1..][k] != sep {
          assert m[1..][k] == m[k + 1];
        }
      }
      SplitPlainStart(m[1..], t, sep);
      assert [m[0]] + (m[1..] + Split(t, sep)[0]) == m + Split(t, sep)[0];
    }
  }

  /** Splitting undoes joining when no part contains the separator. */
  lemma {:induction false} SplitJoin(parts: seq<string>, sep: char)
    requires parts != []
    requires forall p | p in parts :: sep !in p
    ensures Split(Join(parts, sep), sep) == parts
    decreases |parts|
  {
    var m := parts[0];
    if |parts| == 1 {
      SplitPlainStart(m, "", sep);
      assert m + "" == m;
    } else {
      var rest := parts[1..];
      assert forall p | p in rest :: p in parts;
      SplitJoin(rest, sep);
      var j := Join(rest, sep);
      assert Join(parts, sep) == m + ([sep] + j);
      SplitPlainStart(m, [sep] + j, sep);
      assert ([sep] + j)[1..] == j;
      assert Split([sep] + j, sep) == [""] + rest;
      assert m + "" == m;
      assert parts == [m] + rest;
    }
  }

  /** Joining the modifier names and a key is prefixing each name with its delimiter. */
  lemma {:induction false} JoinPrefixed(mods: seq<string>, key: string)
    ensures Join(mods + [key], KEY_BINDING_DELIMITER) == Prefixed(mods) + key
    decreases |mods|
  {
    if mods != [] {
      JoinPrefixed(mods[1..], key);
      assert (mods + [key])[1..] == mods[1..] + [key];
    }
  }

  /** Prefixing distributes over concatenation. */
  lemma {:induction false} PrefixedAppend(a: seq<string>, b: seq<string>)
    ensures Prefixed(a + b) == Prefixed(a) + Prefixed(b)
    decreases |a|
  {
    if a == [] {
      assert a + b == b;
    } else {
      assert (a + b)[1..] == a[1..] + b;
      PrefixedAppend(a[1..], b);
    }
  }

  /** One word followed by the delimiter. */
  lemma PrefixedOne(w: string)
    ensures Prefixed([w]) == w + [KEY_BINDING_DELIMITER]
  {
    assert [w][1..] == [];
  }

  /** The prefix contributed by one optional modifier word. */
  lemma PrefixedFlag(flag: bool, w: string)
    ensures Prefixed(if flag then [w] else []) == if flag then w + [KEY_BINDING_DELIMITER] else ""
  {
    if flag {
      PrefixedOne(w);
    }
  }

  /** `toString` lists the present modifiers in the fixed order Ctrl, Meta, Alt, Shift, each
      followed by `+`, then the key. */
  lemma ToStringPrefix(c: KeyCombo)
    ensures ToString(c) == ModifierPrefix(c) + c.key
  {
    var m1: seq<string> := if c.ctrl then ["Ctrl"] else [];
    var m2: seq<string> := if c.meta then ["Meta"] else [];
    var m3: seq<string> := if c.alt then ["Alt"] else [];
    var m4: seq<string> := if c.shift then ["Shift"] else [];
    assert Modifiers(c) == m1 + m2 + m3 + m4;
    JoinPrefixed(Modifiers(c), c.key);
    PrefixedAppend(m1 + m2 + m3, m4);
    PrefixedAppend(m1 + m2, m3);
    PrefixedAppend(m1, m2);
    PrefixedFlag(c.ctrl, "Ctrl");
    PrefixedFlag(c.meta, "Meta");
    PrefixedFlag(c.alt, "Alt");
    PrefixedFlag(c.shift, "Shift");
    assert "Ctrl" + [KEY_BINDING_DELIMITER] == "Ctrl+" && "Meta" + [KEY_BINDING_DELIMITER] == "Meta+";
    assert "Alt" + [KEY_BINDING_DELIMITER] == "Alt+" && "Shift" + [KEY_BINDING_DELIMITER] == "Shift+";
  }

  /** With no modifier flag set, the canonical string is the key itself. */
  lemma PlainComboString(key: string)
    ensures ToString(KeyCombo(key)) == key
  {
    ToStringPrefix(KeyCombo(key));
  }

  /** The parts of a chord whose key has no `+` are recovered from its canonical string. */
  lemma PartsRecovered(c: KeyCombo)
    requires KEY_BINDING_DELIMITER !in c.key
    ensures Split(ToString(c), KEY_BINDING_DELIMITER) == Parts(c)
  {
    assert forall p | p in Parts(c) :: p in ["Ctrl", "Meta", "Alt", "Shift"] || p == c.key;
    SplitJoin(Parts(c), KEY_BINDING_DELIMITER);
  }

  /** Each flag is set exactly when its word is among the modifier names. */
  lemma ModifierNames(c: KeyCombo)
    ensures c.ctrl <==> "Ctrl" in Modifiers(c)
    ensures c.meta <==> "Meta" in Modifiers(c)
    ensures c.alt <==> "Alt" in Modifiers(c)
    ensures c.shift <==> "Shift" in Modifiers(c)
  {
    assert "Ctrl" != "Meta" && "Ctrl" != "Alt" && "Ctrl" != "Shift";
    assert "Meta" != "Alt" && "Meta" != "Shift" && "Alt" != "Shift";
    assert forall w | w in Modifiers(c) ::
      (w == "Ctrl" && c.ctrl) || (w == "Meta" && c.meta) || (w == "Alt" && c.alt) || (w == "Shift" && c.shift);
  }

  /** For keys without `+`, two chords have the same canonical string exactly when their keys
      and all four flags agree. */
  lemma ToStringInjective(a: KeyCombo, b: KeyCombo)
    requires KEY_BINDING_DELIMITER !in a.key && KEY_BINDING_DELIMITER !in b.key
    ensures ToString(a) == ToString(b) <==> a == b
  {
    if ToString(a) == ToString(b) {
      PartsRecovered(a);
      PartsRecovered(b);
      var pa := Parts(a);
      var pb := Parts(b);
      assert pa == pb;
      assert pa[..|pa| - 1] == Modifiers(a) && pb[..|pb| - 1] == Modifiers(b);
      assert a.key == pa[|pa| - 1] && b.key == pb[|pb| - 1];
      ModifierNames(a);
      ModifierNames(b);
    }
  }

  /** A key that itself contains `+` can collide with a modified chord: the plain key
      `"Ctrl+b"` and Ctrl with `b` have the same canonical string. */
  lemma PlusKeyCollides()
    ensures ToString(KeyCombo("Ctrl+b")) == ToString(KeyCombo("b", ctrl := true))
    ensures KeyCombo("Ctrl+b") != KeyCombo("b", ctrl := true)
  {
    PlainComboString("Ctrl+b");
    ToStringPrefix(KeyCombo("b", ctrl := true));
  }

  /** `KeyBindingRegistry`: a map from canonical chord strings to commands, updated in place. */
  class KeyBindingRegistry {
    var bindings: map<string, EditorCommand>

    /** A new registry binds nothing. */
    constructor ()
      ensures bindings == map[]
    {
      bindings := map[];
    }

    /** `addBinding`: the chord's canonical string now maps to the command, overwriting any
        earlier command for it; every other entry is unchanged. */
    method AddBinding(binding: KeyBinding)
      modifies this
      ensures bindings == old(bindings)[ToString(binding.combo) := binding.command]
    {
      bindings := bindings[ToString(binding.combo) := binding.command];
    }

    /** `getCommand`: exact lookup of the event's canonical string. */
    method GetCommand(e: KeyEvent) returns (r: Option<EditorCommand>)
      ensures r == Get(bindings, ToString(FromEvent(e)))
    {
      var combo := ToString(FromEvent(e));
      if combo in bindings {
        return Some(bindings[combo]);
      }
      return None;
    }
  }

  /** After a binding is added, an event with exactly its chord finds its command, and an event
      with any other chord (keys without `+`) finds what it found before. */
  lemma AddThenGet(bindings: map<string, EditorCommand>, binding: KeyBinding, e: KeyEvent)
    requires KEY_BINDING_DELIMITER !in e.key && KEY_BINDING_DELIMITER !in binding.combo.key
    ensures var after := bindings[ToString(binding.combo) := binding.command];
      && (FromEvent(e) == binding.combo ==> Get(after, ToString(FromEvent(e))) == Some(binding.command))
      && (FromEvent(e) != binding.combo ==> Get(after, ToString(FromEvent(e))) == Get(bindings, ToString(FromEvent(e))))
  {
    ToStringInjective(FromEvent(e), binding.combo);
  }
}

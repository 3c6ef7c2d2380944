/** core/src/utils.ts: tag whitelist and the typeable-key test. */
module Utils {

  /** The fields of a DOM `KeyboardEvent` the editor reads. */
  datatype KeyEvent = KeyEvent(key: string, ctrlKey: bool, metaKey: bool, altKey: bool, shiftKey: bool)

  /** The tags a block node may carry, in the order utils.ts lists them. */
  const BLOCK_NODE_TAGS: seq<string> := ["p", "h1", "h2", "h3"]

  /** `isBlockNodeTag`: membership in the whitelist, that is exactly p, h1, h2 and h3. */
  predicate IsBlockNodeTag(tagName: string): (r: bool)
    ensures r <==> tagName == "p" || tagName == "h1" || tagName == "h2" || tagName == "h3"
  {
    tagName in BLOCK_NODE_TAGS
  }

  /** JavaScript's `length` of a string: a character of the Basic Multilingual Plane is one
      UTF-16 code unit, a character beyond it a surrogate pair of two. */
  function Utf16Length(s: string): (n: nat)
    ensures |s| <= n <= 2 * |s|
    ensures n == |s| <==> forall i :: 0 <= i < |s| ==> s[i] as int < 0x1_0000
  {
    if s == [] then 0
    else (if s[0] as int < 0x1_0000 then 1 else 2) + Utf16Length(s[1..])
  }

  /** `isTypeableCharacter`: a key whose JavaScript length is one, without Ctrl, Meta or Alt. */
  predicate IsTypeableCharacter(e: KeyEvent)
  {
    Utf16Length(e.key) == 1 && !e.ctrlKey && !e.metaKey && !e.altKey
  }

  /** The four arrow key names; `isArrowKey` is imported by the older engine but not defined in utils.ts. */
  predicate IsArrowKey(key: string)
  {
    key == "ArrowLeft" || key == "ArrowRight" || key == "ArrowUp" || key == "ArrowDown"
  }

  /** A key is typeable exactly when it is one character of the Basic Multilingual Plane and
      no command modifier is held: a character beyond that plane is two UTF-16 code units
      long and is not typeable. The shift flag plays no part. */
  lemma TypeableCharacter(e: KeyEvent, shift: bool)
    ensures IsTypeableCharacter(e) <==>
      |e.key| == 1 && e.key[0] as int < 0x1_0000 && !e.ctrlKey && !e.metaKey && !e.altKey
    ensures IsTypeableCharacter(e) <==> IsTypeableCharacter(e.(shiftKey := shift))
  {
    if |e.key| == 1 {
      assert e.key[1..] == [];
    }
  }

  /** An emoji key such as U+1F600 has JavaScript length two and is not typeable. */
  lemma AstralKeyNotTypeable(e: KeyEvent)
    requires e.key == "\U{1F600}"
    ensures Utf16Length(e.key) == 2
    ensures !IsTypeableCharacter(e)
  {
    assert e.key[1..] == [];
  }
}

/** `java.text.StringCharacterIterator` over a whole string, as the signature parsers use it: a forward
    cursor whose `current()` is `DONE` once it has passed the last character. */
module CharacterIterators {

  /** `CharacterIterator.DONE`, the character U+FFFF. */
  const DONE: char := '￿'

  /** `current()` at index `i`. */
  function At(s: string, i: nat): (c: char)
    ensures i >= |s| ==> c == DONE
  {
    if i < |s| then s[i] else DONE
  }

  /** The index after `next()`: one further, but never past the end. */
  function Advance(s: string, i: nat): (j: nat)
    requires i <= |s|
    ensures j <= |s|
    ensures i < |s| ==> j == i + 1
    ensures i == |s| ==> j == i
  {
    if i < |s| then i + 1 else |s|
  }

  class Cursor {
    const text: string
    var pos: nat

    ghost predicate Valid()
      reads this
    {
      pos <= |text|
    }

    /** `StringCharacterIterator(text)`: positioned on the first character. */
    constructor (text: string)
      ensures Valid() && this.text == text && pos == 0
    {
      this.text := text;
      pos := 0;
    }

    function Current(): char
      reads this
    {
      At(text, pos)
    }

    method Next()
      requires Valid()
      modifies this
      ensures Valid() && pos == Advance(text, old(pos))
    {
      if pos < |text| {
        pos := pos + 1;
      }
    }
  }
}

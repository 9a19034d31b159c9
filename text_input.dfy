/** `TextInput` (ui/text_input.py): a one-line editing buffer with a cursor
    that always sits at the end, a character limit and an allowed set. */
module TextInputs {
  import opened Wrappers
  import opened Geometry

  /** The key string pygame reports for Backspace. */
  const Backspace: string := [8 as char]

  /** Python's `key in text` on strings: `key` is a substring of `text`. */
  predicate Occurs(key: string, text: string)
    decreases |text|
  {
    key <= text || (text != [] && Occurs(key, text[1..]))
  }

  /** For a single character, the substring test is plain membership. */
  lemma {:induction false} OccursSingle(c: char, text: string)
    ensures Occurs([c], text) <==> c in text
    decreases |text|
  {
    if text != [] {
      OccursSingle(c, text[1..]);
      assert text == [text[0]] + text[1..];
    }
  }

  /** `del s[i]` with Python's indexing: a negative index counts from the
      end; `None` is the IndexError. */
  function DeleteAt<T>(s: seq<T>, i: int): (r: Option<seq<T>>)
    ensures r.Some? <==> -|s| <= i < |s|
    ensures r.Some? ==> |r.value| == |s| - 1
  {
    var j := if i < 0 then i + |s| else i;
    if 0 <= j < |s| then Some(s[..j] + s[j + 1..]) else None
  }

  /** `s.insert(i, x)`: the index is clamped to the list, a negative one
      counting from the end. */
  function InsertAt<T>(s: seq<T>, i: int, x: T): (r: seq<T>)
    ensures |r| == |s| + 1
  {
    var j := if i < 0 then (if i + |s| < 0 then 0 else i + |s|) else (if i > |s| then |s| else i);
    s[..j] + [x] + s[j..]
  }

  /** Deleting just before a cursor at the end removes the last entry, and
      fails only on an empty value. */
  lemma DeleteAtEnd<T>(s: seq<T>)
    ensures s == [] ==> DeleteAt(s, |s| - 1) == None
    ensures s != [] ==> DeleteAt(s, |s| - 1) == Some(s[..|s| - 1])
  {
    if s != [] {
      assert s[..|s| - 1] + s[|s|..] == s[..|s| - 1];
    }
  }

  /** Inserting at a cursor at the end appends. */
  lemma InsertAtEnd<T>(s: seq<T>, x: T)
    ensures InsertAt(s, |s|, x) == s + [x]
  {
    assert s[|s|..] == [];
  }

  /** `''.join(value)`. */
  function Join(value: seq<string>): string {
    if value == [] then "" else Join(value[..|value| - 1]) + value[|value| - 1]
  }

  /** Joining after an append adds the new entry's text at the end. */
  lemma JoinAppend(value: seq<string>, key: string)
    ensures Join(value + [key]) == Join(value) + key
  {
    assert (value + [key])[..|value|] == value;
  }

  /** When every entry is one character, as typed keys are, the joined text
      is those characters in entry order. */
  lemma {:induction false} JoinSingleCharacters(value: seq<string>)
    requires forall k :: 0 <= k < |value| ==> |value[k]| == 1
    ensures |Join(value)| == |value|
    ensures forall k :: 0 <= k < |value| ==> Join(value)[k] == value[k][0]
  {
    if value != [] {
      var front := value[..|value| - 1];
      assert forall k :: 0 <= k < |front| ==> front[k] == value[k];
      JoinSingleCharacters(front);
    }
  }

  /** Every entry was accepted by the allowed-character test and is not the
      Backspace key. */
  predicate AllAllowed(value: seq<string>, allowed: string) {
    forall k :: 0 <= k < |value| ==> Occurs(value[k], allowed) && value[k] != Backspace
  }

  /** The buffer invariant: the cursor sits at the end of the value, the
      value respects the limit (an empty one always does), and only accepted
      keys are in it. */
  predicate Consistent(value: seq<string>, cursor: int, limit: int, allowed: string) {
    && cursor == |value|
    && (value == [] || |value| <= limit)
    && AllAllowed(value, allowed)
  }

  class TextInput {
    const rect: Rect
    const characterLimit: int
    const allowedCharacters: string
    var isActive: bool
    /** `self.value`: the list of accepted key strings. */
    var value: seq<string>
    var cursorPosition: int

    ghost predicate Valid()
      reads this`value, this`cursorPosition
    {
      Consistent(value, cursorPosition, characterLimit, allowedCharacters)
    }

    /** `__init__`: inactive, empty, cursor at 0. */
    constructor (position: Point, width: int, height: int, characterLimit: int, allowedCharacters: string)
      ensures Valid()
      ensures rect == Rect(position.x, position.y, width, height)
      ensures this.characterLimit == characterLimit && this.allowedCharacters == allowedCharacters
      ensures !isActive && value == [] && cursorPosition == 0
    {
      rect := Rect(position.x, position.y, width, height);
      this.characterLimit := characterLimit;
      this.allowedCharacters := allowedCharacters;
      isActive := false;
      value := [];
      cursorPosition := 0;
    }

    /** `check`: a click inside the rectangle activates the field, a click
        outside deactivates it, and no click leaves it as it was. */
    method Check(mouse: Point, clicked: bool)
      modifies this`isActive
      ensures isActive == (if clicked then CollidePoint(rect, mouse) else old(isActive))
    {
      if CollidePoint(rect, mouse) {
        if clicked {
          isActive := true;
        }
      } else {
        if clicked {
          isActive := false;
        }
      }
    }

    /** `key_press`: ignored while inactive. */
    method KeyPress(key: string)
      modifies this`value, this`cursorPosition
      ensures !isActive ==> value == old(value) && cursorPosition == old(cursorPosition)
      ensures isActive ==> Edited(old(value), old(cursorPosition), key, value, cursorPosition)
      ensures old(Valid()) ==> Valid()
    {
      if !isActive {
        return;
      }
      HandleCharacterInput(key);
    }

    /** What `_handle_character_input` does to `(value, cursor_position)`,
        with Python's list indexing. */
    ghost predicate Edited(v: seq<string>, c: int, key: string, v': seq<string>, c': int) {
      if key == Backspace then
        (match DeleteAt(v, c - 1)
         case None => v' == v && c' == c
         case Some(d) => v' == d && c' == c - 1)
      else if |v| < characterLimit && Occurs(key, allowedCharacters) then
        v' == InsertAt(v, c, key) && c' == c + 1
      else
        v' == v && c' == c
    }

    /** `_handle_character_input`: Backspace deletes; any other key is
        inserted when the value is below the limit and the key is allowed. */
    method HandleCharacterInput(key: string)
      modifies this`value, this`cursorPosition
      ensures Edited(old(value), old(cursorPosition), key, value, cursorPosition)
      ensures old(Valid()) ==> Valid()
      ensures old(Valid()) && key == Backspace ==>
                value == (if old(value) == [] then [] else old(value)[..|old(value)| - 1])
      ensures old(Valid()) && key != Backspace && |old(value)| < characterLimit && Occurs(key, allowedCharacters) ==>
                value == old(value) + [key] && Join(value) == Join(old(value)) + key
    {
      ghost var v, c := value, cursorPosition;
      if key == Backspace {
        DeleteCharacter();
        if Consistent(v, c, characterLimit, allowedCharacters) {
          DeleteAtEnd(v);
        }
      } else if |value| < characterLimit && Occurs(key, allowedCharacters) {
        InsertCharacter(key);
        if Consistent(v, c, characterLimit, allowedCharacters) {
          InsertAtEnd(v, key);
          JoinAppend(v, key);
        }
      }
    }

    /** `_delete_character`: `del value[cursor_position - 1]`, and the cursor
        moves back only when that succeeds. */
    method DeleteCharacter()
      modifies this`value, this`cursorPosition
      ensures DeleteAt(old(value), old(cursorPosition) - 1).None? ==>
                value == old(value) && cursorPosition == old(cursorPosition)
      ensures DeleteAt(old(value), old(cursorPosition) - 1).Some? ==>
                value == DeleteAt(old(value), old(cursorPosition) - 1).value &&
                cursorPosition == old(cursorPosition) - 1
    {
      var d := DeleteAt(value, cursorPosition - 1);
      if d.Some? {
        value := d.value;
        cursorPosition := cursorPosition - 1;
      }
    }

    /** `_insert_character`: `value.insert(cursor_position, key)`, then the
        cursor moves forward. */
    method InsertCharacter(key: string)
      modifies this`value, this`cursorPosition
      ensures value == InsertAt(old(value), old(cursorPosition), key)
      ensures cursorPosition == old(cursorPosition) + 1
    {
      value := InsertAt(value, cursorPosition, key);
      cursorPosition := cursorPosition + 1;
    }

    /** `get_value`. */
    function GetValue(): string
      reads this`value
    {
      Join(value)
    }
  }
}

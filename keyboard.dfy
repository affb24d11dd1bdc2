/** Key input during calibration, as a scripted sequence of events instead
    of a raw terminal. */
module Keyboard {

  /** The escape character that starts the arrow keys' sequences. */
  const EscapeChar: char := '\U{1B}'

  /** A single character read from the keyboard other than the escape
      character, which always comes as part of an `Escape` event. */
  type PlainKey = c: char | c != EscapeChar witness 'a'

  /** What one poll of the keyboard yields.
      `NoKey`: nothing pressed within the poll timeout.
      `Pressed(c)`: a single character other than the escape character.
      `Escape(first, second)`: the escape character together with the two
      characters read right after it (`[` and `A` to `D` for the arrow
      keys). */
  datatype KeyEvent = NoKey | Pressed(c: PlainKey) | Escape(first: char, second: char)

  /** The keyboard: the events not yet read, in order. */
  class KeySource {
    var pending: seq<KeyEvent>

    constructor (script: seq<KeyEvent>)
      ensures pending == script
    {
      pending := script;
    }

    /** One poll: hands out the next scripted event. */
    method Poll() returns (ev: KeyEvent)
      requires pending != []
      modifies this
      ensures ev == old(pending)[0]
      ensures pending == old(pending)[1..]
    {
      ev := pending[0];
      pending := pending[1..];
    }
  }
}

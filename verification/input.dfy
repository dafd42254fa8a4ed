/**
 * The keypad of console_io.go (`CHIP8Input`): a single integer holding the
 * code of the one key currently down, or -255 for none. Polling the window
 * system for that code is outside the model; the value is an input.
 */
module Input {
  import opened Base

  datatype Keypad = Keypad(keys: int)

  const NoKey: int := -255

  /**
   * `is_pressed(key)`: the stored code equals the key. Only a stored code
   * in byte range can match, so the no-key code never reports a key.
   */
  predicate IsPressed(pad: Keypad, key: Byte): (b: bool)
    ensures b ==> 0 <= pad.keys < 0x100
  {
    pad.keys == key
  }

  /** Some key reports pressed exactly when the stored code is a byte value. */
  lemma SomeKeyPressed(pad: Keypad)
    ensures (exists key: Byte :: IsPressed(pad, key)) <==> 0 <= pad.keys < 0x100
  {
    if 0 <= pad.keys < 0x100 {
      var key: Byte := pad.keys;
      assert IsPressed(pad, key);
    }
  }

  /** `init`: no key is down. */
  function Init(): (pad: Keypad)
    ensures forall key: Byte :: !IsPressed(pad, key)
  {
    Keypad(NoKey)
  }

  /** A single stored code means at most one key reports pressed at any time. */
  lemma AtMostOneKey(pad: Keypad, a: Byte, b: Byte)
    requires IsPressed(pad, a) && IsPressed(pad, b)
    ensures a == b
  {
  }
}

/**
 * Translation of the browser's `KeyboardEvent.code` names into X11 keysyms:
 * a fixed table of 88 entries (letters, digits, function keys, modifiers,
 * arrows, punctuation and editing keys); any other name has no keysym.
 * The values are those of the X11 `keysymdef.h` constants.  The table is
 * written in the groups the server lists it in; no name occurs in two groups.
 */
module KeyMap {

  /** An X11 keysym (an `unsigned long` in Xlib). */
  type KeySym = nat

  /** Xlib's `NoSymbol`: the name has no keysym. */
  const NoSymbol: KeySym := 0

  const Letters: map<string, KeySym> := map[
    "KeyA" := 0x0061,  // XK_a
    "KeyB" := 0x0062,  // XK_b
    "KeyC" := 0x0063,  // XK_c
    "KeyD" := 0x0064,  // XK_d
    "KeyE" := 0x0065,  // XK_e
    "KeyF" := 0x0066,  // XK_f
    "KeyG" := 0x0067,  // XK_g
    "KeyH" := 0x0068,  // XK_h
    "KeyI" := 0x0069,  // XK_i
    "KeyJ" := 0x006A,  // XK_j
    "KeyK" := 0x006B,  // XK_k
    "KeyL" := 0x006C,  // XK_l
    "KeyM" := 0x006D,  // XK_m
    "KeyN" := 0x006E,  // XK_n
    "KeyO" := 0x006F,  // XK_o
    "KeyP" := 0x0070,  // XK_p
    "KeyQ" := 0x0071,  // XK_q
    "KeyR" := 0x0072,  // XK_r
    "KeyS" := 0x0073,  // XK_s
    "KeyT" := 0x0074,  // XK_t
    "KeyU" := 0x0075,  // XK_u
    "KeyV" := 0x0076,  // XK_v
    "KeyW" := 0x0077,  // XK_w
    "KeyX" := 0x0078,  // XK_x
    "KeyY" := 0x0079,  // XK_y
    "KeyZ" := 0x007A  // XK_z
  ]

  const DigitKeys: map<string, KeySym> := map[
    "Digit0" := 0x0030,  // XK_0
    "Digit1" := 0x0031,  // XK_1
    "Digit2" := 0x0032,  // XK_2
    "Digit3" := 0x0033,  // XK_3
    "Digit4" := 0x0034,  // XK_4
    "Digit5" := 0x0035,  // XK_5
    "Digit6" := 0x0036,  // XK_6
    "Digit7" := 0x0037,  // XK_7
    "Digit8" := 0x0038,  // XK_8
    "Digit9" := 0x0039  // XK_9
  ]

  const FunctionKeys: map<string, KeySym> := map[
    "F1" := 0xFFBE,  // XK_F1
    "F2" := 0xFFBF,  // XK_F2
    "F3" := 0xFFC0,  // XK_F3
    "F4" := 0xFFC1,  // XK_F4
    "F5" := 0xFFC2,  // XK_F5
    "F6" := 0xFFC3,  // XK_F6
    "F7" := 0xFFC4,  // XK_F7
    "F8" := 0xFFC5,  // XK_F8
    "F9" := 0xFFC6,  // XK_F9
    "F10" := 0xFFC7,  // XK_F10
    "F11" := 0xFFC8,  // XK_F11
    "F12" := 0xFFC9  // XK_F12
  ]

  const ControlKeys: map<string, KeySym> := map[
    "Enter" := 0xFF0D,  // XK_Return
    "Space" := 0x0020,  // XK_space
    "Backspace" := 0xFF08,  // XK_BackSpace
    "Tab" := 0xFF09,  // XK_Tab
    "Escape" := 0xFF1B,  // XK_Escape
    "CapsLock" := 0xFFE5,  // XK_Caps_Lock
    "ShiftLeft" := 0xFFE1,  // XK_Shift_L
    "ShiftRight" := 0xFFE2,  // XK_Shift_R
    "ControlLeft" := 0xFFE3,  // XK_Control_L
    "ControlRight" := 0xFFE4,  // XK_Control_R
    "AltLeft" := 0xFFE9,  // XK_Alt_L
    "AltRight" := 0xFFEA,  // XK_Alt_R
    "MetaLeft" := 0xFFEB,  // XK_Super_L
    "MetaRight" := 0xFFEC  // XK_Super_R
  ]

  const ArrowKeys: map<string, KeySym> := map[
    "ArrowLeft" := 0xFF51,  // XK_Left
    "ArrowUp" := 0xFF52,  // XK_Up
    "ArrowRight" := 0xFF53,  // XK_Right
    "ArrowDown" := 0xFF54  // XK_Down
  ]

  const Punctuation: map<string, KeySym> := map[
    "Minus" := 0x002D,  // XK_minus
    "Equal" := 0x003D,  // XK_equal
    "BracketLeft" := 0x005B,  // XK_bracketleft
    "BracketRight" := 0x005D,  // XK_bracketright
    "Backslash" := 0x005C,  // XK_backslash
    "Semicolon" := 0x003B,  // XK_semicolon
    "Quote" := 0x0027,  // XK_apostrophe
    "Backquote" := 0x0060,  // XK_grave
    "Comma" := 0x002C,  // XK_comma
    "Period" := 0x002E,  // XK_period
    "Slash" := 0x002F,  // XK_slash
    "IntlBackslash" := 0x003C  // XK_less
  ]

  const OtherKeys: map<string, KeySym> := map[
    "Insert" := 0xFF63,  // XK_Insert
    "Delete" := 0xFFFF,  // XK_Delete
    "Home" := 0xFF50,  // XK_Home
    "End" := 0xFF57,  // XK_End
    "PageUp" := 0xFF55,  // XK_Page_Up
    "PageDown" := 0xFF56,  // XK_Page_Down
    "NumLock" := 0xFF7F,  // XK_Num_Lock
    "ScrollLock" := 0xFF14,  // XK_Scroll_Lock
    "Pause" := 0xFF13,  // XK_Pause
    "PrintScreen" := 0xFF61  // XK_Print
  ]

  /** The whole lookup table of `translate_js_code_to_keysym`. */
  const KeyTable: map<string, KeySym> :=
    Letters + DigitKeys + FunctionKeys + ControlKeys + ArrowKeys + Punctuation + OtherKeys

  /** Every name in `m` stands for an actual keysym. */
  ghost predicate AllMapped(m: map<string, KeySym>) {
    forall code :: code in m ==> m[code] != NoSymbol
  }

  lemma {:induction false} UnionAllMapped(a: map<string, KeySym>, b: map<string, KeySym>)
    requires AllMapped(a) && AllMapped(b)
    ensures AllMapped(a + b)
  {
    forall code | code in a + b
      ensures (a + b)[code] != NoSymbol
    {
      if code in b {
        assert (a + b)[code] == b[code];
      } else {
        assert (a + b)[code] == a[code];
      }
    }
  }

  lemma LettersMapped() ensures AllMapped(Letters) {}
  lemma DigitKeysMapped() ensures AllMapped(DigitKeys) {}
  lemma FunctionKeysMapped() ensures AllMapped(FunctionKeys) {}
  lemma ControlKeysMapped() ensures AllMapped(ControlKeys) {}
  lemma ArrowKeysMapped() ensures AllMapped(ArrowKeys) {}
  lemma PunctuationMapped() ensures AllMapped(Punctuation) {}
  lemma OtherKeysMapped() ensures AllMapped(OtherKeys) {}

  /** No entry of the table maps to `NoSymbol`, so "has a keysym" and "is in the table" coincide. */
  lemma TableHasNoNoSymbol()
    ensures AllMapped(KeyTable)
  {
    LettersMapped();
    DigitKeysMapped();
    UnionAllMapped(Letters, DigitKeys);
    FunctionKeysMapped();
    UnionAllMapped(Letters + DigitKeys, FunctionKeys);
    ControlKeysMapped();
    UnionAllMapped(Letters + DigitKeys + FunctionKeys, ControlKeys);
    ArrowKeysMapped();
    UnionAllMapped(Letters + DigitKeys + FunctionKeys + ControlKeys, ArrowKeys);
    PunctuationMapped();
    UnionAllMapped(Letters + DigitKeys + FunctionKeys + ControlKeys + ArrowKeys, Punctuation);
    OtherKeysMapped();
    UnionAllMapped(Letters + DigitKeys + FunctionKeys + ControlKeys + ArrowKeys + Punctuation, OtherKeys);
  }

  /**
   * `translate_js_code_to_keysym`: the table's keysym for a name, and
   * `NoSymbol` exactly for the names the table does not hold.
   */
  function Translate(code: string): (k: KeySym)
    ensures k != NoSymbol <==> code in KeyTable
    ensures code in KeyTable ==> k == KeyTable[code]
  {
    TableHasNoNoSymbol();
    if code in KeyTable then KeyTable[code] else NoSymbol
  }
}

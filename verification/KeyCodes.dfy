/** The keys of the keyboard by name, and what each of them types. */
module KeyCodes {
  import opened Basics
  import opened Keyboard

  const KEY_A: byte := 0x1E
  const KEY_B: byte := 0x30
  const KEY_D: byte := 0x20
  const KEY_E: byte := 0x12
  const KEY_F: byte := 0x21
  const KEY_G: byte := 0x22
  const KEY_H: byte := 0x23
  const KEY_I: byte := 0x17
  const KEY_J: byte := 0x24
  const KEY_K: byte := 0x25
  const KEY_L: byte := 0x26
  const KEY_M: byte := 0x32
  const KEY_N: byte := 0x31
  const KEY_O: byte := 0x18
  const KEY_P: byte := 0x19
  const KEY_Q: byte := 0x10
  const KEY_R: byte := 0x13
  const KEY_S: byte := 0x1F
  const KEY_T: byte := 0x14
  const KEY_U: byte := 0x16
  const KEY_V: byte := 0x2F
  const KEY_W: byte := 0x11
  const KEY_X: byte := 0x2D
  const KEY_Y: byte := 0x15
  const KEY_Z: byte := 0x2C
  const KEY_1: byte := 0x02
  const KEY_2: byte := 0x03
  const KEY_3: byte := 0x04
  const KEY_4: byte := 0x05
  const KEY_5: byte := 0x06
  const KEY_6: byte := 0x07
  const KEY_7: byte := 0x08
  const KEY_8: byte := 0x09
  const KEY_9: byte := 0x0A
  const KEY_0: byte := 0x0B
  const KEY_MINUS: byte := 0x0C
  const KEY_EQUAL: byte := 0x0D
  const KEY_BACKSPACE: byte := 0x0E
  const KEY_TAB: byte := 0x0F
  const KEY_SQUARE_OPEN_BRACKET: byte := 0x1A
  const KEY_SQUARE_CLOSE_BRACKET: byte := 0x1B
  const KEY_ENTER: byte := 0x1C
  const KEY_SEMICOLON: byte := 0x27
  const KEY_APOSTROPHE: byte := 0x28
  const KEY_GRAVE: byte := 0x29
  const KEY_BACKSLASH: byte := 0x2B
  const KEY_COMMA: byte := 0x33
  const KEY_DOT: byte := 0x34
  const KEY_SLASH: byte := 0x35

  /** What a key types without and with Shift. */
  datatype Cap = Cap(plain: char, shifted: char)

  const LETTERS: map<byte, Cap> := map[
    KEY_A := Cap('a', 'A'), KEY_B := Cap('b', 'B'), KEY_C := Cap('c', 'C'), KEY_D := Cap('d', 'D'),
    KEY_E := Cap('e', 'E'), KEY_F := Cap('f', 'F'), KEY_G := Cap('g', 'G'), KEY_H := Cap('h', 'H'),
    KEY_I := Cap('i', 'I'), KEY_J := Cap('j', 'J'), KEY_K := Cap('k', 'K'), KEY_L := Cap('l', 'L'),
    KEY_M := Cap('m', 'M'), KEY_N := Cap('n', 'N'), KEY_O := Cap('o', 'O'), KEY_P := Cap('p', 'P'),
    KEY_Q := Cap('q', 'Q'), KEY_R := Cap('r', 'R'), KEY_S := Cap('s', 'S'), KEY_T := Cap('t', 'T'),
    KEY_U := Cap('u', 'U'), KEY_V := Cap('v', 'V'), KEY_W := Cap('w', 'W'), KEY_X := Cap('x', 'X'),
    KEY_Y := Cap('y', 'Y'), KEY_Z := Cap('z', 'Z')]

  const DIGITS: map<byte, Cap> := map[
    KEY_1 := Cap('1', '!'), KEY_2 := Cap('2', '@'), KEY_3 := Cap('3', '#'), KEY_4 := Cap('4', '$'),
    KEY_5 := Cap('5', '%'), KEY_6 := Cap('6', '^'), KEY_7 := Cap('7', '&'), KEY_8 := Cap('8', '*'),
    KEY_9 := Cap('9', '('), KEY_0 := Cap('0', ')')]

  const PUNCTUATION: map<byte, Cap> := map[
    KEY_MINUS := Cap('-', '_'), KEY_EQUAL := Cap('=', '+'), KEY_SQUARE_OPEN_BRACKET := Cap('[', '{'),
    KEY_SQUARE_CLOSE_BRACKET := Cap(']', '}'), KEY_SEMICOLON := Cap(';', ':'), KEY_APOSTROPHE := Cap('\'', '"'),
    KEY_GRAVE := Cap('`', '~'), KEY_BACKSLASH := Cap('\\', '|'), KEY_COMMA := Cap(',', '<'),
    KEY_DOT := Cap('.', '>'), KEY_SLASH := Cap('/', '?')]

  /** Keys that type the same with and without Shift; a space is kept as code 1. */
  const FIXED: map<byte, byte> := map[KEY_SPACE := 1, KEY_ENTER := 10, KEY_TAB := 9, KEY_BACKSPACE := 8]

  lemma LettersInRows(key: byte)
    requires key in LETTERS
    ensures 0x10 <= key <= 0x19 || 0x1E <= key <= 0x26 || 0x2C <= key <= 0x32
  {}

  lemma TopLetters(key: byte)
    requires 0x10 <= key <= 0x19
    ensures key in LETTERS && Plain(key) == LETTERS[key].plain as int && IsLower(Plain(key))
  {}

  lemma HomeLetters(key: byte)
    requires 0x1E <= key <= 0x26
    ensures key in LETTERS && Plain(key) == LETTERS[key].plain as int && IsLower(Plain(key))
  {}

  lemma BottomLetters(key: byte)
    requires 0x2C <= key <= 0x32
    ensures key in LETTERS && Plain(key) == LETTERS[key].plain as int && IsLower(Plain(key))
  {}

  lemma LettersPlain(key: byte)
    requires key in LETTERS
    ensures Plain(key) == LETTERS[key].plain as int && IsLower(Plain(key))
  {
    hide Plain, LETTERS;
    LettersInRows(key);
    if key <= 0x19 {
      TopLetters(key);
    } else if key <= 0x26 {
      HomeLetters(key);
    } else {
      BottomLetters(key);
    }
  }

  lemma LettersShifted(key: byte)
    requires key in LETTERS
    ensures LETTERS[key].shifted as int == LETTERS[key].plain as int - 32 && !IsModifier(key)
  {}

  lemma LettersAre(key: byte)
    requires key in LETTERS
    ensures var c := LETTERS[key];
      Plain(key) == c.plain as int && Shifted(key) == c.shifted as int && IsAlpha(key) && !IsModifier(key)
  {
    hide Plain, Shifted, IsAlpha, LETTERS;
    LettersPlain(key);
    LettersShifted(key);
    TablesAgree(key);
  }

  lemma DigitsAre(key: byte)
    requires key in DIGITS
    ensures var c := DIGITS[key];
      && Plain(key) == c.plain as int && Shifted(key) == c.shifted as int && c.plain != c.shifted
      && !IsAlpha(key) && !IsModifier(key)
  {}

  lemma PunctuationIs(key: byte)
    requires key in PUNCTUATION
    ensures var c := PUNCTUATION[key];
      && Plain(key) == c.plain as int && Shifted(key) == c.shifted as int && c.plain != c.shifted
      && !IsAlpha(key) && !IsModifier(key)
  {}

  lemma FixedAre(key: byte)
    requires key in FIXED
    ensures Plain(key) == FIXED[key] as int == Shifted(key) && !IsAlpha(key) && !IsModifier(key)
  {}

  lemma OthersAre(key: byte)
    requires key !in LETTERS && key !in DIGITS && key !in PUNCTUATION && key !in FIXED
    ensures Plain(key) == 0 && !IsAlpha(key)
  {}

  // ---------------------------------------------------------------------
  // What one more scan code types after any history of scan codes
  // ---------------------------------------------------------------------

  /** Letters: Shift and Caps Lock undo each other, and with Ctrl the letter C is code 3. */
  lemma LetterTypes(codes: seq<byte>, key: byte)
    requires key in LETTERS
    ensures var shift, caps, ctrl := LastIsPress(codes, {KEY_LSHIFT, KEY_RSHIFT}),
                                     Presses(codes, KEY_CAPSLOCK) % 2 == 1, LastIsPress(codes, {KEY_LCONTROL});
      Typed(NO_MODS, codes + [key]) == Typed(NO_MODS, codes) +
        [if ctrl && key == 0x2E then 3 else if shift != caps then LETTERS[key].shifted as int
         else LETTERS[key].plain as int]
  {
    hide Plain, Shifted, IsAlpha, LastIsPress, Presses;
    LettersAre(key);
    TablesAgree(key);
    TypedAppend(codes, key);
    ModsAreHistory(codes);
  }

  /** Digits and punctuation: only Shift has a say, and it makes a difference on each of these keys. */
  lemma SymbolTypes(codes: seq<byte>, key: byte)
    requires key in DIGITS || key in PUNCTUATION
    ensures var shift, c := LastIsPress(codes, {KEY_LSHIFT, KEY_RSHIFT}),
                            if key in DIGITS then DIGITS[key] else PUNCTUATION[key];
      && c.plain != c.shifted
      && Typed(NO_MODS, codes + [key]) == Typed(NO_MODS, codes) + [(if shift then c.shifted else c.plain) as int]
  {
    hide Plain, Shifted, IsAlpha, LastIsPress, Presses;
    if key in DIGITS { DigitsAre(key); } else { PunctuationIs(key); }
    TablesAgree(key);
    TypedAppend(codes, key);
    ModsAreHistory(codes);
  }

  lemma FixedTypes(codes: seq<byte>, key: byte)
    requires key in FIXED
    ensures Typed(NO_MODS, codes + [key]) == Typed(NO_MODS, codes) + [FIXED[key]]
  {
    hide Plain, Shifted, IsAlpha, LastIsPress, Presses;
    FixedAre(key);
    TypedAppend(codes, key);
    ModsAreHistory(codes);
  }

  /** Releases, the modifiers and all keys that are in no list type nothing. */
  lemma OthersTypeNothing(codes: seq<byte>, code: byte)
    requires code >= 0x80 || (code !in LETTERS && code !in DIGITS && code !in PUNCTUATION && code !in FIXED)
    ensures Typed(NO_MODS, codes + [code]) == Typed(NO_MODS, codes)
  {
    hide Plain, Shifted, IsAlpha, LastIsPress, Presses;
    TypedAppend(codes, code);
    if code < 0x80 {
      OthersAre(code);
      AsciiRange(ModsAfter(codes), code);
    }
  }
}

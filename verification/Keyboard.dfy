/** The keyboard: scan codes are decoded under Shift, Caps Lock and Ctrl, and the characters wait
    in a circular buffer until they are read. */
module Keyboard {
  import opened Basics

  const BUF_SIZE := 256
  /** One cell stays free, so that a full buffer differs from an empty one. */
  const ROOM := BUF_SIZE - 1
  /** What reading an empty buffer gives. */
  const EMPTY := -1

  const KEY_C: byte := 0x2E
  const KEY_LCONTROL: byte := 0x1D
  const KEY_LSHIFT: byte := 0x2A
  const KEY_RSHIFT: byte := 0x36
  const KEY_CAPSLOCK: byte := 0x3A
  const KEY_SPACE: byte := 0x39
  /** Prefix the controller sends before the codes of the keys added by the 101-key layout. */
  const EXTENDED: byte := 0xE0

  const BREAK_BIT := 0x80
  const CTRL_C: byte := 3
  const INTERNAL_SPACE: byte := 1
  const BACKSPACE: byte := 8
  const TAB: byte := 9
  const NEWLINE: byte := 10

  // ---------------------------------------------------------------------
  // Decoding
  // ---------------------------------------------------------------------

  /** The character of key in a row of consecutive keys starting at first. */
  function InRow(row: string, first: byte, key: byte): (c: int)
    requires first <= key < first + |row|
  {
    row[key - first] as int
  }

  function Plain(key: byte): int {
    if 0x02 <= key <= 0x0D then InRow("1234567890-=", 0x02, key)
    else if key == 0x0E then BACKSPACE
    else if key == 0x0F then TAB
    else if 0x10 <= key <= 0x1B then InRow("qwertyuiop[]", 0x10, key)
    else if key == 0x1C then NEWLINE
    else if 0x1E <= key <= 0x29 then InRow("asdfghjkl;'`", 0x1E, key)
    else if 0x2B <= key <= 0x35 then InRow("\\zxcvbnm,./", 0x2B, key)
    else if key == KEY_SPACE then INTERNAL_SPACE
    else 0
  }

  function Shifted(key: byte): int {
    if 0x02 <= key <= 0x0D then InRow("!@#$%^&*()_+", 0x02, key)
    else if key == 0x0E then BACKSPACE
    else if key == 0x0F then TAB
    else if 0x10 <= key <= 0x1B then InRow("QWERTYUIOP{}", 0x10, key)
    else if key == 0x1C then NEWLINE
    else if 0x1E <= key <= 0x29 then InRow("ASDFGHJKL:\"~", 0x1E, key)
    else if 0x2B <= key <= 0x35 then InRow("|ZXCVBNM<>?", 0x2B, key)
    else if key == KEY_SPACE then INTERNAL_SPACE
    else 0
  }

  function ToUpper(c: int): int {
    if 'a' as int <= c <= 'z' as int then c - 32 else c
  }

  predicate IsAlpha(key: byte) {
    0x10 <= key <= 0x19 || 0x1E <= key <= 0x26 || 0x2C <= key <= 0x32
  }

  datatype Mods = Mods(shift: bool, caps: bool, ctrl: bool)

  const NO_MODS := Mods(false, false, false)

  /** The character of a key: Shift chooses between the two tables, and Caps Lock inverts the choice for
      letters. */
  function Ascii(m: Mods, key: byte): int {
    if m.shift != (m.caps && IsAlpha(key)) then Shifted(key) else Plain(key)
  }

  predicate IsUpper(c: int) { 'A' as int <= c <= 'Z' as int }

  predicate IsLower(c: int) { 'a' as int <= c <= 'z' as int }

  predicate Released(code: byte) { code >= BREAK_BIT }

  function Key(code: byte): byte { code % BREAK_BIT }

  /** The modifiers after a scan code. */
  function NextMods(m: Mods, code: byte): Mods {
    if Key(code) == KEY_LCONTROL then m.(ctrl := !Released(code))
    else if Key(code) == KEY_LSHIFT || Key(code) == KEY_RSHIFT then m.(shift := !Released(code))
    else if code == KEY_CAPSLOCK then m.(caps := !m.caps)
    else m
  }

  predicate IsModifier(key: byte) {
    key == KEY_LCONTROL || key == KEY_LSHIFT || key == KEY_RSHIFT || key == KEY_CAPSLOCK
  }

  /** The characters, at most one, that a scan code produces. */
  function Decode(m: Mods, code: byte): (s: seq<byte>)
    ensures |s| <= 1
    ensures forall c :: c in s ==> 0 < c < 127
  {
    if Released(code) || IsModifier(code) then []
    else if m.ctrl && code == KEY_C then [CTRL_C]
    else if Ascii(m, code) == 0 then []
    else AsciiRange(m, code); [Ascii(m, code)]
  }

  lemma AsciiRange(m: Mods, key: byte)
    ensures 0 <= Ascii(m, key) < 127
    ensures Ascii(m, key) == 0 <==> Plain(key) == 0
  {
    hide Plain, Shifted;
    TablesAgree(key);
  }

  /** Letters are in upper case if and only if just one of Shift and Caps Lock is on, and it is the same
      letter in either case; on other keys Shift alone chooses the table, and they type no letters. */
  lemma AsciiMeans(m: Mods, key: byte)
    ensures var c := Ascii(m, key);
      && (IsAlpha(key) <==> IsUpper(c) || IsLower(c))
      && (IsAlpha(key) ==> (IsUpper(c) <==> m.shift != m.caps) && ToUpper(c) == ToUpper(Plain(key)))
      && (!IsAlpha(key) ==> c == (if m.shift then Shifted(key) else Plain(key)) && !IsUpper(c) && !IsLower(c))
  {
    hide Plain, Shifted;
    TablesAgree(key);
  }

  /** How the two tables go together at a key. */
  predicate Agree(key: byte) {
    && 0 <= Plain(key) < 127 && 0 <= Shifted(key) < 127
    && (Plain(key) == 0 <==> Shifted(key) == 0)
    && (IsAlpha(key) <==> IsLower(Plain(key)))
    && (IsAlpha(key) ==> Shifted(key) == ToUpper(Plain(key)) != Plain(key))
    && (!IsAlpha(key) ==> !IsUpper(Plain(key)) && !IsLower(Shifted(key)) && !IsUpper(Shifted(key)))
  }

  lemma NumberRow(key: byte)
    requires 0x02 <= key <= 0x0D
    ensures Agree(key)
  {
  }

  lemma TopRow(key: byte)
    requires 0x10 <= key <= 0x1B
    ensures Agree(key)
  {
  }

  lemma HomeRow(key: byte)
    requires 0x1E <= key <= 0x29
    ensures Agree(key)
  {
  }

  lemma BottomRow(key: byte)
    requires 0x2B <= key <= 0x35
    ensures Agree(key)
  {
  }

  /** The two tables name the same keys, with codes below 127; the keys of letters are exactly those
      with a letter in the table, where the tables differ by case. */
  lemma TablesAgree(key: byte)
    ensures Agree(key)
  {
    if 0x02 <= key <= 0x0D {
      NumberRow(key);
    } else if 0x10 <= key <= 0x1B {
      TopRow(key);
    } else if 0x1E <= key <= 0x29 {
      HomeRow(key);
    } else if 0x2B <= key <= 0x35 {
      BottomRow(key);
    }
  }

  /** Characters a sequence of scan codes types. */
  function Typed(m: Mods, codes: seq<byte>): seq<byte>
    decreases |codes|
  {
    if codes == [] then [] else Decode(m, codes[0]) + Typed(NextMods(m, codes[0]), codes[1..])
  }

  // ---------------------------------------------------------------------
  // What the modifiers are after a history of scan codes
  // ---------------------------------------------------------------------

  function ModsAfter(codes: seq<byte>): Mods {
    if codes == [] then NO_MODS
    else NextMods(ModsAfter(codes[..|codes| - 1]), codes[|codes| - 1])
  }

  /** The last event of one of the keys is a press. */
  ghost predicate LastIsPress(codes: seq<byte>, keys: set<byte>) {
    exists i :: 0 <= i < |codes| && codes[i] in keys
      && forall j :: i < j < |codes| ==> Key(codes[j]) !in keys
  }

  function Presses(codes: seq<byte>, key: byte): nat {
    if codes == [] then 0
    else Presses(codes[..|codes| - 1], key) + if codes[|codes| - 1] == key then 1 else 0
  }

  lemma LastIsPressStep(codes: seq<byte>, code: byte, keys: set<byte>)
    requires forall k :: k in keys ==> k < BREAK_BIT
    ensures LastIsPress(codes + [code], keys)
      <==> if Key(code) in keys then !Released(code) else LastIsPress(codes, keys)
  {
    var all := codes + [code];
    if Key(code) in keys {
      assert Key(all[|codes|]) in keys;
      assert Released(code) <==> all[|codes|] !in keys;
    } else {
      if LastIsPress(codes, keys) {
        var i :| 0 <= i < |codes| && codes[i] in keys
          && forall j :: i < j < |codes| ==> Key(codes[j]) !in keys;
        assert all[i] in keys;
      }
      if LastIsPress(all, keys) {
        var i :| 0 <= i < |all| && all[i] in keys
          && forall j :: i < j < |all| ==> Key(all[j]) !in keys;
        assert codes[i] in keys;
        forall j | i < j < |codes| ensures Key(codes[j]) !in keys { assert all[j] == codes[j]; }
      }
    }
  }

  lemma NothingPressed(keys: set<byte>)
    ensures !LastIsPress([], keys)
  {}

  lemma NextModsIs(m: Mods, code: byte)
    ensures NextMods(m, code) ==
      Mods(if Key(code) in {KEY_LSHIFT, KEY_RSHIFT} then !Released(code) else m.shift,
           if code == KEY_CAPSLOCK then !m.caps else m.caps,
           if Key(code) in {KEY_LCONTROL} then !Released(code) else m.ctrl)
  {}

  /** Shift and Ctrl are down if and only if the last event of their keys is a press (so letting go
      of either Shift key ends the shift); Caps Lock is the parity of its presses. */
  lemma {:induction false} ModsAreHistory(codes: seq<byte>)
    ensures ModsAfter(codes) == Mods(LastIsPress(codes, {KEY_LSHIFT, KEY_RSHIFT}),
                                     Presses(codes, KEY_CAPSLOCK) % 2 == 1,
                                     LastIsPress(codes, {KEY_LCONTROL}))
    decreases |codes|
  {
    hide NextMods, Key, LastIsPress;
    if codes == [] {
      NothingPressed({KEY_LSHIFT, KEY_RSHIFT});
      NothingPressed({KEY_LCONTROL});
    } else {
      var before, code := codes[..|codes| - 1], codes[|codes| - 1];
      ModsAreHistory(before);
      NextModsIs(ModsAfter(before), code);
      assert codes == before + [code];
      LastIsPressStep(before, code, {KEY_LSHIFT, KEY_RSHIFT});
      LastIsPressStep(before, code, {KEY_LCONTROL});
    }
  }

  // The code keeps one flag for two keys. It differs from "one of them is held" in one case.

  /** A press or a release of the left or the right one of two keys. */
  datatype Edge = Edge(right: bool, down: bool)

  /** The flag: what the last event says. */
  predicate LastDown(es: seq<Edge>) { es != [] && es[|es| - 1].down }

  /** The key is held: its own last event is a press. */
  predicate Held(es: seq<Edge>, right: bool) {
    es != [] && var e := es[|es| - 1]; if e.right == right then e.down else Held(es[..|es| - 1], right)
  }

  /** The last event is a release while the other key is held. */
  predicate ReleasedUnderOther(es: seq<Edge>) {
    es != [] && var e := es[|es| - 1]; !e.down && Held(es[..|es| - 1], !e.right)
  }

  /** One flag says whether either key is held if and only if the last event is not a release under the
      other key. */
  lemma {:induction false} OneFlag(es: seq<Edge>)
    ensures LastDown(es) == (Held(es, false) || Held(es, true)) <==> !ReleasedUnderOther(es)
  {}

  /** The event of a Shift key, if any, that a code reports. */
  function ShiftEdge(code: byte): (es: seq<Edge>)
    ensures |es| <= 1
  {
    if Key(code) == KEY_LSHIFT then [Edge(false, !Released(code))]
    else if Key(code) == KEY_RSHIFT then [Edge(true, !Released(code))]
    else []
  }

  /** The event of a Ctrl key; the right one sends the code of the left one behind a prefix. */
  function CtrlEdge(prefix: bool, code: byte): (es: seq<Edge>)
    ensures |es| <= 1
  {
    if Key(code) == KEY_LCONTROL then [Edge(prefix, !Released(code))] else []
  }

  function ShiftEdges(codes: seq<byte>): seq<Edge> {
    if codes == [] then [] else ShiftEdges(codes[..|codes| - 1]) + ShiftEdge(codes[|codes| - 1])
  }

  predicate EndsInPrefix(codes: seq<byte>) { codes != [] && codes[|codes| - 1] == EXTENDED }

  function CtrlEdges(codes: seq<byte>): seq<Edge> {
    if codes == [] then []
    else
      var before := codes[..|codes| - 1];
      CtrlEdges(before) + CtrlEdge(EndsInPrefix(before), codes[|codes| - 1])
  }

  lemma EdgesSetFlags(m: Mods, prefix: bool, code: byte)
    ensures NextMods(m, code).shift == if ShiftEdge(code) == [] then m.shift else ShiftEdge(code)[0].down
    ensures NextMods(m, code).ctrl == if CtrlEdge(prefix, code) == [] then m.ctrl else CtrlEdge(prefix, code)[0].down
  {}

  lemma NothingDown()
    ensures !LastDown([])
  {}

  lemma LastOf(es: seq<Edge>, e: seq<Edge>)
    requires |e| <= 1
    ensures LastDown(es + e) == if e == [] then LastDown(es) else e[0].down
  {
    if e == [] { assert es + e == es; }
  }

  lemma {:induction false} FlagsAreLast(codes: seq<byte>)
    ensures ModsAfter(codes).shift == LastDown(ShiftEdges(codes))
    ensures ModsAfter(codes).ctrl == LastDown(CtrlEdges(codes))
    decreases |codes|
  {
    hide NextMods, ShiftEdge, CtrlEdge, Key, EndsInPrefix, LastDown;
    if codes == [] {
      NothingDown();
    } else {
      var before, code := codes[..|codes| - 1], codes[|codes| - 1];
      FlagsAreLast(before);
      EdgesSetFlags(ModsAfter(before), EndsInPrefix(before), code);
      LastOf(ShiftEdges(before), ShiftEdge(code));
      LastOf(CtrlEdges(before), CtrlEdge(EndsInPrefix(before), code));
    }
  }

  /** Shift, and likewise Ctrl, is on exactly while a Shift key is held, unless one of the two keys has been
      released under the other since: the flag then says no. */
  lemma {:induction false} FlagsExactly(codes: seq<byte>)
    ensures var es := ShiftEdges(codes);
      ModsAfter(codes).shift == (Held(es, false) || Held(es, true)) <==> !ReleasedUnderOther(es)
    ensures var es := CtrlEdges(codes);
      ModsAfter(codes).ctrl == (Held(es, false) || Held(es, true)) <==> !ReleasedUnderOther(es)
  {
    FlagsAreLast(codes);
    OneFlag(ShiftEdges(codes));
    OneFlag(CtrlEdges(codes));
  }

  /** Left down, right down, right up: the left key is held, and the last event is a release. */
  const FORGOTTEN := [Edge(false, true)] + [Edge(true, true)] + [Edge(true, false)]

  lemma HeldStill()
    ensures Held(FORGOTTEN, false) && !LastDown(FORGOTTEN)
  {
    var two := [Edge(false, true)] + [Edge(true, true)];
    assert FORGOTTEN[..2] == two && two[..1] == [Edge(false, true)];
  }

  lemma EdgesAfter(codes: seq<byte>, code: byte)
    ensures ShiftEdges(codes + [code]) == ShiftEdges(codes) + ShiftEdge(code)
    ensures CtrlEdges(codes + [code]) == CtrlEdges(codes) + CtrlEdge(EndsInPrefix(codes), code)
  {
    hide ShiftEdge, CtrlEdge, EndsInPrefix;
    assert (codes + [code])[..|codes|] == codes;
  }

  /** Such runs of codes, for Shift and for Ctrl: a key is held and the flag is off. */
  lemma HeldForgotten()
    ensures var codes := [KEY_LSHIFT] + [KEY_RSHIFT] + [KEY_RSHIFT + BREAK_BIT];
      Held(ShiftEdges(codes), false) && !ModsAfter(codes).shift
    ensures var codes := [KEY_LCONTROL] + [EXTENDED] + [KEY_LCONTROL] + [EXTENDED] + [KEY_LCONTROL + BREAK_BIT];
      Held(CtrlEdges(codes), false) && !ModsAfter(codes).ctrl
  {
    HeldStill();
    assert ShiftEdges([KEY_LSHIFT]) == [Edge(false, true)] == CtrlEdges([KEY_LCONTROL]);
    ShiftForgotten();
    CtrlForgotten();
  }

  lemma ShiftForgotten()
    requires ShiftEdges([KEY_LSHIFT]) == [Edge(false, true)]
    ensures var codes := [KEY_LSHIFT] + [KEY_RSHIFT] + [KEY_RSHIFT + BREAK_BIT];
      ShiftEdges(codes) == FORGOTTEN && ModsAfter(codes).shift == LastDown(FORGOTTEN)
  {
    hide ShiftEdges, CtrlEdges, ModsAfter;
    EdgesAfter([KEY_LSHIFT], KEY_RSHIFT);
    EdgesAfter([KEY_LSHIFT] + [KEY_RSHIFT], KEY_RSHIFT + BREAK_BIT);
    FlagsAreLast([KEY_LSHIFT] + [KEY_RSHIFT] + [KEY_RSHIFT + BREAK_BIT]);
  }

  lemma CtrlForgotten()
    requires CtrlEdges([KEY_LCONTROL]) == [Edge(false, true)]
    ensures var codes := [KEY_LCONTROL] + [EXTENDED] + [KEY_LCONTROL] + [EXTENDED] + [KEY_LCONTROL + BREAK_BIT];
      CtrlEdges(codes) == FORGOTTEN && ModsAfter(codes).ctrl == LastDown(FORGOTTEN)
  {
    hide ShiftEdges, CtrlEdges, ModsAfter;
    var c := [KEY_LCONTROL];
    EdgesAfter(c, EXTENDED);
    EdgesAfter(c + [EXTENDED], KEY_LCONTROL);
    EdgesAfter(c + [EXTENDED] + [KEY_LCONTROL], EXTENDED);
    EdgesAfter(c + [EXTENDED] + [KEY_LCONTROL] + [EXTENDED], KEY_LCONTROL + BREAK_BIT);
    FlagsAreLast(c + [EXTENDED] + [KEY_LCONTROL] + [EXTENDED] + [KEY_LCONTROL + BREAK_BIT]);
  }

  /** Typing in two goes. */
  lemma {:induction false} TypedAppend(a: seq<byte>, code: byte)
    ensures Typed(NO_MODS, a + [code]) == Typed(NO_MODS, a) + Decode(ModsAfter(a), code)
  {
    TypedFrom([], a, code);
    assert [] + a == a;
  }

  lemma {:induction false} TypedFrom(done: seq<byte>, a: seq<byte>, code: byte)
    ensures Typed(ModsAfter(done), a + [code])
         == Typed(ModsAfter(done), a) + Decode(ModsAfter(done + a), code)
    decreases |a|
  {
    hide Decode, NextMods, Ascii, Plain, Shifted;
    if a == [] {
      assert done + a == done && (a + [code])[1..] == [];
    } else {
      TypedFrom(done + [a[0]], a[1..], code);
      assert (done + [a[0]])[..|done|] == done;
      assert done + [a[0]] + a[1..] == done + a;
      assert (a + [code])[1..] == a[1..] + [code];
    }
  }

  /** The prefix of extended keys has no effect, so the right Ctrl key acts as the left one. */
  lemma ExtendedPrefix(m: Mods)
    ensures NextMods(m, EXTENDED) == m && Decode(m, EXTENDED) == []
  {
  }

  // ---------------------------------------------------------------------
  // The queue, and every interleaving of scan codes and reads
  // ---------------------------------------------------------------------

  datatype State = State(mods: Mods, queue: seq<byte>)

  const BOOT := State(NO_MODS, [])

  /** Characters that find no room are lost. */
  function Offer(q: seq<byte>, s: seq<byte>): seq<byte> {
    if |q| < ROOM then q + s else q
  }

  function OnScan(s: State, code: byte): State {
    State(NextMods(s.mods, code), Offer(s.queue, Decode(s.mods, code)))
  }

  function OnRead(s: State): (State, int) {
    if s.queue == [] then (s, EMPTY) else (s.(queue := s.queue[1..]), s.queue[0])
  }

  datatype Event = Scan(code: byte) | Read

  /** The state after the events, and all results of the reads among them. */
  function Run(s: State, events: seq<Event>): (State, seq<int>)
    decreases |events|
  {
    if events == [] then (s, [])
    else match events[0]
      case Scan(code) => Run(OnScan(s, code), events[1..])
      case Read =>
        var (n, c) := OnRead(s);
        var (last, rest) := Run(n, events[1..]);
        (last, [c] + rest)
  }

  /** The results that are characters. */
  function Characters(rs: seq<int>): seq<int> {
    if rs == [] then []
    else if rs[0] == EMPTY then Characters(rs[1..])
    else [rs[0]] + Characters(rs[1..])
  }

  function Codes(events: seq<Event>): seq<byte> {
    if events == [] then []
    else match events[0]
      case Scan(code) => [code] + Codes(events[1..])
      case Read => Codes(events[1..])
  }

  /** What should come through, told from the number of characters pending alone: those typed
      while fewer than 255 are. */
  function Kept(m: Mods, pending: nat, events: seq<Event>): seq<byte>
    decreases |events|
  {
    if events == [] then []
    else match events[0]
      case Scan(code) =>
        var s := if pending < ROOM then Decode(m, code) else [];
        s + Kept(NextMods(m, code), pending + |s|, events[1..])
      case Read => Kept(m, if pending == 0 then 0 else pending - 1, events[1..])
  }

  /** Characters typed that found the queue full. */
  function Dropped(m: Mods, pending: nat, events: seq<Event>): nat
    decreases |events|
  {
    if events == [] then 0
    else match events[0]
      case Scan(code) =>
        var s := if pending < ROOM then Decode(m, code) else [];
        |Decode(m, code)| - |s| + Dropped(NextMods(m, code), pending + |s|, events[1..])
      case Read => Dropped(m, if pending == 0 then 0 else pending - 1, events[1..])
  }

  predicate InOrderIn(a: seq<byte>, b: seq<byte>) {
    a == [] || (b != [] && (InOrderIn(a, b[1..]) || (a[0] == b[0] && InOrderIn(a[1..], b[1..]))))
  }

  lemma FirstRead(q: seq<byte>, n: seq<byte>, c: int, rest: seq<int>, last: seq<byte>, kept: seq<byte>)
    requires if q == [] then n == [] && c == EMPTY else n == q[1..] && c == q[0]
    requires Characters(rest) + last == n + kept
    ensures Characters([c] + rest) + last == q + kept
  {
    assert ([c] + rest)[1..] == rest;
    if q != [] { assert q + kept == [c] + (n + kept); }
  }

  /** In every interleaving the characters read, followed by those still waiting, are those
      waiting at first followed by the ones kept: nothing is reordered, repeated or altered. */
  lemma {:induction false} ReadsAreKept(s: State, events: seq<Event>)
    requires |s.queue| <= ROOM
    ensures var (last, got) := Run(s, events);
      && |last.queue| <= ROOM
      && Characters(got) + last.queue == s.queue + Kept(s.mods, |s.queue|, events)
    decreases |events|
  {
    hide Decode, NextMods, Ascii, Plain, Shifted;
    if events != [] {
      match events[0]
      case Scan(code) =>
        ReadsAreKept(OnScan(s, code), events[1..]);
      case Read =>
        var (n, c) := OnRead(s);
        ReadsAreKept(n, events[1..]);
        var (last, rest) := Run(n, events[1..]);
        var kept := Kept(n.mods, |n.queue|, events[1..]);
        assert Kept(s.mods, |s.queue|, events) == kept;
        FirstRead(s.queue, n.queue, c, rest, last.queue, kept);
    }
  }

  lemma {:induction false} InOrderWhole(a: seq<byte>)
    ensures InOrderIn(a, a)
  {
    if a != [] { InOrderWhole(a[1..]); }
  }

  /** What is kept is what was typed, in order, less the characters dropped; all of it if and only
      if none is. */
  lemma {:induction false} KeptIsTyped(m: Mods, pending: nat, events: seq<Event>)
    ensures InOrderIn(Kept(m, pending, events), Typed(m, Codes(events)))
    ensures |Typed(m, Codes(events))|
         == |Kept(m, pending, events)| + Dropped(m, pending, events)
    ensures Kept(m, pending, events) == Typed(m, Codes(events)) <==> Dropped(m, pending, events) == 0
    decreases |events|
  {
    hide Decode, NextMods, Ascii, Plain, Shifted;
    if events != [] {
      var rest := events[1..];
      match events[0]
      case Scan(code) =>
        var d := Decode(m, code);
        var s := if pending < ROOM then d else [];
        var n := NextMods(m, code);
        KeptIsTyped(n, pending + |s|, rest);
        assert ([code] + Codes(rest))[1..] == Codes(rest);
        var kept, typed := Kept(n, pending + |s|, rest), Typed(n, Codes(rest));
        assert Typed(m, Codes(events)) == d + typed;
        assert Kept(m, pending, events) == s + kept;
        if d == [] {
          assert d + typed == typed && s + kept == kept;
        } else {
          assert (d + typed)[1..] == typed;
          if s == [] { assert s + kept == kept; } else { assert (s + kept)[1..] == kept; }
        }
      case Read =>
        KeptIsTyped(m, if pending == 0 then 0 else pending - 1, rest);
    }
  }

  /** From boot: what was read and what waits is exactly what was typed, less what was dropped. */
  lemma BootToReads(events: seq<Event>)
    ensures var (last, got) := Run(BOOT, events);
            var through := Characters(got) + last.queue;
      && through == Kept(NO_MODS, 0, events)
      && InOrderIn(Kept(NO_MODS, 0, events), Typed(NO_MODS, Codes(events)))
      && (through == Typed(NO_MODS, Codes(events)) <==> Dropped(NO_MODS, 0, events) == 0)
  {
    ReadsAreKept(BOOT, events);
    KeptIsTyped(NO_MODS, 0, events);
  }

  // ---------------------------------------------------------------------
  // The circular buffer
  // ---------------------------------------------------------------------

  class Keyboard {
    const buf: array<byte>
    var head: int
    var tail: int
    var shiftDown: bool
    var capsLock: bool
    var ctrlDown: bool

    ghost predicate Valid()
      reads this`head, this`tail
    {
      buf.Length == BUF_SIZE && 0 <= head < BUF_SIZE && 0 <= tail < BUF_SIZE
    }

    /** The cells from tail up to head, around the end of the buffer. */
    ghost function Queue(): (q: seq<byte>)
      requires Valid()
      reads this`head, this`tail, buf
      ensures |q| <= ROOM && |q| == head - tail + if tail <= head then 0 else BUF_SIZE
    {
      if tail <= head then buf[tail..head] else buf[tail..] + buf[..head]
    }

    ghost function View(): (s: State)
      requires Valid()
      reads this, buf
    {
      State(Mods(shiftDown, capsLock, ctrlDown), Queue())
    }

    constructor ()
      ensures Valid() && View() == BOOT && fresh(buf)
    {
      buf := new byte[BUF_SIZE](_ => 0);
      head, tail := 0, 0;
      shiftDown, capsLock, ctrlDown := false, false, false;
    }

    method BufferPush(c: byte)
      requires Valid()
      modifies this`head, buf
      ensures Valid() && Queue() == Offer(old(Queue()), [c])
    {
      var next := (head + 1) % BUF_SIZE;
      if next != tail {
        assert next == if head + 1 == BUF_SIZE then 0 else head + 1;
        assert |Queue()| < ROOM;
        buf[head] := c;
        head := next;
        assert Queue() == old(Queue()) + [c];
      }
    }

    method GetChar() returns (c: int)
      requires Valid()
      modifies this`tail
      ensures Valid() && (View(), c) == OnRead(old(View()))
    {
      if head == tail {
        return EMPTY;
      }
      c := buf[tail];
      tail := (tail + 1) % BUF_SIZE;
      assert tail == if old(tail) + 1 == BUF_SIZE then 0 else old(tail) + 1;
      assert Queue() == old(Queue())[1..];
    }

    method GetAscii(key: byte) returns (c: int)
      ensures c == Ascii(Mods(shiftDown, capsLock, ctrlDown), key)
    {
      hide Plain, Shifted;
      TablesAgree(key);
      if IsAlpha(key) {
        var upper := shiftDown != capsLock;
        var base := Plain(key);
        return if upper then ToUpper(base) else base;
      }
      if shiftDown {
        c := Shifted(key);
      } else {
        c := Plain(key);
      }
    }

    method Handler(code: byte)
      requires Valid()
      modifies this, buf
      ensures Valid() && View() == OnScan(old(View()), code)
    {
      hide Ascii, InRow, Plain, Shifted, ToUpper, IsAlpha, Queue;
      assert Offer(Queue(), []) == Queue();
      var released := code >= BREAK_BIT;
      var key := code % BREAK_BIT;
      if key == KEY_LCONTROL {
        ctrlDown := !released;
        return;
      }
      if !released && ctrlDown && key == KEY_C {
        BufferPush(CTRL_C);
        return;
      }
      if key == KEY_LSHIFT || key == KEY_RSHIFT {
        shiftDown := !released;
        return;
      }
      if key == KEY_CAPSLOCK && !released {
        capsLock := !capsLock;
        return;
      }
      if !released {
        var ch := GetAscii(key);
        if ch != 0 {
          AsciiRange(View().mods, key);
          assert Decode(View().mods, code) == [ch];
          BufferPush(ch);
        }
      }
    }
  }
}

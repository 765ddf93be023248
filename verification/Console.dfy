/** The text console. Its meaning is a transcript of unbounded length that only grows by blank
    rows; the screen shows the last 25 rows of it. */
module Console {
  import opened Basics

  const WIDTH := 80
  const HEIGHT := 25
  const SCREEN := WIDTH * HEIGHT

  datatype Cell = Cell(ch: byte, attr: byte)

  const NEWLINE: byte := 10
  const SPACE: byte := 32
  /** What scrolling and backspace leave: a space, black on black. */
  const BLANK := Cell(SPACE, 0)
  /** What clearing leaves: a space, grey on black. */
  const CLEAR := Cell(SPACE, 0x07)

  /** Foreground in the low four bits, background above, in eight bits. */
  function MakeColor(fore: byte, back: byte): byte { back * 16 % 256 + fore % 16 }

  // ---------------------------------------------------------------------
  // The transcript
  // ---------------------------------------------------------------------

  /** All rows ever shown, one after the other, and the position of the cursor in them. */
  datatype Transcript = Transcript(cells: seq<Cell>, pos: int)

  /** First position that is on the screen. */
  function Top(t: Transcript): int { |t.cells| - SCREEN }

  predicate Wf(t: Transcript) {
    |t.cells| % WIDTH == 0 && 0 <= Top(t) <= t.pos < |t.cells|
  }

  function Row(c: Cell, n: nat): (r: seq<Cell>)
    ensures |r| == n && forall i :: 0 <= i < n ==> r[i] == c
  {
    seq(n, i => c)
  }

  const CLEARED := Transcript(Row(CLEAR, SCREEN), 0)

  /** Adds a blank row when the cursor has left the last one. */
  function Follow(t: Transcript): Transcript {
    if t.pos < |t.cells| then t else t.(cells := t.cells + Row(BLANK, WIDTH))
  }

  function Print(t: Transcript, c: byte, attr: byte): Transcript
    requires Wf(t)
  {
    if c == NEWLINE then Follow(t.(pos := (t.pos / WIDTH + 1) * WIDTH))
    else Follow(Transcript(t.cells[t.pos := Cell(c, attr)], t.pos + 1))
  }

  function Erase(t: Transcript): Transcript
    requires Wf(t)
  {
    var p := if t.pos > Top(t) then t.pos - 1 else t.pos;
    Transcript(t.cells[p := BLANK], p)
  }

  function PrintAll(t: Transcript, s: seq<byte>, attr: byte): (r: Transcript)
    requires Wf(t)
    ensures Wf(r)
    decreases |s|
  {
    if s == [] then t else PrintWf(t, s[0], attr); PrintAll(Print(t, s[0], attr), s[1..], attr)
  }

  lemma PrintWf(t: Transcript, c: byte, attr: byte)
    requires Wf(t)
    ensures Wf(Print(t, c, attr))
  {}

  lemma {:induction false} PrintAllLast(t: Transcript, s: seq<byte>, attr: byte)
    requires Wf(t) && s != []
    ensures PrintAll(t, s, attr) == Print(PrintAll(t, s[..|s| - 1], attr), s[|s| - 1], attr)
    decreases |s|
  {
    PrintWf(t, s[0], attr);
    if |s| > 1 {
      PrintAllLast(Print(t, s[0], attr), s[1..], attr);
      assert s[1..][..|s| - 2] == s[..|s| - 1][1..];
    }
  }

  /** A text is printed character by character, newlines included. */
  lemma {:induction false} PrintAllParts(t: Transcript, a: seq<byte>, b: seq<byte>, attr: byte)
    requires Wf(t)
    ensures PrintAll(t, a + b, attr) == PrintAll(PrintAll(t, a, attr), b, attr)
    ensures |a| == 1 ==> PrintAll(t, a, attr) == Print(t, a[0], attr)
    decreases |a|
  {
    if a == [] {
      assert a + b == b;
    } else {
      PrintWf(t, a[0], attr);
      PrintAllParts(Print(t, a[0], attr), a[1..], b, attr);
      assert (a + b)[1..] == a[1..] + b;
    }
  }

  datatype Op = OpPrint(c: byte, attr: byte) | OpErase

  function Do(t: Transcript, op: Op): (r: Transcript)
    requires Wf(t)
    ensures Wf(r)
  {
    match op
    case OpPrint(c, attr) => PrintWf(t, c, attr); Print(t, c, attr)
    case OpErase => Erase(t)
  }

  function Run(t: Transcript, ops: seq<Op>): (r: Transcript)
    requires Wf(t)
    ensures Wf(r)
    decreases |ops|
  {
    if ops == [] then t else Run(Do(t, ops[0]), ops[1..])
  }

  /** Rows that have left the screen never change again. */
  lemma {:induction false} ScrolledOffStays(t: Transcript, ops: seq<Op>)
    requires Wf(t)
    ensures |t.cells| <= |Run(t, ops).cells| && Run(t, ops).cells[..Top(t)] == t.cells[..Top(t)]
    decreases |ops|
  {
    if ops != [] {
      var n := Do(t, ops[0]);
      assert |t.cells| <= |n.cells| && n.cells[..Top(t)] == t.cells[..Top(t)];
      ScrolledOffStays(n, ops[1..]);
      assert Run(n, ops[1..]).cells[..Top(t)] == Run(n, ops[1..]).cells[..Top(n)][..Top(t)];
    }
  }

  /** A newline goes to the first column of the next row and changes no cell there is; behind the last
      row it adds one of spaces, black on black, and the screen loses its first row. */
  lemma NewlineMeans(t: Transcript, attr: byte)
    requires Wf(t)
    ensures var n := Print(t, 10, attr);
      && n.pos % 80 == 0 && t.pos < n.pos <= t.pos + 80
      && |n.cells| == |t.cells| + (if t.pos + 80 < |t.cells| then 0 else 80)
      && (forall i :: 0 <= i < |t.cells| ==> n.cells[i] == t.cells[i])
      && (forall i :: |t.cells| <= i < |n.cells| ==> n.cells[i] == Cell(32, 0))
  {}

  /** Any other character is written at the cursor, which moves on by one cell; a row is added when that
      was the last cell. */
  lemma CharMeans(t: Transcript, c: byte, attr: byte)
    requires Wf(t) && c != 10
    ensures var n := Print(t, c, attr);
      && n.pos == t.pos + 1
      && |n.cells| == |t.cells| + (if t.pos + 1 < |t.cells| then 0 else 80)
      && (forall i :: 0 <= i < |t.cells| ==> n.cells[i] == if i == t.pos then Cell(c, attr) else t.cells[i])
      && (forall i :: |t.cells| <= i < |n.cells| ==> n.cells[i] == Cell(32, 0))
  {}

  /** Backspace moves back by one cell, except at the top left of the screen, and makes the cell where it
      ends a space, black on black. */
  lemma EraseMeans(t: Transcript)
    requires Wf(t)
    ensures var e := Erase(t);
      && e.pos == (if t.pos == |t.cells| - 2000 then t.pos else t.pos - 1)
      && |e.cells| == |t.cells| && e.cells[e.pos] == Cell(32, 0)
      && (forall i :: 0 <= i < |t.cells| && i != e.pos ==> e.cells[i] == t.cells[i])
  {}

  /** The two colours of an attribute: the foreground is told by the low four bits and the background by
      the four above. */
  lemma ColorMeans(fore: byte, back: byte)
    ensures MakeColor(fore, back) as int % 16 == fore as int % 16
    ensures MakeColor(fore, back) as int / 16 == back as int % 16
  {}

  /** Backspace after a character puts the cursor back and blanks that one cell, also across the
      end of a row and across scrolling. */
  lemma PrintErase(t: Transcript, c: byte, attr: byte)
    requires Wf(t) && c != NEWLINE
    ensures var n := Print(t, c, attr);
      Wf(n) && Erase(n) == Transcript(n.cells[t.pos := BLANK], t.pos)
    ensures Erase(Print(t, c, attr)).cells[..|t.cells|] == t.cells[t.pos := BLANK]
  {
    PrintWf(t, c, attr);
  }

  /** Text without newlines lies in the transcript character by character from the cursor on. */
  lemma {:induction false} TextLaidOut(t: Transcript, s: seq<byte>, attr: byte)
    requires Wf(t) && NEWLINE !in s
    ensures var r := PrintAll(t, s, attr);
      && r.pos == t.pos + |s| && |t.cells| <= |r.cells|
      && (forall i :: 0 <= i < |s| ==> r.cells[t.pos + i] == Cell(s[i], attr))
      && (forall i :: 0 <= i < t.pos ==> r.cells[i] == t.cells[i])
    decreases |s|
  {
    if s != [] {
      PrintWf(t, s[0], attr);
      var n := Print(t, s[0], attr);
      TextLaidOut(n, s[1..], attr);
      var r := PrintAll(t, s, attr);
      forall i | 0 <= i < |s| ensures r.cells[t.pos + i] == Cell(s[i], attr) {
        if i > 0 { assert r.cells[n.pos + (i - 1)] == Cell(s[1..][i - 1], attr); }
      }
    }
  }

  function EraseAll(t: Transcript, n: nat): (r: Transcript)
    requires Wf(t)
    ensures Wf(r)
    decreases n
  {
    if n == 0 then t else EraseAll(Erase(t), n - 1)
  }

  /** Cells from a to b made blank. */
  function Blanked(s: seq<Cell>, a: nat, b: nat): (r: seq<Cell>)
    requires a <= b <= |s|
    ensures |r| == |s| && forall i :: 0 <= i < |s| ==> r[i] == if a <= i < b then BLANK else s[i]
  {
    s[..a] + Row(BLANK, b - a) + s[b..]
  }

  /** Any number of backspaces goes back that far or to the top of the screen, whichever comes
      first, and blanks exactly the cells it passes. */
  lemma {:induction false} EraseAllReach(t: Transcript, n: nat)
    requires Wf(t) && n > 0
    ensures var p := if t.pos - n >= Top(t) then t.pos - n else Top(t);
      EraseAll(t, n) == Transcript(Blanked(t.cells, p, if t.pos > p then t.pos else p + 1), p)
    decreases n
  {
    hide Blanked, Row;
    var e := Erase(t);
    var p := if t.pos - n >= Top(t) then t.pos - n else Top(t);
    var b := if t.pos > p then t.pos else p + 1;
    if n == 1 {
      assert e.cells == Blanked(t.cells, p, b);
    } else {
      EraseAllReach(e, n - 1);
      assert EraseAll(e, n - 1).cells == Blanked(t.cells, p, b);
    }
  }

  /** Rubbing out a text just typed brings the cursor back to where the text began if and only if
      that place is still on the screen; otherwise it stops at the top of the screen. */
  lemma TypeThenErase(t: Transcript, s: seq<byte>, attr: byte)
    requires Wf(t) && NEWLINE !in s
    ensures var r := PrintAll(t, s, attr);
      && r.pos == t.pos + |s|
      && (EraseAll(r, |s|).pos == t.pos <==> Top(r) <= t.pos)
      && (Top(r) <= t.pos ==> EraseAll(r, |s|).cells == Blanked(r.cells, t.pos, r.pos))
  {
    TextLaidOut(t, s, attr);
    var r := PrintAll(t, s, attr);
    if s == [] {
      assert r.cells == Blanked(r.cells, t.pos, r.pos);
    } else {
      EraseAllReach(r, |s|);
    }
  }

  // ---------------------------------------------------------------------
  // The screen
  // ---------------------------------------------------------------------

  /** Where the next row starts. */
  lemma RowEnds(t: Transcript, x: int, y: int)
    requires Wf(t) && 0 <= x < WIDTH && t.pos == Top(t) + y * WIDTH + x
    ensures (t.pos / WIDTH + 1) * WIDTH == Top(t) + (y + 1) * WIDTH
  {
    var k := |t.cells| / WIDTH;
    assert t.pos == (k - HEIGHT + y) * WIDTH + x;
  }

  class Screen {
    const cells: array<Cell>
    var x: int
    var y: int
    ghost var t: Transcript

    ghost predicate Valid()
      reads this, cells
    {
      && cells.Length == SCREEN && Wf(t) && 0 <= x < WIDTH && 0 <= y < HEIGHT
      && t.pos == Top(t) + y * WIDTH + x && cells[..] == t.cells[Top(t)..]
    }

    constructor ()
      ensures Valid() && t == CLEARED && fresh(cells)
    {
      cells := new Cell[SCREEN](_ => CLEAR);
      x, y, t := 0, 0, CLEARED;
    }

    /** Whatever was on the screen. */
    method CleanScreen()
      requires cells.Length == SCREEN
      modifies this, cells
      ensures Valid() && t == CLEARED
      ensures x == 0 && y == 0 && forall i :: 0 <= i < 2000 ==> cells[i] == Cell(32, 0x07)
    {
      for i := 0 to SCREEN
        invariant forall k :: 0 <= k < i ==> cells[k] == CLEAR
      {
        cells[i] := CLEAR;
      }
      x, y, t := 0, 0, CLEARED;
    }

    /** Moves all rows up by one and blanks the last. */
    method ScrollScreen()
      requires cells.Length == SCREEN
      modifies this`y, cells
      ensures cells[..] == old(cells[WIDTH..]) + Row(BLANK, WIDTH) && BLANK == Cell(32, 0)
      ensures y == if old(y) > 0 then old(y) - 1 else old(y)
    {
      ghost var was := cells[..];
      for i := 0 to SCREEN - WIDTH
        invariant y == old(y)
        invariant forall k {:trigger cells[k]} :: 0 <= k < i ==> cells[k] == was[k + WIDTH]
        invariant forall k {:trigger cells[k]} :: i <= k < SCREEN ==> cells[k] == was[k]
      {
        cells[i] := cells[i + WIDTH];
      }
      for i := SCREEN - WIDTH to SCREEN
        invariant y == old(y)
        invariant cells[..SCREEN - WIDTH] == was[WIDTH..]
        invariant forall k :: SCREEN - WIDTH <= k < i ==> cells[k] == BLANK
      {
        cells[i] := BLANK;
      }
      assert cells[..] == cells[..SCREEN - WIDTH] + cells[SCREEN - WIDTH..];
      if y > 0 { y := y - 1; }
    }

    /** The cursor goes to the start of the next row; the screen scrolls if there is none. */
    method NextRow()
      requires cells.Length == SCREEN && 0 <= y < HEIGHT
      requires |t.cells| % WIDTH == 0 && 0 <= Top(t) && t.pos == Top(t) + (y + 1) * WIDTH
      requires cells[..] == t.cells[Top(t)..]
      modifies this, cells
      ensures Valid() && t == Follow(old(t)) && x == 0
      ensures y == if old(y) < 24 then old(y) + 1 else 24
    {
      x := 0;
      y := y + 1;
      if y >= HEIGHT {
        ScrollScreen();
        y := HEIGHT - 1;
        assert Follow(t).cells[Top(Follow(t))..] == t.cells[Top(t)..][WIDTH..] + Row(BLANK, WIDTH);
      }
      t := Follow(t);
    }

    method PrintChar(c: byte, fore: byte, back: byte)
      requires Valid()
      modifies this, cells
      ensures Valid() && t == Print(old(t), c, MakeColor(fore, back))
      ensures c != 10 && old(x) < 79 ==> x == old(x) + 1 && y == old(y)
      ensures c == 10 || old(x) == 79 ==> x == 0 && y == if old(y) < 24 then old(y) + 1 else 24
    {
      var color := MakeColor(fore, back);
      if c == NEWLINE {
        RowEnds(t, x, y);
        t := t.(pos := (t.pos / WIDTH + 1) * WIDTH);
        NextRow();
        return;
      }
      cells[y * WIDTH + x] := Cell(c, color);
      t := Transcript(t.cells[t.pos := Cell(c, color)], t.pos + 1);
      assert cells[..] == t.cells[Top(t)..];
      x := x + 1;
      if x >= WIDTH { NextRow(); }
    }

    method PrintString(s: seq<byte>, fore: byte, back: byte)
      requires Valid() && 0 !in s
      modifies this, cells
      ensures Valid() && t == PrintAll(old(t), s, MakeColor(fore, back))
    {
      for i := 0 to |s|
        invariant Valid() && t == PrintAll(old(t), s[..i], MakeColor(fore, back))
      {
        PrintAllLast(old(t), s[..i + 1], MakeColor(fore, back));
        assert s[..i + 1][..i] == s[..i];
        PrintChar(s[i], fore, back);
      }
      assert s[..|s|] == s;
    }

    method Backspace()
      requires Valid()
      modifies this, cells
      ensures Valid() && t == Erase(old(t))
      ensures x == (if old(x) > 0 then old(x) - 1 else if old(y) > 0 then 79 else 0)
      ensures y == (if old(x) == 0 && old(y) > 0 then old(y) - 1 else old(y))
    {
      if x == 0 {
        if y > 0 {
          y := y - 1;
          x := WIDTH - 1;
        }
      } else {
        x := x - 1;
      }
      cells[y * WIDTH + x] := BLANK;
      t := Erase(t);
      assert cells[..] == t.cells[Top(t)..];
    }
  }
}

// The text terminal, the pseudo-random generator and the keyboard decoding of
// kernel/arch/i386/tty.c.
//
// The VGA text buffer is an ordinary array of 80 x 25 entries. A buffer entry is kept as the
// pair (glyph, colour) that vga_entry builds; the colour byte for light grey on black, which
// vga_entry_color computes, is a parameter of the terminal: vga.h is not part of this model, so
// neither bit layout is fixed here.

module Tty {

  const Width := 80
  const Height := 25
  const Cells := 2000

  type Byte = v: int | 0 <= v < 256

  const Newline: Byte := 10
  const Blank: Byte := 32

  /** One cell of the text buffer: what vga_entry(glyph, colour) stores. */
  datatype Entry = Entry(glyph: Byte, color: Byte)

  /** Linear buffer index of the cell in column x of row y. */
  function Index(x: int, y: int): int
  {
    y * Width + x
  }

  /** Cells on the screen have distinct indices, all inside the buffer. */
  lemma IndexInjective(x1: int, y1: int, x2: int, y2: int)
    requires 0 <= x1 < Width && 0 <= y1 < Height && 0 <= x2 < Width && 0 <= y2 < Height
    ensures 0 <= Index(x1, y1) < Cells
    ensures Index(x1, y1) == Index(x2, y2) ==> x1 == x2 && y1 == y2
  {
  }

  // ---------------------------------------------------------------------------------------
  // Functional view of the terminal state

  /** The terminal: buffer contents, cursor row and column, current colour. */
  datatype Screen = Screen(cells: seq<Entry>, row: nat, column: nat, color: Byte)

  predicate CursorOnScreen(s: Screen)
  {
    s.row < Height && s.column < Width
  }

  /** The buffer after terminal_putentryat(c, color, x, y): off-screen coordinates are ignored. */
  function AfterPutEntryAt(cells: seq<Entry>, c: Byte, color: Byte, x: nat, y: nat): (r: seq<Entry>)
    requires |cells| == Cells
    ensures |r| == Cells
    ensures x >= Width || y >= Height ==> r == cells
    ensures forall i :: 0 <= i < Cells && i != Index(x, y) ==> r[i] == cells[i]
    ensures x < Width && y < Height ==> r[Index(x, y)] == Entry(c, color)
  {
    if x >= Width || y >= Height then cells
    else
      IndexInjective(x, y, x, y);
      cells[Index(x, y) := Entry(c, color)]
  }

  /** The row after a line feed: the next one, wrapping from the last row back to the first. */
  function NextRow(row: nat): nat
  {
    if row + 1 == Height then 0 else row + 1
  }

  /** terminal_putchar: a newline only moves the cursor; any other byte is written at the cursor
      in the current colour and the cursor advances, wrapping at the end of a line. */
  function AfterPutChar(s: Screen, c: Byte): (r: Screen)
    requires |s.cells| == Cells
    ensures |r.cells| == Cells && r.color == s.color
    ensures CursorOnScreen(s) ==> CursorOnScreen(r)
  {
    if c == Newline then
      s.(column := 0, row := NextRow(s.row))
    else
      var cells := AfterPutEntryAt(s.cells, c, s.color, s.column, s.row);
      if s.column + 1 == Width then Screen(cells, NextRow(s.row), 0, s.color)
      else Screen(cells, s.row, s.column + 1, s.color)
  }

  /** terminal_write: terminal_putchar applied to each byte of `data` in order. */
  function AfterWrite(s: Screen, data: seq<Byte>): (r: Screen)
    requires |s.cells| == Cells
    ensures |r.cells| == Cells
  {
    if data == [] then s else AfterPutChar(AfterWrite(s, data[..|data| - 1]), data[|data| - 1])
  }

  /** Position of the cursor counted in cells from the top-left corner. */
  function CursorIndex(s: Screen): int
  {
    Index(s.column, s.row)
  }

  /** A newline writes no cell, moves to column 0 and advances the row with wrap-around. */
  lemma NewlineMovesOnly(s: Screen)
    requires |s.cells| == Cells && CursorOnScreen(s)
    ensures AfterPutChar(s, Newline).cells == s.cells && AfterPutChar(s, Newline).color == s.color
    ensures AfterPutChar(s, Newline).column == 0
    ensures AfterPutChar(s, Newline).row == (s.row + 1) % Height
  {
  }

  /** Any other byte lands at the cursor in the current colour, nothing else is written, and the
      cursor moves to the next cell in reading order, wrapping from the last cell to the first. */
  lemma PutCharAdvances(s: Screen, c: Byte)
    requires |s.cells| == Cells && CursorOnScreen(s) && c != Newline
    ensures AfterPutChar(s, c).cells == s.cells[CursorIndex(s) := Entry(c, s.color)]
    ensures CursorOnScreen(AfterPutChar(s, c))
    ensures CursorIndex(AfterPutChar(s, c)) == (CursorIndex(s) + 1) % Cells
  {
    var t := AfterPutChar(s, c);
    IndexInjective(s.column, s.row, s.column, s.row);
    if s.column + 1 < Width {
      assert CursorIndex(t) == CursorIndex(s) + 1 < Cells;
    } else if s.row + 1 < Height {
      assert CursorIndex(t) == (s.row + 1) * Width == CursorIndex(s) + 1;
    } else {
      assert CursorIndex(s) + 1 == Cells;
    }
  }

  /** Writing keeps the cursor on screen and never changes the colour. */
  lemma {:induction false} WriteKeepsCursorOnScreen(s: Screen, data: seq<Byte>)
    requires |s.cells| == Cells && CursorOnScreen(s)
    ensures CursorOnScreen(AfterWrite(s, data)) && AfterWrite(s, data).color == s.color
  {
    if data != [] {
      WriteKeepsCursorOnScreen(s, data[..|data| - 1]);
    }
  }

  /** Writing a concatenation is writing the two parts one after the other. */
  lemma {:induction false} WriteAppend(s: Screen, a: seq<Byte>, b: seq<Byte>)
    requires |s.cells| == Cells
    ensures AfterWrite(s, a + b) == AfterWrite(AfterWrite(s, a), b)
  {
    if b == [] {
      assert a + b == a;
    } else {
      assert (a + b)[..|a + b| - 1] == a + b[..|b| - 1];
      WriteAppend(s, a, b[..|b| - 1]);
    }
  }

  /** After terminal_setcolor(c), the next ordinary character is drawn in colour c. */
  lemma SetColorThenPutChar(s: Screen, color: Byte, c: Byte)
    requires |s.cells| == Cells && CursorOnScreen(s) && c != Newline
    ensures AfterPutChar(s.(color := color), c).cells[CursorIndex(s)] == Entry(c, color)
  {
    IndexInjective(s.column, s.row, s.column, s.row);
  }

  // ---------------------------------------------------------------------------------------
  // The terminal state of tty.c

  class Terminal {
    /** The colour byte vga_entry_color(VGA_COLOR_LIGHT_GREY, VGA_COLOR_BLACK). */
    const defaultColor: Byte
    /** terminal_buffer: the 80 x 25 text cells. */
    const buffer: array<Entry>
    var row: nat
    var column: nat
    var color: Byte

    /** The buffer has one entry per cell and the cursor is on screen, as terminal_putchar keeps it. */
    ghost predicate Valid()
      reads this
    {
      buffer.Length == Cells && row < Height && column < Width
    }

    ghost function View(): (s: Screen)
      reads this, buffer
      requires Valid()
      ensures |s.cells| == Cells
    {
      Screen(buffer[..], row, column, color)
    }

    /** The terminal before terminal_initialize: cursor and colour zero, as the statics are. */
    constructor (defaultColor: Byte)
      ensures Valid() && fresh(buffer)
      ensures this.defaultColor == defaultColor
      ensures row == 0 && column == 0 && color == 0
    {
      this.defaultColor := defaultColor;
      buffer := new Entry[Cells](_ => Entry(0, 0));
      row, column, color := 0, 0, 0;
    }

    /** terminal_initialize: cursor home, default colour, every cell a blank in that colour. */
    method Initialize()
      requires Valid()
      modifies this, buffer
      ensures Valid() && row == 0 && column == 0 && color == defaultColor
      ensures forall i :: 0 <= i < Cells ==> buffer[i] == Entry(Blank, defaultColor)
    {
      row := 0;
      column := 0;
      color := defaultColor;
      var y := 0;
      while y < Height
        invariant 0 <= y <= Height
        modifies buffer
        invariant forall i :: 0 <= i < y * Width ==> buffer[i] == Entry(Blank, color)
      {
        var x := 0;
        while x < Width
          modifies buffer
          invariant 0 <= x <= Width
          invariant forall i :: 0 <= i < y * Width + x ==> buffer[i] == Entry(Blank, color)
        {
          IndexInjective(x, y, x, y);
          buffer[Index(x, y)] := Entry(Blank, color);
          x := x + 1;
        }
        y := y + 1;
      }
    }

    /** terminal_setcolor: only the current colour changes. */
    method SetColor(c: Byte)
      requires Valid()
      modifies this`color
      ensures Valid() && View() == old(View()).(color := c)
    {
      color := c;
    }

    /** terminal_putentryat: writes at most the one cell at (x, y). */
    method PutEntryAt(c: Byte, attr: Byte, x: nat, y: nat)
      requires Valid()
      modifies buffer
      ensures Valid() && buffer[..] == AfterPutEntryAt(old(buffer[..]), c, attr, x, y)
    {
      if x >= Width || y >= Height {
        return;
      }
      IndexInjective(x, y, x, y);
      buffer[Index(x, y)] := Entry(c, attr);
    }

    /** terminal_putchar */
    method PutChar(c: Byte)
      requires Valid()
      modifies this`row, this`column, buffer
      ensures Valid() && View() == AfterPutChar(old(View()), c)
      ensures CursorOnScreen(View())
    {
      if c == Newline {
        column := 0;
        row := row + 1;
        if row == Height { row := 0; }
        return;
      }
      PutEntryAt(c, color, column, row);
      column := column + 1;
      if column == Width {
        column := 0;
        row := row + 1;
        if row == Height { row := 0; }
      }
    }

    /** terminal_write */
    method Write(data: seq<Byte>)
      requires Valid()
      modifies this`row, this`column, buffer
      ensures Valid() && View() == AfterWrite(old(View()), data)
      ensures CursorOnScreen(View())
    {
      var i := 0;
      while i < |data|
        invariant 0 <= i <= |data|
        invariant Valid() && View() == AfterWrite(old(View()), data[..i])
      {
        assert data[..i + 1][..i] == data[..i];
        PutChar(data[i]);
        i := i + 1;
      }
      assert data[..|data|] == data;
    }
  }

  // ---------------------------------------------------------------------------------------
  // rand(): a 32-bit linear congruential generator

  const Modulus := 0x1_0000_0000
  const Multiplier := 1103515245
  const Increment := 12345
  const InitialSeed := 123456789

  predicate IsUInt32(v: int) { 0 <= v < Modulus }

  /** The new rand_state: the product and sum wrap around modulo 2^32 as uint32_t does. */
  function NextState(state: int): (r: int)
    ensures IsUInt32(r)
  {
    (state * Multiplier + Increment) % Modulus
  }

  /** The value rand() returns for a given (already advanced) state. */
  function Output(state: int): (r: int)
    ensures 0 <= r < 32768
  {
    (state / 65536) % 32768
  }

  /** The output is bits 16 to 30 of the state: always below 32768. */
  lemma OutputIsBits16To30(state: int)
    requires IsUInt32(state)
    ensures 0 <= Output(state) < 32768
    ensures Output(state) == (state % 0x8000_0000) / 65536
  {
    var q := state / 65536;
    var low := state % 65536;
    var hi := q / 32768;
    var mid := q % 32768;
    assert state == hi * 0x8000_0000 + (mid * 65536 + low);
    assert 0 <= mid * 65536 + low < 0x8000_0000;
    assert state % 0x8000_0000 == mid * 65536 + low;
  }

  class Prng {
    /** rand_state */
    var state: int

    constructor ()
      ensures state == InitialSeed
    {
      state := InitialSeed;
    }

    /** rand */
    method Rand() returns (r: int)
      modifies this
      ensures state == NextState(old(state))
      ensures r == Output(state) && 0 <= r < 32768
    {
      state := (state * Multiplier + Increment) % Modulus;
      OutputIsBits16To30(state);
      r := (state / 65536) % 32768;
    }
  }

  // ---------------------------------------------------------------------------------------
  // key_state and the per-byte scancode decoding of keyboard_update

  /** key_state_t */
  datatype KeyState = KeyState(w: bool, a: bool, s: bool, d: bool, space: bool, p: bool)

  /** The zero-initialised key_state: no key held. */
  const NoKeys := KeyState(false, false, false, false, false, false)

  /** The key codes the game listens to: W, A, S, D, Space, P. */
  predicate Recognised(code: bv8)
  {
    code == 0x11 || code == 0x1E || code == 0x1F || code == 0x20 || code == 0x39 || code == 0x19
  }

  /** Number of fields in which two key states differ. */
  function Differences(k1: KeyState, k2: KeyState): nat
  {
    (if k1.w != k2.w then 1 else 0) + (if k1.a != k2.a then 1 else 0) +
    (if k1.s != k2.s then 1 else 0) + (if k1.d != k2.d then 1 else 0) +
    (if k1.space != k2.space then 1 else 0) + (if k1.p != k2.p then 1 else 0)
  }

  /** The update one scancode makes to key_state: bit 7 clear is a press, set a release. */
  function Decode(k: KeyState, scancode: bv8): (r: KeyState)
    ensures !Recognised(scancode & 0x7F) ==> r == k
    ensures Differences(k, r) <= 1
  {
    var pressed := scancode & 0x80 == 0;
    var code := scancode & 0x7F;
    match code
    case 0x11 => k.(w := pressed)
    case 0x1E => k.(a := pressed)
    case 0x1F => k.(s := pressed)
    case 0x20 => k.(d := pressed)
    case 0x39 => k.(space := pressed)
    case 0x19 => k.(p := pressed)
    case _ => k
  }

  /** The key_state field that a recognised key code controls. */
  function Field(k: KeyState, code: bv8): bool
    requires Recognised(code)
  {
    match code
    case 0x11 => k.w
    case 0x1E => k.a
    case 0x1F => k.s
    case 0x20 => k.d
    case 0x39 => k.space
    case 0x19 => k.p
  }

  /** A recognised scancode sets its own key to "pressed" (bit 7 clear) or "released" (bit 7 set)
      and leaves every other key as it was. */
  lemma DecodeSetsOwnKey(k: KeyState, scancode: bv8)
    requires Recognised(scancode & 0x7F)
    ensures Field(Decode(k, scancode), scancode & 0x7F) == (scancode & 0x80 == 0)
    ensures forall c :: Recognised(c) && c != scancode & 0x7F ==>
              Field(Decode(k, scancode), c) == Field(k, c)
  {
  }

  /** Of two scancodes for the same key only the later one matters. */
  lemma LastEventWins(k: KeyState, x: bv8, y: bv8)
    requires x & 0x7F == y & 0x7F
    ensures Decode(Decode(k, x), y) == Decode(k, y)
  {
  }

  /** Scancodes for different keys commute. */
  lemma DifferentKeysCommute(k: KeyState, x: bv8, y: bv8)
    requires x & 0x7F != y & 0x7F
    ensures Decode(Decode(k, x), y) == Decode(Decode(k, y), x)
  {
  }
}

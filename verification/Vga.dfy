/** The VGA text driver: the screen buffer is the last 25 rows of the terminal's transcript. */
module Vga {
  import opened Bytes
  import opened TerminalSpec

  const CELLS := WIDTH * HEIGHT

  /** Cell `i` of the screen in the transcript. */
  function Shown(rows: seq<seq<Cell>>, i: nat): Cell
    requires |rows| >= HEIGHT && (forall r :: 0 <= r < |rows| ==> |rows[r]| == WIDTH) && i < CELLS
  {
    rows[|rows| - HEIGHT + i / WIDTH][i % WIDTH]
  }

  lemma CellPlace(row: nat, col: nat)
    requires col < WIDTH
    ensures (row * WIDTH + col) / WIDTH == row && (row * WIDTH + col) % WIDTH == col
  {}

  lemma PlaceUnique(i: nat)
    ensures i == i / WIDTH * WIDTH + i % WIDTH && i % WIDTH < WIDTH
  {}

  lemma BelowPlace(i: nat)
    ensures (i + WIDTH) / WIDTH == i / WIDTH + 1 && (i + WIDTH) % WIDTH == i % WIDTH
  {}

  /** The screen that shows the last 25 rows of `rows`. */
  ghost predicate Shows(b: seq<Cell>, rows: seq<seq<Cell>>) {
    && |b| == CELLS && |rows| >= HEIGHT && (forall r :: 0 <= r < |rows| ==> |rows[r]| == WIDTH)
    && forall i :: 0 <= i < CELLS ==> b[i] == Shown(rows, i)
  }

  /** Writing one cell of the current row. */
  lemma WriteShows(b: seq<Cell>, t: Terminal, row: nat, col: nat, e: Cell)
    requires WellFormed(t) && Shows(b, t.rows) && row == t.cur - (|t.rows| - HEIGHT) && col < WIDTH
    ensures row * WIDTH + col < CELLS && Shows(b[row * WIDTH + col := e], Write(t, col, e).rows)
  {
    CellPlace(row, col);
    var t' := Write(t, col, e);
    forall i | 0 <= i < CELLS ensures b[row * WIDTH + col := e][i] == Shown(t'.rows, i) {
      PlaceUnique(i);
    }
  }

  /** Scrolling shows one row more. */
  lemma ScrollShows(b: seq<Cell>, b': seq<Cell>, rows: seq<seq<Cell>>, color: byte)
    requires Shows(b, rows) && |b'| == CELLS
    requires forall i :: 0 <= i < CELLS ==> b'[i] == if i < CELLS - WIDTH then b[i + WIDTH] else MakeEntry(32, color)
    ensures Shows(b', rows + [BlankRow(color)])
  {
    var rows' := rows + [BlankRow(color)];
    forall i | 0 <= i < CELLS ensures b'[i] == Shown(rows', i) {
      PlaceUnique(i);
      BelowPlace(i);
    }
  }

  lemma ClearShows(b: seq<Cell>, rows: seq<seq<Cell>>, color: byte)
    requires |b| == CELLS && forall i :: 0 <= i < CELLS ==> b[i] == MakeEntry(32, color)
    requires forall r :: 0 <= r < |rows| ==> |rows[r]| == WIDTH
    ensures Shows(b, rows + BlankRows(HEIGHT, color))
  {
    var rows' := rows + BlankRows(HEIGHT, color);
    forall i | 0 <= i < CELLS ensures b[i] == Shown(rows', i) {
      PlaceUnique(i);
      assert rows'[|rows| + i / WIDTH] == BlankRow(color);
    }
  }

  class Vga {
    const buffer: array<Cell>
    var row: nat
    var col: nat
    var color: byte
    ghost var term: Terminal

    ghost predicate Valid()
      reads this, buffer
    {
      && WellFormed(term) && BlankBelow(term) && buffer.Length == CELLS && Shows(buffer[..], term.rows)
      && row == term.cur - (|term.rows| - HEIGHT) && col == term.col && color == term.color
    }

    /** vga_init: light green on black, and a cleared screen. */
    constructor ()
      ensures Valid() && fresh(buffer)
      ensures term == Terminal(BlankRows(HEIGHT, 10), 0, 0, 10)
    {
      buffer := new Cell[CELLS](_ => 0);
      row, col, color := 0, 0, MakeColor(10, 0);
      term := Terminal(BlankRows(HEIGHT, 10), 0, 0, 10);
      new;
      Blank(10);
      assert [] + BlankRows(HEIGHT, 10) == BlankRows(HEIGHT, 10);
      ClearShows(buffer[..], [], 10);
    }

    /** The nested loop of vga_clear. */
    method Blank(color: byte)
      requires buffer.Length == CELLS
      modifies buffer
      ensures forall i :: 0 <= i < CELLS ==> buffer[i] == MakeEntry(32, color)
    {
      for r := 0 to HEIGHT
        invariant forall i :: 0 <= i < r * WIDTH ==> buffer[i] == MakeEntry(32, color)
      {
        for c := 0 to WIDTH
          invariant forall i :: 0 <= i < r * WIDTH + c ==> buffer[i] == MakeEntry(32, color)
        {
          buffer[r * WIDTH + c] := MakeEntry(32, color);
        }
      }
    }

    method ClearScreen()
      requires Valid()
      modifies this, buffer
      ensures Valid() && term == Clear(old(term))
    {
      hide BlankBelow;
      DoIsLater(term, Op.ClearScreen);
      Blank(color);
      ClearShows(buffer[..], term.rows, color);
      row, col := 0, 0;
      term := Clear(term);
    }

    method SetColor(fg: int, bg: int)
      requires Valid() && 0 <= fg < 16 && 0 <= bg < 16
      modifies this`color, this`term
      ensures Valid() && term == Do(old(term), Op.SetColor(fg, bg))
    {
      hide BlankBelow;
      DoIsLater(term, Op.SetColor(fg, bg));
      color := MakeColor(fg, bg);
      term := term.(color := color);
    }

    /** Moves every row up by one and blanks the last. */
    method Scroll()
      requires buffer.Length == CELLS
      modifies buffer, this`row
      ensures forall i :: 0 <= i < CELLS ==>
                buffer[i] == if i < CELLS - WIDTH then old(buffer[i + WIDTH]) else MakeEntry(32, color)
      ensures row == if old(row) > 0 then HEIGHT - 1 else 0
    {
      for r := 0 to HEIGHT - 1
        invariant forall i :: 0 <= i < CELLS ==> buffer[i] == if i < r * WIDTH then old(buffer[i + WIDTH]) else old(buffer[i])
        modifies buffer
      {
        for c := 0 to WIDTH
          invariant forall i :: 0 <= i < CELLS ==> buffer[i] == if i < r * WIDTH + c then old(buffer[i + WIDTH]) else old(buffer[i])
          modifies buffer
        {
          buffer[r * WIDTH + c] := buffer[(r + 1) * WIDTH + c];
        }
      }
      for c := 0 to WIDTH
        invariant forall i :: 0 <= i < CELLS - WIDTH ==> buffer[i] == old(buffer[i + WIDTH])
        invariant forall i :: CELLS - WIDTH <= i < CELLS - WIDTH + c ==> buffer[i] == MakeEntry(32, color)
        modifies buffer
      {
        buffer[(HEIGHT - 1) * WIDTH + c] := MakeEntry(32, color);
      }
      if row > 0 { row := HEIGHT - 1; }
    }

    method Store(c: nat, e: Cell)
      requires WellFormed(term) && buffer.Length == CELLS && Shows(buffer[..], term.rows)
      requires row == term.cur - (|term.rows| - HEIGHT) && c < WIDTH
      modifies buffer, this`term
      ensures term == Write(old(term), c, e) && Shows(buffer[..], term.rows)
    {
      hide Shows;
      WriteShows(buffer[..], term, row, c, e);
      ghost var b := buffer[..];
      assert |b| == buffer.Length;
      buffer[row * WIDTH + c] := e;
      assert buffer[..] == b[row * WIDTH + c := e];
      term := Write(term, c, e);
    }

    /** The end of vga_putchar when the cursor has gone to the start of the next row, which may lie one
        row below the screen. */
    method Settle()
      requires WellFormed(term) && buffer.Length == CELLS && Shows(buffer[..], term.rows) && color == term.color
      requires col == 0 && row == term.cur - (|term.rows| - HEIGHT) + 1
      modifies this`row, this`term, buffer
      ensures term == NextRow(old(term)) && Shows(buffer[..], term.rows)
      ensures row == term.cur - (|term.rows| - HEIGHT)
    {
      hide Shows, BlankRow;
      ghost var b, t := buffer[..], term;
      if row >= HEIGHT {
        Scroll();
        ScrollShows(b, buffer[..], t.rows, color);
      }
      term := NextRow(t);
    }

    method PutChar(c: byte)
      requires Valid()
      modifies this, buffer
      ensures Valid() && term == Put(old(term), c)
    {
      hide Shows, BlankBelow, BlankRow;
      DoIsLater(term, Op.PutChar(c));
      if c == NEWLINE {
        col := 0;
        row := row + 1;
        Settle();
      } else if c == RETURN {
        col := 0;
        term := term.(col := 0);
      } else if c == TAB {
        col := (col + 8) / 8 * 8;
        if col >= WIDTH {
          col := 0;
          row := row + 1;
          Settle();
        } else {
          term := term.(col := col);
        }
      } else if c == BACKSPACE {
        if col > 0 {
          col := col - 1;
          Store(col, MakeEntry(32, color));
          term := term.(col := col);
        }
      } else {
        Store(col, MakeEntry(c, color));
        col := col + 1;
        if col >= WIDTH {
          col := 0;
          row := row + 1;
          Settle();
        } else {
          term := term.(col := col);
        }
      }
    }

    method Print(s: seq<byte>)
      requires Valid()
      modifies this, buffer
      ensures Valid() && term == PutAll(old(term), s)
    {
      hide Shows, BlankBelow, Put;
      var i := 0;
      assert s[..0] == [];
      while i < |s|
        invariant 0 <= i <= |s| && Valid() && term == PutAll(old(term), s[..i])
      {
        assert s[..i + 1][..i] == s[..i];
        PutChar(s[i]);
        i := i + 1;
      }
      assert s[..i] == s;
    }

    /** The digits of `val`, last one first. */
    method Digits(val: nat, buf: array<byte>) returns (i: nat)
      requires 0 < val < U32 && buf.Length == 12
      modifies buf
      ensures i <= 12 && Reversed(buf[..], i) == Dec(val)
    {
      hide Dec, Reversed;
      DecLength(val);
      var v := val;
      i := 0;
      while v > 0
        invariant 0 <= i <= |Dec(val)| <= 10 && (v > 0 ==> i < |Dec(val)|)
        invariant Dec(val) == (if v > 0 then Dec(v) else []) + Reversed(buf[..], i)
        decreases v
      {
        ghost var before := buf[..];
        DecStep(v);
        buf[i] := 48 + v % 10;
        ReversedPush(before, buf[..], i);
        v := v / 10;
        i := i + 1;
      }
    }

    /** Digits are collected from the right and printed from the left. */
    method PrintDec(val: nat)
      requires Valid() && val < U32
      modifies this, buffer
      ensures Valid() && term == PutAll(old(term), Dec(val))
    {
      hide Shows, BlankBelow, Put, PutAll;
      if val == 0 {
        assert Dec(0) == [48];
        Print([48]);
        return;
      }
      var buf := new byte[12](_ => 0);
      var n := Digits(val, buf);
      PrintBack(buf, n);
    }

    method PrintBack(buf: array<byte>, n: nat)
      requires Valid() && n <= buf.Length
      modifies this, buffer
      ensures Valid() && term == PutAll(old(term), Reversed(buf[..], n))
    {
      hide Shows, BlankBelow, Put;
      ghost var out := Reversed(buf[..], n);
      var j := n - 1;
      assert out[..0] == [];
      while j >= 0
        invariant -1 <= j < n && Valid() && term == PutAll(old(term), out[..n - 1 - j])
      {
        assert out[..n - j][..n - 1 - j] == out[..n - 1 - j];
        PutChar(buf[j]);
        j := j - 1;
      }
      assert out[..n] == out;
    }
  }

  lemma DecStep(v: nat)
    requires v > 0
    ensures Dec(v) == (if v / 10 > 0 then Dec(v / 10) else []) + [48 + v % 10]
  {}

  /** The first `n` bytes, last one first. */
  function Reversed(s: seq<byte>, n: nat): (r: seq<byte>)
    requires n <= |s|
    ensures |r| == n && forall i :: 0 <= i < n ==> r[i] == s[n - 1 - i]
  {
    seq(n, i requires 0 <= i < n => s[n - 1 - i])
  }

  lemma ReversedPush(s: seq<byte>, s': seq<byte>, n: nat)
    requires n < |s| == |s'| && forall i :: 0 <= i < n ==> s'[i] == s[i]
    ensures Reversed(s', n + 1) == [s'[n]] + Reversed(s, n)
  {}
}

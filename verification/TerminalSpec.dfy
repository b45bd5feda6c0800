/** A terminal with an unbounded transcript: the reference for the 25 by 80 screen. */
module TerminalSpec {
  import opened Bytes

  const WIDTH := 80
  const HEIGHT := 25

  /** A text cell: character in the low byte, colour in the high byte. */
  type Cell = int

  function MakeColor(fg: int, bg: int): (c: byte)
    requires 0 <= fg < 16 && 0 <= bg < 16
  {
    bg * 16 + fg
  }

  function MakeEntry(c: byte, color: byte): Cell { c as int + 256 * color as int }

  function BlankRow(color: byte): (r: seq<Cell>)
    ensures |r| == WIDTH && forall i :: 0 <= i < WIDTH ==> r[i] == MakeEntry(32, color)
  {
    seq(WIDTH, i => MakeEntry(32, color))
  }

  function BlankRows(n: nat, color: byte): (rs: seq<seq<Cell>>)
    ensures |rs| == n && forall i :: 0 <= i < n ==> rs[i] == BlankRow(color)
  {
    seq(n, i => BlankRow(color))
  }

  /** Everything ever shown, row by row; `cur` and `col` are the place of the next character. */
  datatype Terminal = Terminal(rows: seq<seq<Cell>>, cur: nat, col: nat, color: byte)

  /** The cursor is in the last 25 rows. */
  ghost predicate WellFormed(t: Terminal) {
    && |t.rows| >= HEIGHT && |t.rows| - HEIGHT <= t.cur < |t.rows| && t.col < WIDTH
    && forall i :: 0 <= i < |t.rows| ==> |t.rows[i]| == WIDTH
  }

  /** To the start of the next row, which is added if there is none. */
  function NextRow(t: Terminal): (t': Terminal)
    requires WellFormed(t)
    ensures WellFormed(t')
  {
    if t.cur + 1 < |t.rows| then t.(cur := t.cur + 1, col := 0)
    else t.(rows := t.rows + [BlankRow(t.color)], cur := t.cur + 1, col := 0)
  }

  /** To column `col` of the current row, or to the next row past the edge. */
  function MoveTo(t: Terminal, col: nat): (t': Terminal)
    requires WellFormed(t)
    ensures WellFormed(t')
  {
    if col >= WIDTH then NextRow(t) else t.(col := col)
  }

  function Write(t: Terminal, col: nat, e: Cell): (t': Terminal)
    requires WellFormed(t) && col < WIDTH
    ensures WellFormed(t')
  {
    t.(rows := t.rows[t.cur := t.rows[t.cur][col := e]])
  }

  const NEWLINE: byte := 10
  const RETURN: byte := 13
  const TAB: byte := 9
  const BACKSPACE: byte := 8

  function Put(t: Terminal, c: byte): (t': Terminal)
    requires WellFormed(t)
    ensures WellFormed(t')
  {
    if c == NEWLINE then NextRow(t)
    else if c == RETURN then t.(col := 0)
    else if c == TAB then MoveTo(t, (t.col + 8) / 8 * 8)
    else if c == BACKSPACE then
      if t.col > 0 then Write(t, t.col - 1, MakeEntry(32, t.color)).(col := t.col - 1) else t
    else MoveTo(Write(t, t.col, MakeEntry(c, t.color)), t.col + 1)
  }

  /** A cleared screen is 25 new rows. */
  function Clear(t: Terminal): (t': Terminal)
    requires WellFormed(t)
    ensures WellFormed(t')
  {
    Terminal(t.rows + BlankRows(HEIGHT, t.color), |t.rows|, 0, t.color)
  }

  function PutAll(t: Terminal, s: seq<byte>): (t': Terminal)
    requires WellFormed(t)
    ensures WellFormed(t')
  {
    if s == [] then t else Put(PutAll(t, s[..|s| - 1]), s[|s| - 1])
  }

  datatype Op = PutChar(c: byte) | ClearScreen | SetColor(fg: int, bg: int)

  predicate IsOp(op: Op) { op.SetColor? ==> 0 <= op.fg < 16 && 0 <= op.bg < 16 }

  function Do(t: Terminal, op: Op): (t': Terminal)
    requires WellFormed(t) && IsOp(op)
    ensures WellFormed(t')
  {
    match op
    case PutChar(c) => Put(t, c)
    case ClearScreen => Clear(t)
    case SetColor(fg, bg) => t.(color := MakeColor(fg, bg))
  }

  function Run(t: Terminal, ops: seq<Op>): (t': Terminal)
    requires WellFormed(t) && forall i :: 0 <= i < |ops| ==> IsOp(ops[i])
    ensures WellFormed(t')
    decreases |ops|
  {
    if ops == [] then t else Run(Do(t, ops[0]), ops[1..])
  }

  // ----- the transcript

  /** Rows above the current one never change again, the current row only moves down, and rows
      below it are still blank. */
  ghost predicate Later(t: Terminal, t': Terminal) {
    |t.rows| <= |t'.rows| && t.cur <= t'.cur && forall i :: 0 <= i < t.cur && i < |t.rows| ==> t'.rows[i] == t.rows[i]
  }

  ghost predicate IsBlank(row: seq<Cell>) { exists color :: row == BlankRow(color) }

  ghost predicate BlankBelow(t: Terminal) {
    forall i :: t.cur < i < |t.rows| ==> IsBlank(t.rows[i])
  }

  lemma DoIsLater(t: Terminal, op: Op)
    requires WellFormed(t) && IsOp(op) && BlankBelow(t)
    ensures Later(t, Do(t, op)) && BlankBelow(Do(t, op))
  {
    hide BlankRow;
    var t' := Do(t, op);
    forall i | t'.cur < i < |t'.rows| ensures IsBlank(t'.rows[i]) {
      if op.ClearScreen? {
        assert t'.rows[i] == BlankRow(t.color);
      } else {
        assert t'.rows[i] == t.rows[i] && IsBlank(t.rows[i]);
      }
    }
  }

  lemma {:induction false} RunIsLater(t: Terminal, ops: seq<Op>)
    requires WellFormed(t) && BlankBelow(t) && forall i :: 0 <= i < |ops| ==> IsOp(ops[i])
    ensures Later(t, Run(t, ops)) && BlankBelow(Run(t, ops))
    decreases |ops|
  {
    hide Do, BlankBelow;
    if ops != [] {
      DoIsLater(t, ops[0]);
      RunIsLater(Do(t, ops[0]), ops[1..]);
    }
  }

  // ----- what single characters do

  /** Character and colour can be read off a cell, foreground and background off a colour. */
  lemma CellLayout(c: byte, color: byte, fg: int, bg: int)
    requires 0 <= fg < 16 && 0 <= bg < 16
    ensures MakeEntry(c, color) % 256 == c as int && MakeEntry(c, color) / 256 == color as int
    ensures MakeColor(fg, bg) as int % 16 == fg && MakeColor(fg, bg) as int / 16 == bg
  {}

  /** The cursor is at the start of row `cur` + 1. If that row was below the screen it is new, blank and
      in the current colour; no row there was has changed. */
  ghost predicate OneRowDown(t: Terminal, t': Terminal)
    requires WellFormed(t) && WellFormed(t')
  {
    && t'.cur == t.cur + 1 && t'.col == 0 && t'.color == t.color && t.rows <= t'.rows
    && |t'.rows| == (if t.cur + 1 < |t.rows| then |t.rows| else |t.rows| + 1)
    && (t.cur + 1 == |t.rows| ==> var row := t'.rows[t.cur + 1]; forall i :: 0 <= i < 80 ==> row[i] == MakeEntry(32, t.color))
  }

  /** A newline goes to the start of the next row, which is blank, and changes no row above it. */
  lemma NewlineLaw(t: Terminal)
    requires WellFormed(t) && BlankBelow(t)
    ensures OneRowDown(t, Put(t, NEWLINE)) && IsBlank(Put(t, NEWLINE).rows[t.cur + 1])
  {
    if t.cur + 1 < |t.rows| { assert IsBlank(t.rows[t.cur + 1]); }
  }

  /** A return goes to the start of the row and changes no cell. */
  lemma ReturnLaw(t: Terminal)
    requires WellFormed(t)
    ensures var t' := Put(t, RETURN);
            t'.col == 0 && t'.cur == t.cur && t'.rows == t.rows && t'.color == t.color
  {}

  /** A printable character is stored at the cursor, which moves one place on: to the next column, or
      from the last one to the start of the next row. No other cell of the rows there were changes. */
  lemma PrintableLaw(t: Terminal, c: byte)
    requires WellFormed(t) && Printable(c)
    ensures var t' := Put(t, c);
            && t'.rows[t.cur][t.col] == MakeEntry(c, t.color) && t'.color == t.color
            && (forall i, j :: 0 <= i < |t.rows| && 0 <= j < 80 && (i != t.cur || j != t.col) ==> t'.rows[i][j] == t.rows[i][j])
            && t'.cur == (if t.col < 79 then t.cur else t.cur + 1) && t'.col == (if t.col < 79 then t.col + 1 else 0)
            && |t.rows| <= |t'.rows|
  {}

  /** Clearing leaves the transcript alone and gives 25 blank rows below it, with the cursor at the first. */
  lemma ClearLaw(t: Terminal)
    requires WellFormed(t)
    ensures var t' := Clear(t);
            && t.rows <= t'.rows && |t'.rows| == |t.rows| + 25 && t'.cur == |t.rows| && t'.col == 0 && t'.color == t.color
            && forall i, j :: |t.rows| <= i < |t'.rows| && 0 <= j < 80 ==> t'.rows[i][j] == MakeEntry(32, t.color)
  {
    forall i | |t.rows| <= i < |t.rows| + 25 ensures Clear(t).rows[i] == BlankRow(t.color) {}
  }

  /** Only the colour of what is printed later changes. */
  lemma ColorLaw(t: Terminal, fg: int, bg: int)
    requires WellFormed(t) && 0 <= fg < 16 && 0 <= bg < 16
    ensures var t' := Do(t, SetColor(fg, bg));
            t'.rows == t.rows && t'.cur == t.cur && t'.col == t.col && t'.color as int == 16 * bg + fg
  {}

  /** A tab goes to the next multiple of 8, or to the next row when that is past the edge. */
  lemma TabStops(t: Terminal)
    requires WellFormed(t)
    ensures var t' := Put(t, TAB);
            if t.col < 72 then t'.cur == t.cur && t'.rows == t.rows && t'.col % 8 == 0 && t.col < t'.col <= t.col + 8
            else OneRowDown(t, t')
  {
    assert t.col + 8 == 8 * ((t.col + 8) / 8) + (t.col + 8) % 8;
  }

  predicate Printable(c: byte) { c != NEWLINE && c != RETURN && c != TAB && c != BACKSPACE }

  /** A backspace takes the character before it off the row; after a character in the last column the
      cursor has moved on and a backspace does nothing. */
  lemma BackspaceErases(t: Terminal, c: byte)
    requires WellFormed(t) && Printable(c)
    ensures Put(Put(t, c), BACKSPACE)
         == if t.col + 1 < WIDTH then t.(rows := t.rows[t.cur := t.rows[t.cur][t.col := MakeEntry(32, t.color)]]) else Put(t, c)
  {
    if t.col + 1 < WIDTH {
      var r := t.rows[t.cur];
      assert r[t.col := MakeEntry(c, t.color)][t.col := MakeEntry(32, t.color)] == r[t.col := MakeEntry(32, t.color)];
      var u := Put(Put(t, c), BACKSPACE);
      assert u.rows == Write(t, t.col, MakeEntry(32, t.color)).rows;
    }
  }

  function Entries(s: seq<byte>, color: byte): (r: seq<Cell>)
    ensures |r| == |s|
  {
    seq(|s|, i requires 0 <= i < |s| => MakeEntry(s[i], color))
  }

  /** A row with `cells` laid over it from column `col` on. */
  function Overlay(row: seq<Cell>, col: nat, cells: seq<Cell>): seq<Cell>
    requires col + |cells| <= |row|
  {
    row[..col] + cells + row[col + |cells|..]
  }

  /** A string that fits in the row appears there as it is, and nothing else changes. */
  lemma {:induction false} PrintsInPlace(t: Terminal, s: seq<byte>)
    requires WellFormed(t) && t.col + |s| < WIDTH && forall i :: 0 <= i < |s| ==> Printable(s[i])
    ensures PutAll(t, s)
         == t.(rows := t.rows[t.cur := Overlay(t.rows[t.cur], t.col, Entries(s, t.color))], col := t.col + |s|)
  {
    var row := t.rows[t.cur];
    if s == [] {
      assert Overlay(row, t.col, []) == row;
      assert t.rows[t.cur := row] == t.rows;
    } else {
      var n := |s| - 1;
      PrintsInPlace(t, s[..n]);
      assert Overlay(row, t.col, Entries(s[..n], t.color))[t.col + n := MakeEntry(s[n], t.color)]
          == Overlay(row, t.col, Entries(s, t.color));
      assert PutAll(t, s).rows == t.rows[t.cur := Overlay(row, t.col, Entries(s, t.color))];
    }
  }

  /** Place `n` counted from the start of row `cur`, as row and column. */
  function RowOf(cur: nat, n: nat): nat { cur + n / 80 }
  function ColOf(n: nat): nat { n % 80 }

  lemma NextPlace(n: nat)
    ensures ColOf(n) < 79 ==> (n + 1) / 80 == n / 80 && ColOf(n + 1) == ColOf(n) + 1
    ensures ColOf(n) == 79 ==> (n + 1) / 80 == n / 80 + 1 && ColOf(n + 1) == 0
    ensures ColOf(n) < 80
  {}

  lemma PlacesDiffer(cur: nat, m: nat, n: nat)
    requires m != n
    ensures RowOf(cur, m) != RowOf(cur, n) || ColOf(m) != ColOf(n)
  {
    assert m == m / 80 * 80 + m % 80 && n == n / 80 * 80 + n % 80;
  }

  /** Place `n` counted from the start of row `cur` shows `c`. */
  ghost predicate ShowsAt(t: Terminal, cur: nat, n: nat, c: byte, color: byte) {
    && RowOf(cur, n) < |t.rows| && ColOf(n) < |t.rows[RowOf(cur, n)]|
    && t.rows[RowOf(cur, n)][ColOf(n)] == MakeEntry(c, color)
  }

  /** A printable string of any length runs on from row to row: each character is where counting 80 to a
      row puts it, and the cursor is behind the last. */
  lemma {:induction false} PrintWraps(t: Terminal, s: seq<byte>)
    requires WellFormed(t) && forall i :: 0 <= i < |s| ==> Printable(s[i])
    ensures var t' := PutAll(t, s);
            && t'.cur == RowOf(t.cur, t.col + |s|) && t'.col == ColOf(t.col + |s|) && t'.color == t.color
            && forall i :: 0 <= i < |s| ==> ShowsAt(t', t.cur, t.col + i, s[i], t.color)
  {
    hide Put, RowOf, ColOf;
    if s == [] {
      StartPlace(t.cur, t.col);
    } else {
      var n := |s| - 1;
      var u := PutAll(t, s[..n]);
      PrintWraps(t, s[..n]);
      PrintableLaw(u, s[n]);
      RowStep(t.cur, t.col + n);
      var t' := Put(u, s[n]);
      forall i | 0 <= i < |s| ensures ShowsAt(t', t.cur, t.col + i, s[i], t.color) {
        if i < n {
          assert ShowsAt(u, t.cur, t.col + i, s[..n][i], t.color);
          PlacesDiffer(t.cur, t.col + i, t.col + n);
        }
      }
    }
  }

  lemma StartPlace(cur: nat, col: nat)
    requires col < 80
    ensures RowOf(cur, col) == cur && ColOf(col) == col
  {}

  lemma RowStep(cur: nat, n: nat)
    ensures ColOf(n) < 80
    ensures RowOf(cur, n + 1) == (if ColOf(n) < 79 then RowOf(cur, n) else RowOf(cur, n) + 1)
    ensures ColOf(n + 1) == if ColOf(n) < 79 then ColOf(n) + 1 else 0
  {
    NextPlace(n);
  }

  lemma {:induction false} PutAllConcat(t: Terminal, s: seq<byte>, u: seq<byte>)
    requires WellFormed(t)
    ensures PutAll(t, s + u) == PutAll(PutAll(t, s), u)
  {
    hide Put;
    if u == [] {
      assert s + u == s;
    } else {
      PutAllConcat(t, s, u[..|u| - 1]);
      assert (s + u)[..|s + u| - 1] == s + u[..|u| - 1];
    }
  }

  lemma PutAllOne(t: Terminal, c: byte)
    requires WellFormed(t)
    ensures PutAll(t, [c]) == Put(t, c)
  {
    hide Put;
    assert [c][..0] == [];
  }

  /** Two short lines with a newline between them stand in consecutive rows, one below the other. */
  lemma TwoLines(t: Terminal, s: seq<byte>, u: seq<byte>)
    requires WellFormed(t) && BlankBelow(t) && t.col + |s| < 80 && |u| < 80
    requires (forall i :: 0 <= i < |s| ==> Printable(s[i])) && forall i :: 0 <= i < |u| ==> Printable(u[i])
    ensures var t' := PutAll(t, s + [NEWLINE] + u);
            && t'.cur == t.cur + 1 && t'.col == |u|
            && t'.rows[t.cur] == Overlay(t.rows[t.cur], t.col, Entries(s, t.color))
            && t'.rows[t.cur + 1][..|u|] == Entries(u, t.color)
            && forall i :: 0 <= i < t.cur ==> t'.rows[i] == t.rows[i]
  {
    hide Put, PutAll, Overlay, Entries, IsBlank, BlankRow;
    var t1 := PutAll(t, s);
    PrintsInPlace(t, s);
    assert BlankBelow(t1);
    NewlineLaw(t1);
    var t2 := Put(t1, NEWLINE);
    PrintsInPlace(t2, u);
    PutAllConcat(t, s, [NEWLINE]);
    PutAllOne(t1, NEWLINE);
    PutAllConcat(t, s + [NEWLINE], u);
    OverlayStart(t2.rows[t2.cur], Entries(u, t.color));
  }

  lemma OverlayStart(row: seq<Cell>, cells: seq<Cell>)
    requires |cells| <= |row|
    ensures Overlay(row, 0, cells)[..|cells|] == cells
  {}

  // ----- decimal numbers

  function Dec(n: nat): (s: seq<byte>)
    ensures |s| >= 1
  {
    if n < 10 then [48 + n] else Dec(n / 10) + [48 + n % 10]
  }

  /** The number that a string of digits denotes. */
  function Value(s: seq<byte>): int {
    if s == [] then 0 else 10 * Value(s[..|s| - 1]) + (s[|s| - 1] as int - 48)
  }

  lemma {:induction false} DecDenotes(n: nat)
    ensures Value(Dec(n)) == n
    ensures forall i :: 0 <= i < |Dec(n)| ==> 48 <= Dec(n)[i] <= 57
    ensures n > 0 ==> Dec(n)[0] != 48
  {
    if n < 10 {
      assert Dec(n)[..0] == [];
    } else {
      DecDenotes(n / 10);
      var s := Dec(n);
      assert s[..|s| - 1] == Dec(n / 10);
    }
  }

  lemma DecLength(n: nat)
    requires n < U32
    ensures |Dec(n)| <= 10
  {
    DecBound(n, 10);
  }

  function Pow10(k: nat): nat { if k == 0 then 1 else 10 * Pow10(k - 1) }

  lemma {:induction false} DecBound(n: nat, k: nat)
    requires k >= 1 && n < Pow10(k)
    ensures |Dec(n)| <= k
  {
    if n >= 10 { DecBound(n / 10, k - 1); }
  }
}

/**
 term_putchar as the terminal carries it out, on its fields and its grid array;
 every character has the effect that `Terminal.Put` gives it.
 */
module TerminalDriver {
  import opened Terminal

  /** atoi */
  method ParseInt(s: seq<int>, from: nat) returns (res: int)
    requires from <= |s|
    ensures res == Atoi(s[from..])
  {
    res := 0;
    var i := from;
    while i < |s| && IsDigit(s[i])
      invariant from <= i <= |s| && AtoiFrom(s[i..], res) == Atoi(s[from..])
    {
      assert s[i..][1..] == s[i + 1..];
      res := res * 10 + (s[i] - '0' as int);
      i := i + 1;
    }
  }

  /** strchr for `;`, from `from` on. */
  method FindSemi(s: seq<int>, from: nat) returns (i: nat)
    requires from <= |s|
    ensures i == from + Semi(s[from..])
  {
    i := from;
    while i < |s| && s[i] != ';' as int
      invariant from <= i <= |s| && i + Semi(s[i..]) == from + Semi(s[from..])
    {
      assert s[i..][1..] == s[i + 1..];
      i := i + 1;
    }
  }

  /** The text in the buffer up to a zero byte. */
  method Text(s: seq<int>) returns (r: seq<int>)
    ensures r == CStr(s)
  {
    var i := 0;
    while i < |s| && s[i] != 0
      invariant 0 <= i <= |s| && s[..i] + CStr(s[i..]) == CStr(s)
    {
      assert s[i..][1..] == s[i + 1..];
      assert s[..i] + ([s[i]] + CStr(s[i + 1..])) == s[..i + 1] + CStr(s[i + 1..]);
      i := i + 1;
    }
    r := s[..i];
    assert s[..i] + [] == s[..i];
  }

  class Emulator {
    const grid: array<Cell>
    var y: int
    var x: int
    var maxY: int
    var cols: int
    var rows: int
    var scroll: int
    var state: int
    var buf: seq<int>
    var fg: int
    var bg: int

    function Now(): Term
      reads this, grid
    {
      Term(grid[..], y, x, maxY, cols, rows, scroll, state, buf, fg, bg)
    }

    constructor (cols: int, rows: int)
      requires 1 <= cols <= WIDTH && 1 <= rows <= LINES
      ensures Valid(Now()) && Top(Now()) == 0 && fresh(grid)
      ensures forall i :: 0 <= i < grid.Length ==> grid[i] == Cell(' ' as int, C_TEXT, C_BG)
    {
      grid := new Cell[LINES * WIDTH](_ => Cell(' ' as int, C_TEXT, C_BG));
      y, x, maxY, scroll, state, buf := 0, 0, 0, 0, 0, [];
      this.cols, this.rows, fg, bg := cols, rows, C_TEXT, C_BG;
    }

    /** The loops of term_newline over the grid. */
    method ShiftGrid()
      requires grid.Length == LINES * WIDTH
      modifies grid
      ensures grid[..] == Shifted(old(grid[..]))
    {
      forall i | 0 <= i < (LINES - SHIFT) * WIDTH { grid[i] := grid[i + SHIFT * WIDTH]; }
      var i := LINES - SHIFT;
      while i < LINES
        invariant LINES - SHIFT <= i <= LINES
        invariant forall j :: 0 <= j < (LINES - SHIFT) * WIDTH ==> grid[j] == old(grid[j + SHIFT * WIDTH])
        invariant forall j :: (LINES - SHIFT) * WIDTH <= j < i * WIDTH ==>
          grid[j] == old(grid[j]).(c := ' ' as int, bg := C_BG)
        invariant forall j :: i * WIDTH <= j < grid.Length ==> grid[j] == old(grid[j])
      {
        var c := 0;
        while c < WIDTH
          invariant 0 <= c <= WIDTH
          invariant forall j :: 0 <= j < (LINES - SHIFT) * WIDTH ==> grid[j] == old(grid[j + SHIFT * WIDTH])
          invariant forall j :: (LINES - SHIFT) * WIDTH <= j < i * WIDTH + c ==>
            grid[j] == old(grid[j]).(c := ' ' as int, bg := C_BG)
          invariant forall j :: i * WIDTH + c <= j < grid.Length ==> grid[j] == old(grid[j])
        {
          grid[At(i, c)] := grid[At(i, c)].(c := ' ' as int, bg := C_BG);
          c := c + 1;
        }
        i := i + 1;
      }
    }

    method Newline()
      requires Valid(Now())
      modifies this, grid
      ensures Now() == Terminal.Newline(old(Now()))
    {
      x := 0;
      y := y + 1;
      if y > maxY { maxY := y; }
      if y >= LINES {
        ShiftGrid();
        y := y - SHIFT;
        maxY := maxY - SHIFT;
      }
      if scroll > 0 { scroll := 0; }
    }

    /** The loops of the J sequence. */
    method Erase()
      requires Valid(Now())
      modifies grid
      ensures Now() == EraseScreen(old(Now()))
    {
      var top := maxY - rows + 1 - scroll;
      if top < 0 { top := 0; }
      var r := top;
      while r < top + rows && r < LINES
        invariant top <= r <= top + rows && r <= LINES
        invariant forall j :: 0 <= j < grid.Length ==>
          grid[j] == if InRect(j, top, r - top, cols) then old(grid[j]).(c := ' ' as int, bg := bg) else old(grid[j])
      {
        var col := 0;
        while col < cols
          invariant 0 <= col <= cols
          invariant forall j :: 0 <= j < grid.Length ==>
            grid[j] ==
              if InRect(j, top, r - top, cols) || InRect(j, r, 1, col) then old(grid[j]).(c := ' ' as int, bg := bg)
              else old(grid[j])
        {
          grid[At(r, col)] := grid[At(r, col)].(c := ' ' as int, bg := bg);
          col := col + 1;
        }
        r := r + 1;
      }
      assert top == Top(old(Now()));
    }

    method SetColour(code: int)
      modifies this`fg, this`bg
      ensures Now() == Sgr(old(Now()), code)
    {
      if code == 0 { fg, bg := C_TEXT, C_BG; }
      else if 30 <= code <= 37 { fg := Rgb(code - 30); }
      else if 40 <= code <= 47 { bg := Rgb(code - 40); }
      else if 90 <= code <= 97 { fg := Rgb(code - 90 + 8); }
      else if 100 <= code <= 107 { bg := Rgb(code - 100 + 8); }
    }

    /** The loop over the codes of an m sequence. */
    method SetColours(s: seq<int>)
      modifies this`fg, this`bg
      ensures Now() == SgrAll(old(Now()), s)
    {
      var p := 0;
      while p < |s|
        invariant 0 <= p <= |s|
        invariant SgrAll(Now(), s[p..]) == SgrAll(old(Now()), s)
      {
        var code := ParseInt(s, p);
        var q := FindSemi(s, p);
        assert q < |s| ==> s[p..][Semi(s[p..]) + 1..] == s[q + 1..];
        SetColour(code);
        p := if q < |s| then q + 1 else q;
      }
    }

    /** The parameters of an H sequence. */
    method CupArgs() returns (r: int, col: int)
      ensures Cup(Now()) == MoveTo(Now(), r, col)
    {
      r, col := 1, 1;
      if buf != [] {
        var s := Text(buf);
        var i := FindSemi(s, 0);
        assert s[0..] == s;
        if i < |s| {
          r := ParseInt(s[..i], 0);
          assert s[..i][0..] == s[..i];
          col := ParseInt(s, i + 1);
        } else {
          r := ParseInt(s, 0);
        }
      }
    }

    method MoveCursor()
      requires Valid(Now())
      modifies this`y, this`x, this`maxY
      ensures Now() == Cup(old(Now()))
    {
      var r, col := CupArgs();
      if r < 1 { r := 1; }
      if col < 1 { col := 1; }
      if r > rows { r := rows; }
      if col > cols { col := cols; }
      var top := maxY - rows + 1 - scroll;
      if top < 0 { top := 0; }
      var row := top + r - 1;
      if row > maxY { maxY := row; }
      y := if row >= LINES then LINES - 1 else row;
      x := if col - 1 >= WIDTH then WIDTH - 1 else col - 1;
    }

    method Finish(c: int)
      requires Valid(Now())
      modifies this, grid
      ensures Now() == Final(old(Now()), c)
    {
      var n := ParseInt(buf, 0);
      assert buf[0..] == buf;
      AtoiNat(buf, 0);
      if n == 0 { n := 1; }
      if c == 'm' as int {
        if buf == [] { fg, bg := C_TEXT, C_BG; } else { var s := Text(buf); SetColours(s); }
      } else if c == 'J' as int {
        var s := Text(buf);
        if buf == [] || s == ['2' as int] { Erase(); }
      } else if c == 'H' as int || c == 'f' as int {
        MoveCursor();
      } else if c == 'A' as int {
        y := y - n;
        if y < 0 { y := 0; }
      } else if c == 'B' as int {
        y := y + n;
        if y >= LINES { y := LINES - 1; }
        if y > maxY { maxY := y; }
      } else if c == 'C' as int {
        x := x + n;
        if x >= cols { x := cols - 1; }
      } else if c == 'D' as int {
        x := x - n;
        if x < 0 { x := 0; }
      }
    }

    /** The plain character `c` at the cursor. */
    method ShowChar(c: int, colour: int)
      requires Valid(Now())
      modifies this, grid
      ensures Now() == Show(old(Now()), c, colour)
    {
      NewlineValid(Now());
      if x >= cols { Newline(); }
      grid[At(y, x)] := Cell(c, if colour != 0 then colour else fg, bg);
      x := x + 1;
      if y > maxY { maxY := y; }
    }

    method PutChar(c: int, colour: int)
      requires Valid(Now())
      modifies this, grid
      ensures Now() == Put(old(Now()), c, colour) && Valid(Now())
    {
      PutValid(Now(), c, colour);
      if state == 1 {
        if c == '[' as int { state, buf := 2, []; } else { state := 0; }
      } else if state == 2 {
        if IsLetter(c) {
          Finish(c);
          state := 0;
        } else if |buf| < BUF {
          buf := buf + [c];
        } else {
          state := 0;
        }
      } else if c == ESC {
        state := 1;
      } else if c == NEWLINE || c == RETURN {
        Newline();
      } else if c == BACKSPACE {
        if x > 0 {
          x := x - 1;
          grid[At(y, x)] := grid[At(y, x)].(c := ' ' as int);
        }
      } else {
        ShowChar(c, colour);
      }
    }

    /** term_print, in the terminal's own colours. */
    method Print(s: seq<int>)
      requires Valid(Now())
      modifies this, grid
      ensures Now() == Feed(old(Now()), s)
    {
      var i := 0;
      while i < |s|
        invariant 0 <= i <= |s| && Valid(Now())
        invariant Feed(Now(), s[i..]) == Feed(old(Now()), s)
      {
        assert s[i..][1..] == s[i + 1..];
        PutChar(s[i], 0);
        i := i + 1;
      }
    }
  }

  lemma {:induction false} AtoiNat(s: seq<int>, res: int)
    requires res >= 0
    ensures AtoiFrom(s, res) >= 0
  {
    if s != [] && IsDigit(s[0]) { AtoiNat(s[1..], res * 10 + (s[0] - '0' as int)); }
  }
}

/**
 The ANSI state machine of the graphical terminal (userland/apps/gterm.c):
 a step per character, on the grid of the scrollback.
 */
module Terminal {
  const LINES: int := 1000
  const WIDTH: int := 512
  const SHIFT: int := 100
  const C_TEXT: int := 0xCCCCCC
  const C_BG: int := 0x1E1E1E
  const BUF: int := 63

  const BACKSPACE: int := 8
  const NEWLINE: int := 10
  const RETURN: int := 13
  const ESC: int := 27

  datatype Cell = Cell(c: int, fg: int, bg: int)

  datatype Term = Term(grid: seq<Cell>, y: int, x: int, maxY: int, cols: int, rows: int, scroll: int,
                       state: int, buf: seq<int>, fg: int, bg: int)

  /** The VGA palette. */
  function Rgb(k: int): int {
    match k
    case 0 => 0x000000 case 1 => 0x0000AA case 2 => 0x00AA00 case 3 => 0x00AAAA
    case 4 => 0xAA0000 case 5 => 0xAA00AA case 6 => 0xAA5500 case 7 => 0xAAAAAA
    case 8 => 0x555555 case 9 => 0x5555FF case 10 => 0x55FF55 case 11 => 0x55FFFF
    case 12 => 0xFF5555 case 13 => 0xFF55FF case 14 => 0xFFFF55 case _ => 0xFFFFFF
  }

  predicate Valid(t: Term) {
    && |t.grid| == LINES * WIDTH && 1 <= t.cols <= WIDTH && 1 <= t.rows <= LINES
    && 0 <= t.y < LINES && 0 <= t.x <= WIDTH && 0 <= t.maxY < LINES && 0 <= t.scroll
    && 0 <= t.state <= 2 && |t.buf| <= BUF
  }

  function Max(a: int, b: int): int { if a < b then b else a }

  function At(r: int, c: int): int { r * WIDTH + c }

  // ----- Strings as the C library reads them -----

  /** Up to the terminating zero. */
  function CStr(s: seq<int>): seq<int> {
    if s == [] || s[0] == 0 then [] else [s[0]] + CStr(s[1..])
  }

  predicate IsDigit(c: int) { '0' as int <= c <= '9' as int }

  predicate IsLetter(c: int) { 'a' as int <= c <= 'z' as int || 'A' as int <= c <= 'Z' as int }

  /** atoi, continued from the value `res`. */
  function AtoiFrom(s: seq<int>, res: int): int {
    if s == [] || !IsDigit(s[0]) then res else AtoiFrom(s[1..], res * 10 + (s[0] - '0' as int))
  }

  function Atoi(s: seq<int>): int { AtoiFrom(s, 0) }

  /** The index of the first `;`, or the length. */
  function Semi(s: seq<int>): (i: nat)
    ensures i <= |s| && (i < |s| ==> s[i] == ';' as int)
  {
    if s == [] || s[0] == ';' as int then 0 else 1 + Semi(s[1..])
  }

  // ----- The sequences -----

  /** One SGR code. */
  function Sgr(t: Term, code: int): Term {
    if code == 0 then t.(fg := C_TEXT, bg := C_BG)
    else if 30 <= code <= 37 then t.(fg := Rgb(code - 30))
    else if 40 <= code <= 47 then t.(bg := Rgb(code - 40))
    else if 90 <= code <= 97 then t.(fg := Rgb(code - 90 + 8))
    else if 100 <= code <= 107 then t.(bg := Rgb(code - 100 + 8))
    else t
  }

  /** The codes of an SGR sequence, separated by `;`. */
  function SgrAll(t: Term, s: seq<int>): Term
    decreases |s|
  {
    if s == [] then t
    else if Semi(s) < |s| then SgrAll(Sgr(t, Atoi(s)), s[Semi(s) + 1..])
    else Sgr(t, Atoi(s))
  }

  /** The grid row of the first screen row. */
  function Top(t: Term): int { Max(0, t.maxY - t.rows + 1 - t.scroll) }

  function Clamp(v: int, low: int, high: int): int { if v < low then low else if v > high then high else v }

  /** CUP with the row and column as given, counted from 1. */
  function MoveTo(t: Term, r: int, col: int): Term {
    var y := Top(t) + Clamp(r, 1, t.rows) - 1;
    var x := Clamp(col, 1, t.cols) - 1;
    t.(y := if y >= LINES then LINES - 1 else y, x := if x >= WIDTH then WIDTH - 1 else x, maxY := Max(t.maxY, y))
  }

  function Cup(t: Term): Term {
    var s := CStr(t.buf);
    if t.buf == [] then MoveTo(t, 1, 1)
    else if Semi(s) < |s| then MoveTo(t, Atoi(s[..Semi(s)]), Atoi(s[Semi(s) + 1..]))
    else MoveTo(t, Atoi(s), 1)
  }

  predicate InRect(i: int, top: int, rows: int, cols: int) {
    top <= i / WIDTH < top + rows && i % WIDTH < cols
  }

  function EraseScreen(t: Term): Term {
    t.(grid := seq(|t.grid|, i requires 0 <= i < |t.grid| =>
      if InRect(i, Top(t), t.rows, t.cols) then t.grid[i].(c := ' ' as int, bg := t.bg) else t.grid[i]))
  }

  /** The final letter of a control sequence. */
  function Final(t: Term, c: int): Term {
    var n := Max(Atoi(t.buf), 1);
    if c == 'm' as int then (if t.buf == [] then Sgr(t, 0) else SgrAll(t, CStr(t.buf)))
    else if c == 'J' as int then (if t.buf == [] || CStr(t.buf) == ['2' as int] then EraseScreen(t) else t)
    else if c == 'H' as int || c == 'f' as int then Cup(t)
    else if c == 'A' as int then t.(y := Max(t.y - n, 0))
    else if c == 'B' as int then
      var y := if t.y + n >= LINES then LINES - 1 else t.y + n;
      t.(y := y, maxY := Max(t.maxY, y))
    else if c == 'C' as int then t.(x := if t.x + n >= t.cols then t.cols - 1 else t.x + n)
    else if c == 'D' as int then t.(x := Max(t.x - n, 0))
    else t
  }

  /** The scrollback loses its first lines. */
  function Shifted(grid: seq<Cell>): seq<Cell>
    requires |grid| == LINES * WIDTH
  {
    seq(|grid|, i requires 0 <= i < |grid| =>
      if i < (LINES - SHIFT) * WIDTH then grid[i + SHIFT * WIDTH] else grid[i].(c := ' ' as int, bg := C_BG))
  }

  function Newline(t: Term): Term
    requires Valid(t)
  {
    var t1 := t.(x := 0, y := t.y + 1, maxY := Max(t.maxY, t.y + 1), scroll := 0);
    if t1.y >= LINES then t1.(grid := Shifted(t1.grid), y := t1.y - SHIFT, maxY := t1.maxY - SHIFT) else t1
  }

  lemma NewlineValid(t: Term)
    requires Valid(t)
    ensures Valid(Newline(t))
  {}

  /** A character is written at the cursor. */
  function Show(t: Term, c: int, fg: int): Term
    requires Valid(t)
  {
    var t1 := if t.x >= t.cols then Newline(t) else t;
    t1.(grid := t1.grid[At(t1.y, t1.x) := Cell(c, if fg != 0 then fg else t1.fg, t1.bg)], x := t1.x + 1,
      maxY := Max(t1.maxY, t1.y))
  }

  /** term_putchar. */
  function Put(t: Term, c: int, fg: int): Term
    requires Valid(t)
  {
    if t.state == 1 then (if c == '[' as int then t.(state := 2, buf := []) else t.(state := 0))
    else if t.state == 2 then
      if IsLetter(c) then Final(t, c).(state := 0)
      else if |t.buf| < BUF then t.(buf := t.buf + [c])
      else t.(state := 0)
    else if c == ESC then t.(state := 1)
    else if c == NEWLINE || c == RETURN then Newline(t)
    else if c == BACKSPACE then
      if t.x > 0 then t.(x := t.x - 1, grid := t.grid[At(t.y, t.x - 1) := t.grid[At(t.y, t.x - 1)].(c := ' ' as int)])
      else t
    else Show(t, c, fg)
  }

  // ----- No character takes the cursor off the grid -----

  lemma {:induction false} SgrKeeps(t: Term, s: seq<int>)
    ensures SgrAll(t, s) == t.(fg := SgrAll(t, s).fg, bg := SgrAll(t, s).bg)
    decreases |s|
  {
    if s != [] && Semi(s) < |s| { SgrKeeps(Sgr(t, Atoi(s)), s[Semi(s) + 1..]); }
  }

  /** Moving the cursor by rows and columns does not scroll: the screen keeps its place in the grid. */
  lemma MoveKeepsTop(t: Term, r: int, col: int)
    requires Valid(t)
    ensures Valid(MoveTo(t, r, col)) && Top(MoveTo(t, r, col)) == Top(t) && Top(t) + t.rows <= LINES
    ensures 1 <= r <= t.rows && 1 <= col <= t.cols ==>
      MoveTo(t, r, col).y == Top(t) + r - 1 && MoveTo(t, r, col).x == col - 1
  {}

  lemma FinalValid(t: Term, c: int)
    requires Valid(t)
    ensures Valid(Final(t, c))
  {
    SgrKeeps(t, CStr(t.buf));
    var s := CStr(t.buf);
    MoveKeepsTop(t, 1, 1);
    MoveKeepsTop(t, Atoi(s), 1);
    if Semi(s) < |s| { MoveKeepsTop(t, Atoi(s[..Semi(s)]), Atoi(s[Semi(s) + 1..])); }
  }

  /** Every character keeps the terminal well formed: cursor on the grid, lines within the scrollback. */
  lemma PutValid(t: Term, c: int, fg: int)
    requires Valid(t)
    ensures Valid(Put(t, c, fg))
  {
    if t.state == 2 { FinalValid(t, c); }
    NewlineValid(t);
  }

  function Feed(t: Term, s: seq<int>): (r: Term)
    requires Valid(t)
    ensures Valid(r)
    decreases |s|
  {
    if s == [] then t else PutValid(t, s[0], 0); Feed(Put(t, s[0], 0), s[1..])
  }

  lemma {:induction false} FeedAppend(t: Term, a: seq<int>, b: seq<int>)
    requires Valid(t)
    ensures Feed(t, a + b) == Feed(Feed(t, a), b)
    decreases |a|
  {
    if a == [] {
      assert a + b == b;
    } else {
      PutValid(t, a[0], 0);
      assert (a + b)[1..] == a[1..] + b;
      FeedAppend(Put(t, a[0], 0), a[1..], b);
    }
  }
}

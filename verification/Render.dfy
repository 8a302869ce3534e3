/**
 The editor's screen update (render_screen in userland/apps/nani.c): the
 difference between two screens is compiled into escape sequences which,
 interpreted by the terminal, turn the one into the other.
 */
module Render {
  import opened Terminal

  // ----- Numbers -----

  /** %d of a number that is not negative. */
  function Decimal(n: nat): (s: seq<int>)
    ensures |s| > 0
  {
    if n < 10 then ['0' as int + n] else Decimal(n / 10) + ['0' as int + n % 10]
  }

  function Reversed(s: seq<int>): seq<int> {
    if s == [] then [] else [s[|s| - 1]] + Reversed(s[..|s| - 1])
  }

  /** The digit loops of vsprintf: digits are collected from the right and copied out backwards. */
  method FormatInt(n: nat) returns (s: seq<int>)
    ensures s == Decimal(n)
  {
    if n == 0 { return ['0' as int]; }
    var buf, m := [], n;
    while m > 0
      invariant 0 <= m
      invariant m > 0 ==> Decimal(m) + Reversed(buf) == Decimal(n)
      invariant m == 0 ==> Reversed(buf) == Decimal(n)
    {
      ghost var was := Reversed(buf);
      buf := buf + [m % 10 + '0' as int];
      assert buf[..|buf| - 1] + [buf[|buf| - 1]] == buf;
      assert Reversed(buf) == [m % 10 + '0' as int] + was;
      assert m >= 10 ==> Decimal(m) + was == Decimal(m / 10) + Reversed(buf);
      m := m / 10;
    }
    s := [];
    var i := |buf|;
    assert buf[..i] == buf;
    while i > 0
      invariant 0 <= i <= |buf|
      invariant s + Reversed(buf[..i]) == Reversed(buf)
    {
      i := i - 1;
      assert buf[..i + 1][..i] == buf[..i];
      s := s + [buf[i]];
    }
    assert s + Reversed(buf[..0]) == s;
  }

  ghost predicate AllDigits(s: seq<int>) { forall c :: c in s ==> IsDigit(c) }

  lemma {:induction false} DecimalDigits(n: nat)
    ensures AllDigits(Decimal(n))
  {
    if n >= 10 { DecimalDigits(n / 10); }
  }

  lemma {:induction false} AtoiAppend(a: seq<int>, b: seq<int>, res: int)
    requires AllDigits(a)
    ensures AtoiFrom(a + b, res) == AtoiFrom(b, AtoiFrom(a, res))
  {
    if a == [] {
      assert a + b == b;
    } else {
      assert IsDigit(a[0]) && (a + b)[1..] == a[1..] + b;
      AtoiAppend(a[1..], b, res * 10 + (a[0] - '0' as int));
    }
  }

  /** The terminal reads back the number that was printed. */
  lemma {:induction false} AtoiOfDecimal(n: nat)
    ensures Atoi(Decimal(n)) == n
  {
    var d := ['0' as int + n % 10];
    assert d[1..] == [];
    if n >= 10 {
      AtoiOfDecimal(n / 10);
      DecimalDigits(n / 10);
      AtoiAppend(Decimal(n / 10), d, 0);
      assert AtoiFrom(d, n / 10) == AtoiFrom([], n);
    } else {
      assert AtoiFrom(d, 0) == AtoiFrom([], n);
    }
  }

  lemma DecimalShort(n: nat)
    requires n < 10000
    ensures |Decimal(n)| <= 4
  {
    if n >= 10 {
      assert |Decimal(n / 10)| <= 3 by {
        if n >= 100 { assert |Decimal(n / 100)| <= 2; assert n / 10 / 10 == n / 100; }
      }
    }
  }

  // ----- Sequences -----

  /** ESC [ row ; column H */
  function CupSeq(r: nat, c: nat): seq<int> {
    [ESC, '[' as int] + (Decimal(r) + [';' as int] + Decimal(c)) + ['H' as int]
  }

  function SgrSeq(code: seq<int>): seq<int> { [ESC, '[' as int] + code + ['m' as int] }

  const RESET: seq<int> := SgrSeq(['0' as int])
  const BLACK: seq<int> := SgrSeq(['3' as int, '0' as int])
  const ON_WHITE: seq<int> := SgrSeq(['4' as int, '7' as int])

  /** What the editor emits for colour `k`. */
  function ColSeq(k: int): seq<int> { if k == 1 then BLACK + ON_WHITE else RESET }

  /** The colours the editor means by `k`. */
  function Fg(k: int): int { if k == 1 then 0x000000 else C_TEXT }
  function Bg(k: int): int { if k == 1 then 0xAAAAAA else C_BG }

  ghost predicate NoLetters(s: seq<int>) { forall c :: c in s ==> !IsLetter(c) && c != 0 }

  lemma {:induction false} CStrPlain(s: seq<int>)
    requires NoLetters(s)
    ensures CStr(s) == s
  {
    if s != [] {
      assert s[0] in s;
      CStrPlain(s[1..]);
    }
  }

  lemma {:induction false} FeedParams(t: Term, s: seq<int>)
    requires Valid(t) && t.state == 2 && |t.buf| + |s| <= BUF && NoLetters(s)
    ensures Feed(t, s) == t.(buf := t.buf + s)
    decreases |s|
  {
    if s == [] {
      assert t.buf + s == t.buf;
    } else {
      assert s[0] in s;
      var t1 := Put(t, s[0], 0);
      assert t1.buf + s[1..] == t.buf + s;
      FeedParams(t1, s[1..]);
    }
  }

  lemma FeedOne(t: Term, c: int)
    requires Valid(t)
    ensures Feed(t, [c]) == Put(t, c, 0)
  {
    PutValid(t, c, 0);
    assert [c][1..] == [];
  }

  /** A whole control sequence takes effect at its final letter. */
  lemma FeedCsi(t: Term, s: seq<int>, f: int)
    requires Valid(t) && t.state == 0 && |s| <= BUF && NoLetters(s) && IsLetter(f)
    ensures Feed(t, [ESC, '[' as int] + s + [f]) == Final(t.(state := 2, buf := s), f).(state := 0)
  {
    var t2 := t.(state := 2, buf := []);
    var open := [ESC, '[' as int];
    assert open == [ESC] + ['[' as int];
    FeedAppend(t, [ESC], ['[' as int]);
    FeedOne(t, ESC);
    FeedOne(t.(state := 1), '[' as int);
    FeedAppend(t, open, s);
    FeedParams(t2, s);
    assert [] + s == s;
    FeedAppend(t, open + s, [f]);
    FeedOne(t.(state := 2, buf := s), f);
  }

  lemma {:induction false} SemiDigits(a: seq<int>, b: seq<int>)
    requires AllDigits(a)
    ensures Semi(a + [';' as int] + b) == |a|
  {
    var s := a + [';' as int] + b;
    if a != [] {
      assert IsDigit(a[0]);
      assert s[1..] == a[1..] + [';' as int] + b;
      SemiDigits(a[1..], b);
    }
  }

  /** What a cursor movement, a colour or a character may change. */
  predicate SameShape(t: Term, u: Term) {
    Valid(u) && u.cols == t.cols && u.rows == t.rows && u.scroll == t.scroll && u.state == 0 && Top(u) == Top(t)
  }

  lemma FeedCup(t: Term, r: nat, c: nat)
    requires Valid(t) && t.state == 0 && 1 <= r <= t.rows && 1 <= c <= t.cols
    ensures var u := Feed(t, CupSeq(r, c));
      && SameShape(t, u) && u.grid == t.grid && u.fg == t.fg && u.bg == t.bg
      && u.y == Top(t) + r - 1 && u.x == c - 1 && u.y <= u.maxY
  {
    var s := Decimal(r) + [';' as int] + Decimal(c);
    CupText(r, c);
    FeedCsi(t, s, 'H' as int);
    CupMoves(t.(state := 2, buf := s), r, c);
    MoveKeepsTop(t.(state := 2, buf := s), r, c);
  }

  lemma CupMoves(t: Term, r: nat, c: nat)
    requires r < 10000 && c < 10000 && t.buf == Decimal(r) + [';' as int] + Decimal(c)
    ensures Final(t, 'H' as int) == MoveTo(t, r, c)
  {
    CupText(r, c);
    AtoiOfDecimal(r); AtoiOfDecimal(c);
  }

  /** The parameters of a position sequence, as the emulator takes them apart. */
  lemma CupText(r: nat, c: nat)
    requires r < 10000 && c < 10000
    ensures var s := Decimal(r) + [';' as int] + Decimal(c);
      && |s| <= BUF && NoLetters(s) && CStr(s) == s
      && Semi(s) == |Decimal(r)| && s[..Semi(s)] == Decimal(r) && s[Semi(s) + 1..] == Decimal(c)
  {
    var s := Decimal(r) + [';' as int] + Decimal(c);
    DecimalDigits(r); DecimalDigits(c);
    DecimalShort(r); DecimalShort(c);
    CStrPlain(s);
    SemiDigits(Decimal(r), Decimal(c));
  }

  lemma FeedSgr(t: Term, code: seq<int>)
    requires Valid(t) && t.state == 0 && |code| == 2 && IsDigit(code[0]) && IsDigit(code[1])
    ensures Feed(t, SgrSeq(code)) == Sgr(t.(buf := code), (code[0] - '0' as int) * 10 + (code[1] - '0' as int))
  {
    FeedCsi(t, code, 'm' as int);
    TwoDigits(code);
  }

  /** A two-digit code, as the emulator reads it. */
  lemma TwoDigits(code: seq<int>)
    requires |code| == 2 && IsDigit(code[0]) && IsDigit(code[1])
    ensures NoLetters(code) && CStr(code) == code && Semi(code) == 2
    ensures Atoi(code) == (code[0] - '0' as int) * 10 + (code[1] - '0' as int)
  {
    CStrPlain(code);
    assert code[1..] == [code[1]] && code[1..][1..] == [];
    assert Semi(code[1..]) == 1 + Semi([]);
    assert Atoi(code) == AtoiFrom(code[1..], code[0] - '0' as int) ==
      AtoiFrom([], (code[0] - '0' as int) * 10 + (code[1] - '0' as int));
  }

  lemma FeedReset(t: Term)
    requires Valid(t) && t.state == 0
    ensures Feed(t, RESET) == t.(buf := ['0' as int], fg := C_TEXT, bg := C_BG)
  {
    var code := ['0' as int];
    FeedCsi(t, code, 'm' as int);
    CStrPlain(code);
    assert code[1..] == [];
    assert Atoi(code) == AtoiFrom([], 0) == 0;
    assert Semi(code) == 1 + Semi([]);
  }

  lemma FeedCol(t: Term, k: int)
    requires Valid(t) && t.state == 0
    ensures var u := Feed(t, ColSeq(k));
      SameShape(t, u) && u.grid == t.grid && u.y == t.y && u.x == t.x && u.maxY == t.maxY && u.fg == Fg(k)
        && u.bg == Bg(k)
  {
    if k == 1 {
      FeedAppend(t, BLACK, ON_WHITE);
      FeedSgr(t, ['3' as int, '0' as int]);
      FeedSgr(Feed(t, BLACK), ['4' as int, '7' as int]);
    } else {
      FeedReset(t);
    }
  }

  predicate Printable(c: int) { c != 0 && c != BACKSPACE && c != NEWLINE && c != RETURN && c != ESC }

  lemma FeedChar(t: Term, c: int)
    requires Valid(t) && t.state == 0 && Printable(c) && t.x < t.cols && t.y <= t.maxY
    ensures var u := Feed(t, [c]);
      && SameShape(t, u) && u.y == t.y && u.x == t.x + 1 && u.maxY == t.maxY && u.fg == t.fg && u.bg == t.bg
      && u.grid == t.grid[At(t.y, t.x) := Cell(c, t.fg, t.bg)]
  {
    FeedOne(t, c);
  }

  // ----- One cell -----

  /** What the editor emits for a cell that changed, with the cursor and colour it knows of. */
  function CellSeq(y: nat, x: nat, c: int, k: int, move: bool, recolour: bool): seq<int> {
    (if move then CupSeq(y + 1, x + 1) else []) + (if recolour then ColSeq(k) else []) + [c]
  }

  /** cur_y, cur_x and current_color of render_screen. */
  datatype Cursor = Cursor(y: int, x: int, colour: int)

  /** Where the editor takes the terminal's cursor and colours to be; -1 and 255 stand for unknown. */
  predicate Tracks(t: Term, k: Cursor) {
    && (k.y != -1 ==> t.y == Top(t) + k.y && t.x == k.x && t.y <= t.maxY)
    && (k.colour != 255 ==> t.fg == Fg(k.colour) && t.bg == Bg(k.colour))
  }

  lemma FeedCell(t: Term, y: nat, x: nat, c: int, k: int, cursor: Cursor)
    requires Valid(t) && t.state == 0 && y < t.rows && x < t.cols && Printable(c) && k != 255
    requires Tracks(t, cursor)
    ensures var u := Feed(t, CellSeq(y, x, c, k, cursor.y != y || cursor.x != x, cursor.colour != k));
      && SameShape(t, u) && Tracks(u, Cursor(y, x + 1, k))
      && 0 <= At(Top(t) + y, x) < |t.grid| && u.grid == t.grid[At(Top(t) + y, x) := Cell(c, Fg(k), Bg(k))]
  {
    var a := if cursor.y != y || cursor.x != x then CupSeq(y + 1, x + 1) else [];
    var b := if cursor.colour != k then ColSeq(k) else [];
    FeedLead(t, y, x, k, cursor, a, b);
    FeedChar(Feed(t, a + b), c);
    FeedAppend(t, a + b, [c]);
  }

  /** The position and colour sequences before a cell's character, each if it is needed. */
  lemma FeedLead(t: Term, y: nat, x: nat, k: int, cursor: Cursor, a: seq<int>, b: seq<int>)
    requires Valid(t) && t.state == 0 && y < t.rows && x < t.cols && k != 255 && Tracks(t, cursor)
    requires a == if cursor.y != y || cursor.x != x then CupSeq(y + 1, x + 1) else []
    requires b == if cursor.colour != k then ColSeq(k) else []
    ensures Lead(t, Feed(t, a + b), y, x, Fg(k), Bg(k))
  {
    FeedMove(t, y, x, cursor, a);
    FeedRecolour(t, Feed(t, a), y, x, k, cursor, b);
    FeedAppend(t, a, b);
  }

  /** From `t` to `u` the cursor has gone to (y, x) and the colours have become `fg` and `bg`. */
  predicate Lead(t: Term, u: Term, y: int, x: int, fg: int, bg: int) {
    && SameShape(t, u) && u.grid == t.grid && u.y == Top(t) + y <= u.maxY && u.x == x && u.fg == fg && u.bg == bg
  }

  lemma FeedMove(t: Term, y: nat, x: nat, cursor: Cursor, a: seq<int>)
    requires Valid(t) && t.state == 0 && y < t.rows && x < t.cols && Tracks(t, cursor)
    requires a == if cursor.y != y || cursor.x != x then CupSeq(y + 1, x + 1) else []
    ensures Lead(t, Feed(t, a), y, x, t.fg, t.bg)
  {
    if cursor.y != y || cursor.x != x { FeedCup(t, y + 1, x + 1); }
  }

  lemma FeedRecolour(t: Term, t1: Term, y: nat, x: nat, k: int, cursor: Cursor, b: seq<int>)
    requires Valid(t) && Tracks(t, cursor) && k != 255 && Lead(t, t1, y, x, t.fg, t.bg)
    requires b == if cursor.colour != k then ColSeq(k) else []
    ensures Lead(t, Feed(t1, b), y, x, Fg(k), Bg(k))
  {
    if cursor.colour != k { FeedCol(t1, k); }
  }

  // ----- The whole screen -----

  /** Cell (r, k) comes before (y, x), row by row. */
  predicate Before(r: int, k: int, y: int, x: int) { r < y || (r == y && k < x) }

  predicate Corner(r: int, k: int, rows: int, cols: int) { r == rows - 1 && k == cols - 1 }

  /** Screen cell (r, k) shows character `c` in the colours `k`. */
  predicate Shows(t: Term, top: int, r: int, k: int, c: int, col: int)
    requires |t.grid| == LINES * WIDTH && 0 <= top && 0 <= r && top + r < LINES && 0 <= k < WIDTH
  {
    t.grid[At(top + r, k)] == Cell(c, Fg(col), Bg(col))
  }

  /** The two screens the editor keeps: what it believes is shown, and what should be. */
  class Screens {
    const frontChar: array2<int>
    const frontCol: array2<int>
    const backChar: array2<int>
    const backCol: array2<int>
    const rows: nat
    const cols: nat

    constructor (rows: nat, cols: nat)
      ensures this.rows == rows && this.cols == cols && Valid()
      ensures fresh(frontChar) && fresh(frontCol) && fresh(backChar) && fresh(backCol)
      ensures forall r, k :: 0 <= r < rows && 0 <= k < cols ==> frontChar[r, k] == 0
    {
      this.rows, this.cols := rows, cols;
      frontChar := new int[rows, cols]((_, _) => 0);
      frontCol := new int[rows, cols]((_, _) => 255);
      backChar := new int[rows, cols]((_, _) => ' ' as int);
      backCol := new int[rows, cols]((_, _) => 0);
    }

    predicate Valid() {
      && frontChar.Length0 == rows && frontChar.Length1 == cols && frontCol.Length0 == rows && frontCol.Length1 == cols
      && backChar.Length0 == rows && backChar.Length1 == cols && backCol.Length0 == rows && backCol.Length1 == cols
      && frontChar != frontCol && frontChar != backChar && frontChar != backCol && frontCol != backChar
      && frontCol != backCol
    }

    predicate Same(r: int, k: int)
      requires Valid() && 0 <= r < rows && 0 <= k < cols
      reads frontChar, frontCol, backChar, backCol
    {
      frontChar[r, k] == backChar[r, k] && frontCol[r, k] == backCol[r, k]
    }

    /**
     Cell (r, k) when the cells before (y, x) are done: it shows what it should, or what the front
     screen records, if anything.
     */
    predicate CellOK(t: Term, r: int, k: int, y: int, x: int)
      requires Valid() && Terminal.Valid(t) && rows <= t.rows && cols <= t.cols && 0 <= r < rows && 0 <= k < cols
      reads frontChar, frontCol, backChar, backCol
    {
      if Before(r, k, y, x) && !Corner(r, k, rows, cols) then
        Shows(t, Top(t), r, k, backChar[r, k], backCol[r, k]) && Same(r, k)
      else frontChar[r, k] != 0 ==> Shows(t, Top(t), r, k, frontChar[r, k], frontCol[r, k])
    }

    ghost predicate AllOK(t: Term, y: int, x: int)
      requires Valid() && Terminal.Valid(t) && rows <= t.rows && cols <= t.cols
      reads frontChar, frontCol, backChar, backCol
    {
      forall r, k {:trigger CellOK(t, r, k, y, x)} :: 0 <= r < rows && 0 <= k < cols ==> CellOK(t, r, k, y, x)
    }

    /** A cell that needs no output, or the corner, is done. */
    lemma Skip(t: Term, y: int, x: int)
      requires Valid() && Terminal.Valid(t) && rows <= t.rows && cols <= t.cols && 0 <= y < rows && 0 <= x < cols
      requires AllOK(t, y, x) && (Corner(y, x, rows, cols) || (Same(y, x) && frontChar[y, x] != 0))
      ensures AllOK(t, y, x + 1)
    {
      var x' := x + 1;
      forall r, k | 0 <= r < rows && 0 <= k < cols ensures CellOK(t, r, k, y, x') { assert CellOK(t, r, k, y, x); }
    }

    lemma NextRow(t: Term, y: int)
      requires Valid() && Terminal.Valid(t) && rows <= t.rows && cols <= t.cols && AllOK(t, y, cols)
      ensures AllOK(t, y + 1, 0)
    {
      var y' := y + 1;
      forall r, k | 0 <= r < rows && 0 <= k < cols ensures CellOK(t, r, k, y', 0) { assert CellOK(t, r, k, y, cols); }
    }

    /** One changed cell is drawn: `u` is the terminal after its output. */
    method Draw(y: int, x: int, ghost t: Term, ghost u: Term)
      requires Valid() && Terminal.Valid(t) && rows <= t.rows && cols <= t.cols && 0 <= y < rows && 0 <= x < cols
      requires AllOK(t, y, x) && !Corner(y, x, rows, cols) && SameShape(t, u)
      requires u.grid == t.grid[At(Top(t) + y, x) := Cell(backChar[y, x], Fg(backCol[y, x]), Bg(backCol[y, x]))]
      modifies frontChar, frontCol
      ensures AllOK(u, y, x + 1)
    {
      label L:
      frontChar[y, x] := backChar[y, x];
      frontCol[y, x] := backCol[y, x];
      var x' := x + 1;
      forall r, k | 0 <= r < rows && 0 <= k < cols ensures CellOK(u, r, k, y, x') {
        assert old@L(CellOK(t, r, k, y, x));
        if (r, k) != (y, x) { assert At(Top(t) + r, k) != At(Top(t) + y, x); }
      }
    }

    ghost predicate BackOK()
      requires Valid()
      reads backChar, backCol
    {
      forall r, k :: 0 <= r < rows && 0 <= k < cols ==> Printable(backChar[r, k]) && backCol[r, k] != 255
    }

    /** The terminal `t`, fed with the output so far, is `u`, and the cells before (y, x) are done. */
    ghost predicate Progress(t: Term, out: seq<int>, u: Term, cursor: Cursor, y: int, x: int)
      requires Valid() && Terminal.Valid(t) && rows <= t.rows && cols <= t.cols
      reads frontChar, frontCol, backChar, backCol
    {
      && u == Feed(t, out) && SameShape(t, u) && Tracks(u, cursor) && OffScreenKept(t, u, rows, cols)
      && AllOK(u, y, x)
    }

    /** The loop body for a cell that changed. */
    method DrawCell(y: int, x: int, out: seq<int>, cursor: Cursor, ghost t: Term, ghost u: Term)
      returns (out': seq<int>, ghost u': Term)
      requires Valid() && Terminal.Valid(t) && rows <= t.rows && cols <= t.cols && 0 <= y < rows && 0 <= x < cols
      requires BackOK() && Progress(t, out, u, cursor, y, x) && !Corner(y, x, rows, cols)
      modifies frontChar, frontCol
      ensures Progress(t, out', u', Cursor(y, x + 1, backCol[y, x]), y, x + 1)
    {
      var c, k := backChar[y, x], backCol[y, x];
      FeedCell(u, y, x, c, k, cursor);
      var piece := EmitCell(y, x, c, k, cursor);
      FeedAppend(t, out, piece);
      u' := Feed(u, piece);
      OffScreenStep(t, u, u', rows, cols, y, x, Cell(c, Fg(k), Bg(k)));
      Draw(y, x, u, u');
      out' := out + piece;
    }

    /**
     The output turns any terminal that shows what the front screen records into one
     that shows the back screen, except for the bottom right corner, and touches nothing off the screen.
     */
    method RenderScreen(ghost t: Term) returns (out: seq<int>)
      requires Valid() && Terminal.Valid(t) && t.state == 0 && rows <= t.rows && cols <= t.cols && BackOK()
      requires forall r, k :: 0 <= r < rows && 0 <= k < cols && frontChar[r, k] != 0 ==>
        Shows(t, Top(t), r, k, frontChar[r, k], frontCol[r, k])
      modifies frontChar, frontCol
      ensures var u := Feed(t, out);
        && SameShape(t, u) && u.fg == C_TEXT && u.bg == C_BG && OffScreenKept(t, u, rows, cols)
        && (forall r, k :: 0 <= r < rows && 0 <= k < cols && !Corner(r, k, rows, cols) ==>
              Shows(u, Top(t), r, k, backChar[r, k], backCol[r, k]))
      ensures forall r, k :: 0 <= r < rows && 0 <= k < cols && !Corner(r, k, rows, cols) ==> Same(r, k)
      ensures old(AllSame()) ==> out == RESET
    {
      ghost var u;
      forall r, k | 0 <= r < rows && 0 <= k < cols ensures CellOK(t, r, k, 0, 0) {}
      out, u := RenderRows(t);
      FeedAppend(t, out, RESET);
      FeedReset(u);
      assert [] + RESET == RESET;
      out := out + RESET;
    }

    /** Both loops of the renderer. */
    method RenderRows(ghost t: Term) returns (out: seq<int>, ghost u: Term)
      requires Valid() && Terminal.Valid(t) && t.state == 0 && rows <= t.rows && cols <= t.cols && BackOK()
      requires AllOK(t, 0, 0)
      modifies frontChar, frontCol
      ensures u == Feed(t, out) && SameShape(t, u) && OffScreenKept(t, u, rows, cols)
      ensures AllSame() && (old(AllSame()) ==> out == [])
      ensures forall r, k :: 0 <= r < rows && 0 <= k < cols && !Corner(r, k, rows, cols) ==>
        Shows(u, Top(u), r, k, backChar[r, k], backCol[r, k])
    {
      out, u := [], t;
      ghost var same := AllSame();
      var cursor := Cursor(-1, -1, 255);
      var y := 0;
      while y < rows
        invariant 0 <= y <= rows
        invariant Progress(t, out, u, cursor, y, 0)
        invariant same ==> out == [] && AllSame()
      {
        out, cursor, u := RenderRow(y, out, cursor, t, u);
        NextRow(u, y);
        y := y + 1;
      }
      AllDrawn(u);
    }

    method RenderRow(y: int, out0: seq<int>, cursor0: Cursor, ghost t: Term, ghost u0: Term)
      returns (out: seq<int>, cursor: Cursor, ghost u: Term)
      requires Valid() && Terminal.Valid(t) && rows <= t.rows && cols <= t.cols && 0 <= y < rows
      requires BackOK() && Progress(t, out0, u0, cursor0, y, 0)
      modifies frontChar, frontCol
      ensures Progress(t, out, u, cursor, y, cols)
      ensures old(AllSame()) ==> out == out0 && AllSame()
    {
      out, cursor, u := out0, cursor0, u0;
      ghost var same := AllSame();
      var x := 0;
      while x < cols
        invariant 0 <= x <= cols
        invariant Progress(t, out, u, cursor, y, x)
        invariant same ==> out == out0 && AllSame()
      {
        out, cursor, u := RenderCell(y, x, out, cursor, t, u);
        x := x + 1;
      }
    }

    method RenderCell(y: int, x: int, out0: seq<int>, cursor0: Cursor, ghost t: Term, ghost u0: Term)
      returns (out: seq<int>, cursor: Cursor, ghost u: Term)
      requires Valid() && Terminal.Valid(t) && rows <= t.rows && cols <= t.cols && 0 <= y < rows && 0 <= x < cols
      requires BackOK() && Progress(t, out0, u0, cursor0, y, x)
      modifies frontChar, frontCol
      ensures Progress(t, out, u, cursor, y, x + 1)
      ensures old(AllSame()) ==> out == out0 && AllSame()
    {
      out, cursor, u := out0, cursor0, u0;
      if y == rows - 1 && x == cols - 1 {
        Skip(u, y, x);
      } else if frontChar[y, x] != backChar[y, x] || frontCol[y, x] != backCol[y, x] {
        assert !Same(y, x);
        out, u := DrawCell(y, x, out, cursor, t, u);
        cursor := Cursor(y, x + 1, backCol[y, x]);
      } else {
        Skip(u, y, x);
      }
    }

    ghost predicate AllSame()
      requires Valid()
      reads frontChar, frontCol, backChar, backCol
    {
      forall r, k {:trigger Same(r, k)} :: 0 <= r < rows && 0 <= k < cols && !Corner(r, k, rows, cols) ==> Same(r, k)
    }

    lemma AllDrawn(u: Term)
      requires Valid() && Terminal.Valid(u) && rows <= u.rows && cols <= u.cols && AllOK(u, rows, 0)
      ensures AllSame()
      ensures forall r, k :: 0 <= r < rows && 0 <= k < cols && !Corner(r, k, rows, cols) ==>
        Shows(u, Top(u), r, k, backChar[r, k], backCol[r, k])
    {
      forall r, k | 0 <= r < rows && 0 <= k < cols && !Corner(r, k, rows, cols)
        ensures Shows(u, Top(u), r, k, backChar[r, k], backCol[r, k]) && Same(r, k)
      {
        assert CellOK(u, r, k, rows, 0);
      }
    }
  }

  /** The grid outside the editor's rows and columns. */
  ghost predicate OffScreenKept(t: Term, u: Term, rows: int, cols: int)
    requires Terminal.Valid(t) && Terminal.Valid(u)
  {
    forall i :: 0 <= i < |t.grid| && !InRect(i, Top(t), rows, cols) ==> u.grid[i] == t.grid[i]
  }

  lemma OffScreenStep(t: Term, u: Term, u': Term, rows: int, cols: int, y: int, x: int, cell: Cell)
    requires Terminal.Valid(t) && SameShape(t, u) && SameShape(u, u') && OffScreenKept(t, u, rows, cols)
    requires 0 <= y < rows <= t.rows && 0 <= x < cols <= t.cols
    requires u'.grid == u.grid[At(Top(u) + y, x) := cell]
    ensures OffScreenKept(t, u', rows, cols)
  {
    assert InRect(At(Top(u) + y, x), Top(t), rows, cols);
  }

  /** The escape sequences and the character of one changed cell. */
  method EmitCell(y: nat, x: nat, c: int, k: int, cursor: Cursor) returns (piece: seq<int>)
    ensures piece == CellSeq(y, x, c, k, cursor.y != y || cursor.x != x, cursor.colour != k)
  {
    piece := [];
    if cursor.y != y || cursor.x != x {
      var r := FormatInt(y + 1);
      var l := FormatInt(x + 1);
      piece := [ESC, '[' as int] + (r + [';' as int] + l) + ['H' as int];
    }
    if cursor.colour != k {
      if k == 1 { piece := piece + (BLACK + ON_WHITE); } else { piece := piece + RESET; }
    } else {
      assert piece + [] == piece;
    }
    piece := piece + [c];
  }
}

/**
 What each character and each control sequence does to the terminal, cell by cell:
 line feeds, the right margin, backspace, erasing, cursor movements and colours.
 */
module TerminalLaws {
  import opened Terminal
  import opened Render

  // ----- Single characters -----

  function CellAt(t: Term, r: int, c: int): Cell
    requires Valid(t) && 0 <= r < 1000 && 0 <= c < 512
  {
    t.grid[512 * r + c]
  }

  predicate IsNewline(c: int) { c == '\n' as int || c == '\r' as int }

  /** A character that is shown: no line feed, carriage return, backspace or escape. */
  predicate Shown(c: int) { c != 10 && c != 13 && c != 8 && c != 27 }

  /** A line feed goes to the start of the next line; the grid stays. */
  lemma LineFeed(t: Term, c: int, fg: int)
    requires Valid(t) && t.state == 0 && IsNewline(c) && t.y + 1 < 1000
    ensures Put(t, c, fg) == t.(y := t.y + 1, x := 0, maxY := if t.maxY > t.y then t.maxY else t.y + 1, scroll := 0)
  {}

  /** On the last line the first hundred lines are lost, and the last hundred are blank. */
  lemma LineFeedAtEnd(t: Term, c: int, fg: int)
    requires Valid(t) && t.state == 0 && IsNewline(c) && t.y == 999
    ensures var u := Put(t, c, fg);
      && Valid(u) && u == t.(grid := u.grid, y := 900, x := 0, maxY := 900, scroll := 0)
      && (forall r, k :: 0 <= r < 900 && 0 <= k < 512 ==> CellAt(u, r, k) == CellAt(t, r + 100, k))
      && forall r, k :: 900 <= r < 1000 && 0 <= k < 512 ==>
           CellAt(u, r, k) == CellAt(t, r, k).(c := ' ' as int, bg := 0x1E1E1E)
  {
    PutValid(t, c, fg);
    var u := Put(t, c, fg);
    forall r, k | 0 <= r < 900 && 0 <= k < 512 ensures CellAt(u, r, k) == CellAt(t, r + 100, k) {
      ShiftedAt(t.grid, r, k);
    }
    forall r, k | 900 <= r < 1000 && 0 <= k < 512
      ensures CellAt(u, r, k) == CellAt(t, r, k).(c := ' ' as int, bg := 0x1E1E1E)
    {
      ShiftedAt(t.grid, r, k);
    }
  }

  lemma ShiftedAt(grid: seq<Cell>, r: int, k: int)
    requires |grid| == 512000 && 0 <= r < 1000 && 0 <= k < 512
    ensures Shifted(grid)[512 * r + k] ==
      if r < 900 then grid[512 * (r + 100) + k] else grid[512 * r + k].(c := ' ' as int, bg := 0x1E1E1E)
  {}

  /** A character before the right margin is written at the cursor, in the given colour or the terminal's own. */
  lemma Writes(t: Term, c: int, fg: int)
    requires Valid(t) && t.state == 0 && Shown(c) && t.x < t.cols
    ensures Put(t, c, fg) ==
      t.(grid := t.grid[512 * t.y + t.x := Cell(c, if fg == 0 then t.fg else fg, t.bg)], x := t.x + 1,
         maxY := if t.maxY > t.y then t.maxY else t.y)
  {}

  /** At the right margin it is written at the start of the next line. */
  lemma Wraps(t: Term, c: int, fg: int)
    requires Valid(t) && t.state == 0 && Shown(c) && t.x >= t.cols
    ensures Valid(Put(t, '\n' as int, fg)) && Put(t, c, fg) == Put(Put(t, '\n' as int, fg), c, fg)
  {
    PutValid(t, '\n' as int, fg);
  }

  /** Backspace blanks the character before the cursor and keeps its colours; at the start of a line it does nothing. */
  lemma Backspaces(t: Term, fg: int)
    requires Valid(t) && t.state == 0
    ensures Put(t, 8, fg) ==
      if t.x == 0 then t
      else t.(x := t.x - 1, grid := t.grid[512 * t.y + t.x - 1 := t.grid[512 * t.y + t.x - 1].(c := ' ' as int)])
  {}

  /** A character and then a backspace leave the cursor where it was, and a blank there. */
  lemma BackspaceUndoes(t: Term, c: int, fg: int)
    requires Valid(t) && t.state == 0 && Shown(c) && t.x < t.cols
    ensures Valid(Put(t, c, fg))
    ensures var u := Put(Put(t, c, fg), 8, fg);
      u.y == t.y && u.x == t.x && Valid(u) && CellAt(u, t.y, t.x).c == ' ' as int
  {
    PutValid(t, c, fg);
    PutValid(Put(t, c, fg), 8, fg);
  }

  /** Escape and a bracket open a sequence; any other character after escape, or a 64th parameter, is dropped. */
  lemma Opens(t: Term, c: int, fg: int)
    requires Valid(t)
    ensures t.state == 0 && c == 27 ==> Put(t, c, fg) == t.(state := 1)
    ensures t.state == 1 ==> Put(t, c, fg) == if c == '[' as int then t.(state := 2, buf := []) else t.(state := 0)
    ensures t.state == 2 && !IsLetter(c) ==>
      Put(t, c, fg) == if |t.buf| < 63 then t.(buf := t.buf + [c]) else t.(state := 0)
  {}

  // ----- Whole sequences -----

  /** ESC [ n f. */
  function Csi(n: nat, f: char): seq<int> { [ESC, '[' as int] + Decimal(n) + [f as int] }

  /** A sequence with one number below 10000. */
  lemma FeedNumber(t: Term, n: nat, f: char)
    requires Valid(t) && t.state == 0 && n < 10000 && IsLetter(f as int)
    ensures Feed(t, Csi(n, f)) == Final(t.(state := 2, buf := Decimal(n)), f as int).(state := 0)
    ensures |Decimal(n)| > 0 && NoLetters(Decimal(n)) && Atoi(Decimal(n)) == n && CStr(Decimal(n)) == Decimal(n)
    ensures Semi(Decimal(n)) == |Decimal(n)|
  {
    DecimalDigits(n);
    DecimalShort(n);
    AtoiOfDecimal(n);
    NoSemi(Decimal(n));
    CStrPlain(Decimal(n));
    FeedCsi(t, Decimal(n), f as int);
  }

  lemma {:induction false} NoSemi(s: seq<int>)
    requires AllDigits(s)
    ensures Semi(s) == |s|
  {
    if s != [] {
      assert IsDigit(s[0]);
      NoSemi(s[1..]);
    }
  }

  /** The cursor goes up, down, right or left by `n`, by one for 0, and stops at the edge of grid or line. */
  lemma Moves(t: Term, n: nat)
    requires Valid(t) && t.state == 0 && n < 10000
    ensures var k, u := if n == 0 then 1 else n, t.(buf := Decimal(n));
      && Feed(t, Csi(n, 'A')) == u.(y := if t.y < k then 0 else t.y - k)
      && Feed(t, Csi(n, 'B')) ==
           (var y := if t.y + k > 999 then 999 else t.y + k; u.(y := y, maxY := if t.maxY > y then t.maxY else y))
      && Feed(t, Csi(n, 'C')) == u.(x := if t.x + k > t.cols - 1 then t.cols - 1 else t.x + k)
      && Feed(t, Csi(n, 'D')) == u.(x := if t.x < k then 0 else t.x - k)
  {
    FeedNumber(t, n, 'A');
    FeedNumber(t, n, 'B');
    FeedNumber(t, n, 'C');
    FeedNumber(t, n, 'D');
  }

  /** `u` is `t` with the cursor in row `r` and column `c` of the screen, or the nearest there are. */
  predicate Positioned(t: Term, u: Term, r: nat, c: nat) {
    var top := if t.maxY + 1 > t.rows + t.scroll then t.maxY + 1 - t.rows - t.scroll else 0;
    var y := top + (if r == 0 then 1 else if r > t.rows then t.rows else r) - 1;
    u == t.(buf := u.buf, y := y, x := (if c == 0 then 1 else if c > t.cols then t.cols else c) - 1,
            maxY := if t.maxY > y then t.maxY else y)
  }

  lemma MoveIs(t: Term, r: nat, c: nat, buf: seq<int>)
    requires Valid(t) && t.state == 0
    ensures Positioned(t, MoveTo(t.(state := 2, buf := buf), r, c).(state := 0), r, c)
  {
    MoveKeepsTop(t, r, c);
  }

  /** ESC [ r ; c H. */
  lemma Positions(t: Term, r: nat, c: nat)
    requires Valid(t) && t.state == 0 && r < 10000 && c < 10000
    ensures Positioned(t, Feed(t, CupSeq(r, c)), r, c)
  {
    var s := Decimal(r) + [';' as int] + Decimal(c);
    CupText(r, c);
    FeedCsi(t, s, 'H' as int);
    CupMoves(t.(state := 2, buf := s), r, c);
    MoveIs(t, r, c, s);
  }

  /** ESC [ r H and ESC [ H: what is not given counts as 1. */
  lemma PositionsShort(t: Term, r: nat)
    requires Valid(t) && t.state == 0 && r < 10000
    ensures Positioned(t, Feed(t, Csi(r, 'H')), r, 1)
    ensures Positioned(t, Feed(t, [ESC, '[' as int, 'H' as int]), 1, 1)
    ensures Feed(t, Csi(r, 'f')) == Feed(t, Csi(r, 'H'))
  {
    FeedNumber(t, r, 'H');
    FeedNumber(t, r, 'f');
    MoveIs(t, r, 1, Decimal(r));
    assert [ESC, '[' as int, 'H' as int] == [ESC, '[' as int] + [] + ['H' as int];
    FeedCsi(t, [], 'H' as int);
    MoveIs(t, 1, 1, []);
  }

  /** ESC [ J is the same. */
  lemma ErasesToo(t: Term)
    requires Valid(t) && t.state == 0
    ensures Feed(t, [ESC, '[' as int, 'J' as int]) == Feed(t, Csi(2, 'J')).(buf := [])
  {
    assert [ESC, '[' as int, 'J' as int] == [ESC, '[' as int] + [] + ['J' as int];
    FeedCsi(t, [], 'J' as int);
    FeedNumber(t, 2, 'J');
    assert Decimal(2) == [50];
  }

  /** ESC [ 2 J blanks the screen in the current background colour, and nothing above or beside it. */
  lemma Erases(t: Term)
    requires Valid(t) && t.state == 0
    ensures var u := Feed(t, Csi(2, 'J'));
      && u == t.(grid := u.grid, buf := [50]) && Valid(u)
      && forall r, k :: 0 <= r < 1000 && 0 <= k < 512 ==> ErasedAt(t, u, r, k)
  {
    FeedNumber(t, 2, 'J');
    assert Decimal(2) == [50];
    forall r, k | 0 <= r < 1000 && 0 <= k < 512 ensures ErasedAt(t, Feed(t, Csi(2, 'J')), r, k) {
      EraseIs(t.(state := 2, buf := [50]), r, k);
    }
  }

  lemma EraseIs(t: Term, r: int, k: int)
    requires Valid(t) && 0 <= r < 1000 && 0 <= k < 512
    ensures Valid(EraseScreen(t)) && ErasedAt(t, EraseScreen(t), r, k)
  {
    InRow(r, k);
  }

  predicate ErasedAt(t: Term, u: Term, r: int, k: int)
    requires Valid(t) && Valid(u) && 0 <= r < 1000 && 0 <= k < 512
  {
    var top := if t.maxY + 1 > t.rows + t.scroll then t.maxY + 1 - t.rows - t.scroll else 0;
    CellAt(u, r, k) == if top <= r < top + t.rows && k < t.cols then CellAt(t, r, k).(c := ' ' as int, bg := t.bg)
                       else CellAt(t, r, k)
  }

  lemma InRow(r: int, k: int)
    requires 0 <= r < 1000 && 0 <= k < 512
    ensures (512 * r + k) / WIDTH == r && (512 * r + k) % WIDTH == k
  {}

  /** Other letters do nothing. */
  lemma OtherLetters(t: Term, n: nat, f: char)
    requires Valid(t) && t.state == 0 && n < 10000 && IsLetter(f as int)
    requires f != 'm' && f != 'J' && f != 'H' && f != 'f' && f != 'A' && f != 'B' && f != 'C' && f != 'D'
    ensures Feed(t, Csi(n, f)) == t.(buf := Decimal(n))
  {
    FeedNumber(t, n, f);
  }

  // ----- Colours -----

  /** The sixteen colours: dark ones first, red, green and blue as the bits of the number. */
  const PALETTE: seq<int> := [
    0x000000, 0x0000AA, 0x00AA00, 0x00AAAA, 0xAA0000, 0xAA00AA, 0xAA5500, 0xAAAAAA,
    0x555555, 0x5555FF, 0x55FF55, 0x55FFFF, 0xFF5555, 0xFF55FF, 0xFFFF55, 0xFFFFFF]

  function FgAfter(fg: int, n: nat): int {
    if n == 0 then 0xCCCCCC
    else if 30 <= n <= 37 then PALETTE[n - 30]
    else if 90 <= n <= 97 then PALETTE[n - 82]
    else fg
  }

  function BgAfter(bg: int, n: nat): int {
    if n == 0 then 0x1E1E1E
    else if 40 <= n <= 47 then PALETTE[n - 40]
    else if 100 <= n <= 107 then PALETTE[n - 92]
    else bg
  }

  /** ESC [ n m sets one colour of the palette, resets both, or does nothing. */
  lemma Colours(t: Term, n: nat)
    requires Valid(t) && t.state == 0 && n < 10000
    ensures Feed(t, Csi(n, 'm')) == t.(buf := Decimal(n), fg := FgAfter(t.fg, n), bg := BgAfter(t.bg, n))
  {
    FeedNumber(t, n, 'm');
    OneCode(t.(state := 2, buf := Decimal(n)), n);
  }

  lemma RgbIs(k: int)
    requires 0 <= k < 16
    ensures Rgb(k) == PALETTE[k]
  {}

  lemma SgrIs(t: Term, n: nat)
    ensures Sgr(t, n) == t.(fg := FgAfter(t.fg, n), bg := BgAfter(t.bg, n))
  {
    if 30 <= n <= 37 { RgbIs(n - 30); }
    if 40 <= n <= 47 { RgbIs(n - 40); }
    if 90 <= n <= 97 { RgbIs(n - 82); }
    if 100 <= n <= 107 { RgbIs(n - 92); }
  }

  /** Several codes in one sequence act one after the other. */
  lemma ColoursInTurn(t: Term, n: nat, m: nat)
    requires Valid(t) && t.state == 0 && n < 10000 && m < 10000
    ensures var s := Decimal(n) + [';' as int] + Decimal(m);
      Feed(t, [ESC, '[' as int] + s + ['m' as int]) ==
        t.(buf := s, fg := FgAfter(FgAfter(t.fg, n), m), bg := BgAfter(BgAfter(t.bg, n), m))
  {
    var s := Decimal(n) + [';' as int] + Decimal(m);
    CupText(n, m);
    FeedCsi(t, s, 'm' as int);
    TwoCodes(t.(state := 2, buf := s), n, m);
  }

  lemma TwoCodes(t: Term, n: nat, m: nat)
    requires n < 10000 && m < 10000
    ensures SgrAll(t, Decimal(n) + [';' as int] + Decimal(m)) ==
      t.(fg := FgAfter(FgAfter(t.fg, n), m), bg := BgAfter(BgAfter(t.bg, n), m))
  {
    var s := Decimal(n) + [';' as int] + Decimal(m);
    CupText(n, m);
    DecimalDigits(n);
    AtoiStops(Decimal(n), Decimal(m), 0);
    AtoiOfDecimal(n);
    SgrIs(t, n);
    OneCode(Sgr(t, n), m);
  }

  lemma OneCode(t: Term, m: nat)
    ensures SgrAll(t, Decimal(m)) == t.(fg := FgAfter(t.fg, m), bg := BgAfter(t.bg, m))
  {
    DecimalDigits(m);
    NoSemi(Decimal(m));
    AtoiOfDecimal(m);
    SgrIs(t, m);
  }

  /** atoi stops at the semicolon. */
  lemma {:induction false} AtoiStops(a: seq<int>, b: seq<int>, res: int)
    requires AllDigits(a)
    ensures AtoiFrom(a + [';' as int] + b, res) == AtoiFrom(a, res)
    decreases |a|
  {
    var s := a + [';' as int] + b;
    if a != [] {
      assert IsDigit(a[0]) && s[0] == a[0] && s[1..] == a[1..] + [';' as int] + b;
      AtoiStops(a[1..], b, res * 10 + (a[0] - '0' as int));
    }
  }
}

/**
 The editor's text (userland/apps/nani.c): an array of lines with a cursor, seen
 as one flat text split at the cursor.
 */
module Editor {
  const MAX_LINES: int := 2000
  const MAX_LEN: int := 255
  const NL: int := 10
  const CR: int := 13

  type Line = seq<int>

  // ----- The flat text -----

  /** The lines with newlines between them. */
  function Flat(ls: seq<Line>): seq<int> {
    if ls == [] then [] else if |ls| == 1 then ls[0] else ls[0] + [NL] + Flat(ls[1..])
  }

  predicate InText(ls: seq<Line>, y: int, x: int) { 0 <= y < |ls| && 0 <= x <= |ls[y]| }

  /** The text before the cursor. */
  function Before(ls: seq<Line>, y: int, x: int): seq<int>
    requires InText(ls, y, x)
    decreases y
  {
    if y == 0 then ls[0][..x] else ls[0] + [NL] + Before(ls[1..], y - 1, x)
  }

  /** The text after the cursor. */
  function After(ls: seq<Line>, y: int, x: int): seq<int>
    requires InText(ls, y, x)
  {
    Flat([ls[y][x..]] + ls[y + 1..])
  }

  /** The cursor splits the text. */
  lemma {:induction false} SplitsText(ls: seq<Line>, y: int, x: int)
    requires InText(ls, y, x)
    ensures Before(ls, y, x) + After(ls, y, x) == Flat(ls)
    decreases y
  {
    if y == 0 {
      FlatHead(ls[0][..x], ls[0][x..], ls[1..]);
      assert ls[0][..x] + ls[0][x..] == ls[0] && [ls[0]] + ls[1..] == ls;
    } else {
      SplitsText(ls[1..], y - 1, x);
      assert ls[1..][y - 1 + 1..] == ls[y + 1..];
      assert ls[0] + [NL] + Before(ls[1..], y - 1, x) + After(ls[1..], y - 1, x) == ls[0] + [NL] + Flat(ls[1..]);
    }
  }

  /** A prefix of the first line is a prefix of the text. */
  lemma FlatHead(a: Line, b: Line, rest: seq<Line>)
    ensures Flat([a + b] + rest) == a + Flat([b] + rest)
  {
    assert ([a + b] + rest)[1..] == rest && ([b] + rest)[1..] == rest;
    if rest != [] { assert a + b + [NL] + Flat(rest) == a + (b + [NL] + Flat(rest)); }
  }

  /** Only the lines up to the cursor matter before it. */
  lemma {:induction false} BeforeUpTo(ls: seq<Line>, ms: seq<Line>, y: int, x: int)
    requires InText(ls, y, x) && InText(ms, y, x) && ls[..y] == ms[..y] && ls[y][..x] == ms[y][..x]
    ensures Before(ls, y, x) == Before(ms, y, x)
    decreases y
  {
    if y > 0 {
      assert ls[0] == ls[..y][0] == ms[0];
      assert ls[1..][..y - 1] == ls[..y][1..] && ms[1..][..y - 1] == ms[..y][1..];
      BeforeUpTo(ls[1..], ms[1..], y - 1, x);
    }
  }

  /** One column further. */
  lemma {:induction false} BeforeNextColumn(ls: seq<Line>, y: int, x: int)
    requires InText(ls, y, x + 1) && 0 <= x
    ensures Before(ls, y, x + 1) == Before(ls, y, x) + [ls[y][x]]
    decreases y
  {
    if y > 0 {
      BeforeNextColumn(ls[1..], y - 1, x);
    } else {
      assert ls[0][..x + 1] == ls[0][..x] + [ls[0][x]];
    }
  }

  /** From the end of a line to the start of the next. */
  lemma {:induction false} BeforeNextLine(ls: seq<Line>, y: int)
    requires InText(ls, y + 1, 0) && 0 <= y
    ensures Before(ls, y + 1, 0) == Before(ls, y, |ls[y]|) + [NL]
    decreases y
  {
    if y > 0 {
      BeforeNextLine(ls[1..], y - 1);
    } else {
      assert Before(ls[1..], 0, 0) == [] && ls[0][..|ls[0]|] == ls[0];
    }
  }

  // ----- Edits on lines -----

  function InsertChar(ls: seq<Line>, y: int, x: int, c: int): seq<Line>
    requires InText(ls, y, x)
  {
    ls[y := ls[y][..x] + [c] + ls[y][x..]]
  }

  function SplitLine(ls: seq<Line>, y: int, x: int): seq<Line>
    requires InText(ls, y, x)
  {
    ls[..y] + [ls[y][..x], ls[y][x..]] + ls[y + 1..]
  }

  function DeleteChar(ls: seq<Line>, y: int, x: int): seq<Line>
    requires InText(ls, y, x) && x > 0
  {
    ls[y := ls[y][..x - 1] + ls[y][x..]]
  }

  function JoinLines(ls: seq<Line>, y: int): seq<Line>
    requires 0 < y < |ls|
  {
    ls[..y - 1] + [ls[y - 1] + ls[y]] + ls[y + 1..]
  }

  lemma SplitForm(ls: seq<Line>, ms: seq<Line>, y: int, x: int)
    requires InText(ls, y, x) && |ms| == |ls| + 1 && ms[y] == ls[y][..x] && ms[y + 1] == ls[y][x..]
    requires (forall k :: 0 <= k < y ==> ms[k] == ls[k]) && (forall k :: y + 1 < k < |ms| ==> ms[k] == ls[k - 1])
    ensures ms == SplitLine(ls, y, x)
  {}

  lemma JoinForm(ls: seq<Line>, ms: seq<Line>, y: int)
    requires 0 < y < |ls| && |ms| == |ls| - 1 && ms[y - 1] == ls[y - 1] + ls[y]
    requires (forall k :: 0 <= k < y - 1 ==> ms[k] == ls[k]) && (forall k :: y <= k < |ms| ==> ms[k] == ls[k + 1])
    ensures ms == JoinLines(ls, y)
  {}

  // ----- The same edits on the flat text -----

  lemma InsertIsInsertion(ls: seq<Line>, y: int, x: int, c: int)
    requires InText(ls, y, x)
    ensures var ms := InsertChar(ls, y, x, c);
      InText(ms, y, x + 1) && Before(ms, y, x + 1) == Before(ls, y, x) + [c] && After(ms, y, x + 1) == After(ls, y, x)
  {
    var ms := InsertChar(ls, y, x, c);
    assert ms[y][..x] == ls[y][..x] && ms[y][x + 1..] == ls[y][x..];
    BeforeNextColumn(ms, y, x);
    BeforeUpTo(ls, ms, y, x);
  }

  lemma SplitIsNewline(ls: seq<Line>, y: int, x: int)
    requires InText(ls, y, x)
    ensures var ms := SplitLine(ls, y, x);
      InText(ms, y + 1, 0) && Before(ms, y + 1, 0) == Before(ls, y, x) + [NL] && After(ms, y + 1, 0) == After(ls, y, x)
  {
    var ms := SplitLine(ls, y, x);
    assert ms[y] == ls[y][..x] && ms[y + 1] == ls[y][x..] && ms[..y] == ls[..y];
    assert ms[y + 2..] == ls[y + 1..] && ms[y + 1][0..] == ms[y + 1];
    BeforeNextLine(ms, y);
    assert ms[y][..x] == ls[y][..x];
    BeforeUpTo(ls, ms, y, x);
  }

  lemma DeleteIsDeletion(ls: seq<Line>, y: int, x: int)
    requires InText(ls, y, x) && x > 0
    ensures var ms := DeleteChar(ls, y, x);
      InText(ms, y, x - 1) && Before(ls, y, x) == Before(ms, y, x - 1) + [ls[y][x - 1]]
        && After(ms, y, x - 1) == After(ls, y, x)
  {
    var ms := DeleteChar(ls, y, x);
    assert ms[y][..x - 1] == ls[y][..x - 1] && ms[y][x - 1..] == ls[y][x..];
    BeforeNextColumn(ls, y, x - 1);
    BeforeUpTo(ls, ms, y, x - 1);
  }

  lemma JoinIsDeletion(ls: seq<Line>, y: int)
    requires 0 < y < |ls|
    ensures var ms, x := JoinLines(ls, y), |ls[y - 1]|;
      InText(ms, y - 1, x) && Before(ls, y, 0) == Before(ms, y - 1, x) + [NL] && After(ms, y - 1, x) == After(ls, y, 0)
  {
    var ms, x := JoinLines(ls, y), |ls[y - 1]|;
    assert ms[y - 1] == ls[y - 1] + ls[y] && ms[..y - 1] == ls[..y - 1];
    assert ms[y - 1][x..] == ls[y] == ls[y][0..] && ms[y..] == ls[y + 1..];
    BeforeNextLine(ls, y - 1);
    assert ms[y - 1][..x] == ls[y - 1] == ls[y - 1][..x];
    BeforeUpTo(ls, ms, y - 1, x);
  }

  lemma SplitThenJoin(ls: seq<Line>, y: int, x: int)
    requires InText(ls, y, x)
    ensures JoinLines(SplitLine(ls, y, x), y + 1) == ls
  {
    var ms := SplitLine(ls, y, x);
    assert ms[y] == ls[y][..x] && ms[y + 1] == ls[y][x..] && ms[..y] == ls[..y] && ms[y + 2..] == ls[y + 1..];
    assert ls[y][..x] + ls[y][x..] == ls[y];
  }

  // ----- Keys -----

  datatype Doc = Doc(ls: seq<Line>, y: int, x: int)

  datatype Key = Char(c: int) | Enter | Backspace | Up | Down | Left | Right

  ghost predicate OK(d: Doc) {
    && InText(d.ls, d.y, d.x) && |d.ls| <= MAX_LINES
    && (forall k :: 0 <= k < |d.ls| ==> |d.ls[k]| <= MAX_LEN) && (forall k :: 0 <= k < |d.ls| ==> NL !in d.ls[k])
  }

  function Type(d: Doc, c: int): Doc
    requires InText(d.ls, d.y, d.x)
  {
    if |d.ls[d.y]| < MAX_LEN then Doc(InsertChar(d.ls, d.y, d.x, c), d.y, d.x + 1) else d
  }

  function Return(d: Doc): Doc
    requires InText(d.ls, d.y, d.x)
  {
    if |d.ls| < MAX_LINES then Doc(SplitLine(d.ls, d.y, d.x), d.y + 1, 0) else d
  }

  function Back(d: Doc): Doc
    requires InText(d.ls, d.y, d.x)
  {
    if d.x > 0 then Doc(DeleteChar(d.ls, d.y, d.x), d.y, d.x - 1)
    else if d.y > 0 && |d.ls[d.y - 1]| + |d.ls[d.y]| < MAX_LEN then Doc(JoinLines(d.ls, d.y), d.y - 1, |d.ls[d.y - 1]|)
    else d
  }

  function Clip(d: Doc, y: int): Doc
    requires 0 <= y < |d.ls|
  {
    d.(y := y, x := if d.x > |d.ls[y]| then |d.ls[y]| else d.x)
  }

  function Press(d: Doc, k: Key): Doc
    requires InText(d.ls, d.y, d.x)
  {
    match k
    case Char(c) => Type(d, c)
    case Enter => Return(d)
    case Backspace => Back(d)
    case Up => Clip(d, if d.y > 0 then d.y - 1 else d.y)
    case Down => Clip(d, if d.y < |d.ls| - 1 then d.y + 1 else d.y)
    case Left => if d.x > 0 then d.(x := d.x - 1) else if d.y > 0 then d.(y := d.y - 1, x := |d.ls[d.y - 1]|) else d
    case Right =>
      if d.x < |d.ls[d.y]| then d.(x := d.x + 1) else if d.y < |d.ls| - 1 then d.(y := d.y + 1, x := 0) else d
  }

  /** The flat text on both sides of the cursor. */
  datatype Text = Text(before: seq<int>, after: seq<int>)

  function View(d: Doc): Text
    requires InText(d.ls, d.y, d.x)
  {
    Text(Before(d.ls, d.y, d.x), After(d.ls, d.y, d.x))
  }

  /** How many newlines there are, and how many characters follow the last of them. */
  function Row(t: seq<int>): nat {
    if t == [] then 0 else Row(t[..|t| - 1]) + if t[|t| - 1] == NL then 1 else 0
  }

  function Column(t: seq<int>): (c: nat)
    ensures c <= |t|
  {
    if t == [] || t[|t| - 1] == NL then 0 else Column(t[..|t| - 1]) + 1
  }

  /**
   The text stays, and the cursor goes to the row next to its own and to its column, or to the end
   of a shorter row.
   */
  ghost predicate Vertical(t: Text, t': Text, row: int) {
    && t'.before + t'.after == t.before + t.after && Row(t'.before) == row
    && (Column(t'.before) == Column(t.before)
        || (Column(t'.before) < Column(t.before) && (t'.after == [] || t'.after[0] == NL)))
  }

  /** The key on a flat text; `full` says that a size limit is in the way, `rows` counts the rows. */
  ghost predicate Does(t: Text, k: Key, full: bool, rows: int, t': Text) {
    match k
    case Char(c) => t' == if full then t else Text(t.before + [c], t.after)
    case Enter => t' == if full then t else Text(t.before + [NL], t.after)
    case Backspace => t' == if full || t.before == [] then t else Text(t.before[..|t.before| - 1], t.after)
    case Left => t' ==
      if t.before == [] then t else Text(t.before[..|t.before| - 1], t.before[|t.before| - 1..] + t.after)
    case Right => t' == if t.after == [] then t else Text(t.before + t.after[..1], t.after[1..])
    case Up => Vertical(t, t', if Row(t.before) > 0 then Row(t.before) - 1 else 0)
    case Down => Vertical(t, t', if Row(t.before) < rows - 1 then Row(t.before) + 1 else Row(t.before))
  }

  /** When a size limit stops the key. */
  predicate Full(d: Doc, k: Key)
    requires InText(d.ls, d.y, d.x)
  {
    match k
    case Char(_) => |d.ls[d.y]| >= MAX_LEN
    case Enter => |d.ls| >= MAX_LINES
    case Backspace => d.x == 0 && d.y > 0 && |d.ls[d.y - 1]| + |d.ls[d.y]| >= MAX_LEN
    case _ => false
  }

  /** The limits: 255 characters in a line and 2000 lines; two lines are joined only below 255. */
  lemma LimitsAre(d: Doc, c: int)
    requires OK(d)
    ensures Full(d, Char(c)) <==> |d.ls[d.y]| == 255
    ensures Full(d, Enter) <==> |d.ls| == 2000
    ensures Full(d, Backspace) <==> d.x == 0 && d.y > 0 && |d.ls[d.y - 1] + d.ls[d.y]| > 254
    ensures !Full(d, Left) && !Full(d, Right) && !Full(d, Up) && !Full(d, Down)
  {}

  lemma BeforeEmpty(ls: seq<Line>, y: int, x: int)
    requires InText(ls, y, x)
    ensures Before(ls, y, x) == [] <==> y == 0 && x == 0
  {}

  lemma AfterEmpty(ls: seq<Line>, y: int, x: int)
    requires InText(ls, y, x)
    ensures After(ls, y, x) == [] <==> y == |ls| - 1 && x == |ls[y]|
  {
    var ms := [ls[y][x..]] + ls[y + 1..];
    assert ms[1..] == ls[y + 1..];
  }

  /** Across one character of a line. */
  lemma AcrossColumn(ls: seq<Line>, y: int, x: int)
    requires InText(ls, y, x + 1) && 0 <= x
    ensures After(ls, y, x) == [ls[y][x]] + After(ls, y, x + 1)
    ensures Before(ls, y, x + 1) == Before(ls, y, x) + [ls[y][x]]
  {
    FlatHead([ls[y][x]], ls[y][x + 1..], ls[y + 1..]);
    assert ls[y][x..] == [ls[y][x]] + ls[y][x + 1..];
    BeforeNextColumn(ls, y, x);
  }

  /** Across the end of a line. */
  lemma AcrossLine(ls: seq<Line>, y: int)
    requires 0 <= y < |ls| - 1
    ensures After(ls, y, |ls[y]|) == [NL] + After(ls, y + 1, 0)
    ensures Before(ls, y + 1, 0) == Before(ls, y, |ls[y]|) + [NL]
  {
    BeforeNextLine(ls, y);
    var rest := ls[y + 1..];
    assert ls[y][|ls[y]|..] == [] && ls[y + 1][0..] == rest[0];
    FlatEmptyHead(rest);
    assert [rest[0]] + rest[1..] == rest && ls[y + 2..] == rest[1..];
  }

  lemma FlatEmptyHead(rest: seq<Line>)
    requires rest != []
    ensures Flat([[]] + rest) == [NL] + Flat(rest)
  {
    assert ([[]] + rest)[1..] == rest;
    assert [] + [NL] == [NL];
  }

  lemma Unsnoc(a: seq<int>, b: seq<int>, c: int)
    requires a == b + [c]
    ensures a != [] && a[..|a| - 1] == b && a[|a| - 1..] == [c]
  {}

  lemma BackOK(d: Doc)
    requires OK(d)
    ensures OK(Back(d))
  {}

  lemma BackRefines(d: Doc)
    requires OK(d)
    ensures OK(Back(d)) && Does(View(d), Backspace, Full(d, Backspace), |d.ls|, View(Back(d)))
  {
    BackOK(d);
    BeforeEmpty(d.ls, d.y, d.x);
    if d.x > 0 {
      BackInLine(d);
    } else if d.y > 0 {
      BackJoins(d.ls, d.y);
    }
  }

  lemma BackInLine(d: Doc)
    requires InText(d.ls, d.y, d.x) && d.x > 0 && OK(Back(d))
    ensures Before(d.ls, d.y, d.x) != []
    ensures View(Back(d)) == Text(Before(d.ls, d.y, d.x)[..|Before(d.ls, d.y, d.x)| - 1], After(d.ls, d.y, d.x))
  {
    DeleteIsDeletion(d.ls, d.y, d.x);
    Unsnoc(Before(d.ls, d.y, d.x), Before(Back(d).ls, d.y, d.x - 1), d.ls[d.y][d.x - 1]);
  }

  lemma BackJoins(ls: seq<Line>, y: int)
    requires 0 < y < |ls|
    ensures var ms, x := JoinLines(ls, y), |ls[y - 1]|;
      && InText(ms, y - 1, x) && After(ms, y - 1, x) == After(ls, y, 0)
      && Before(ls, y, 0) != [] && Before(ms, y - 1, x) == Before(ls, y, 0)[..|Before(ls, y, 0)| - 1]
  {
    JoinIsDeletion(ls, y);
    Unsnoc(Before(ls, y, 0), Before(JoinLines(ls, y), y - 1, |ls[y - 1]|), NL);
  }

  lemma LeftRefines(d: Doc)
    requires OK(d)
    ensures OK(Press(d, Left)) && Does(View(d), Left, false, |d.ls|, View(Press(d, Left)))
  {
    var ls, y, x := d.ls, d.y, d.x;
    BeforeEmpty(ls, y, x);
    if x > 0 {
      AcrossColumn(ls, y, x - 1);
      Unsnoc(Before(ls, y, x), Before(ls, y, x - 1), ls[y][x - 1]);
    } else if y > 0 {
      AcrossLine(ls, y - 1);
      Unsnoc(Before(ls, y, 0), Before(ls, y - 1, |ls[y - 1]|), NL);
    }
  }

  lemma RightRefines(d: Doc)
    requires OK(d)
    ensures OK(Press(d, Right)) && Does(View(d), Right, false, |d.ls|, View(Press(d, Right)))
  {
    var ls, y, x := d.ls, d.y, d.x;
    AfterEmpty(ls, y, x);
    if x < |ls[y]| { AcrossColumn(ls, y, x); } else if y < |ls| - 1 { AcrossLine(ls, y); }
  }

  lemma TypeRefines(d: Doc, c: int)
    requires OK(d) && c != NL
    ensures OK(Type(d, c)) && Does(View(d), Char(c), Full(d, Char(c)), |d.ls|, View(Type(d, c)))
  {
    InsertIsInsertion(d.ls, d.y, d.x, c);
  }

  lemma ReturnRefines(d: Doc)
    requires OK(d)
    ensures OK(Return(d)) && Does(View(d), Enter, Full(d, Enter), |d.ls|, View(Return(d)))
  {
    SplitIsNewline(d.ls, d.y, d.x);
  }

  /** Every key acts on the flat text as it should, or not at all at a size limit, and the cursor stays in its line. */
  lemma PressRefines(d: Doc, k: Key)
    requires OK(d) && k != Char(NL)
    ensures OK(Press(d, k)) && Does(View(d), k, Full(d, k), |d.ls|, View(Press(d, k)))
  {
    match k
    case Char(c) => TypeRefines(d, c);
    case Enter => ReturnRefines(d);
    case Backspace => BackRefines(d);
    case Left => LeftRefines(d);
    case Right => RightRefines(d);
    case Up => MoveRefines(d, if d.y > 0 then d.y - 1 else d.y);
    case Down => MoveRefines(d, if d.y < |d.ls| - 1 then d.y + 1 else d.y);
  }

  lemma MoveRefines(d: Doc, y: int)
    requires OK(d) && 0 <= y < |d.ls|
    ensures OK(Clip(d, y)) && Row(View(d).before) == d.y && Vertical(View(d), View(Clip(d, y)), y)
  {
    var ls, x := d.ls, Clip(d, y).x;
    SplitsText(ls, d.y, d.x);
    SplitsText(ls, y, x);
    RowAndColumn(ls, d.y, d.x);
    RowAndColumn(ls, y, x);
    if x < d.x {
      AfterEmpty(ls, y, x);
      if y < |ls| - 1 { AcrossLine(ls, y); }
    }
  }

  /** Where lines hold no newline, the cursor's line and column can be read off the text before it. */
  lemma {:induction false} RowAndColumn(ls: seq<Line>, y: int, x: int)
    requires InText(ls, y, x) && forall k :: 0 <= k < |ls| ==> NL !in ls[k]
    ensures Row(Before(ls, y, x)) == y && Column(Before(ls, y, x)) == x
    decreases y, x
  {
    if x > 0 {
      RowAndColumn(ls, y, x - 1);
      BeforeNextColumn(ls, y, x - 1);
      Snoc(Before(ls, y, x - 1), ls[y][x - 1]);
    } else if y > 0 {
      RowAndColumn(ls, y - 1, |ls[y - 1]|);
      BeforeNextLine(ls, y - 1);
      Snoc(Before(ls, y - 1, |ls[y - 1]|), NL);
    }
  }

  lemma Snoc(t: seq<int>, c: int)
    ensures Row(t + [c]) == Row(t) + (if c == NL then 1 else 0)
    ensures Column(t + [c]) == if c == NL then 0 else Column(t) + 1
  {
    assert (t + [c])[..|t|] == t;
  }

  lemma StaysOK(d: Doc, k: Key)
    requires OK(d) && k != Char(NL)
    ensures OK(Press(d, k))
  {
    PressRefines(d, k);
  }

  /**
   Enter and then backspace bring everything back, exactly when the line was not full (or nothing
   could happen at all).
   */
  lemma EnterThenBackspace(d: Doc)
    requires OK(d)
    ensures Press(Press(d, Enter), Backspace) == d <==>
      if |d.ls| < MAX_LINES then |d.ls[d.y]| < MAX_LEN
      else d.x == 0 && (d.y == 0 || |d.ls[d.y - 1]| + |d.ls[d.y]| >= MAX_LEN)
  {
    if |d.ls| < MAX_LINES {
      var ms := SplitLine(d.ls, d.y, d.x);
      assert ms[d.y] == d.ls[d.y][..d.x] && ms[d.y + 1] == d.ls[d.y][d.x..];
      SplitThenJoin(d.ls, d.y, d.x);
    }
  }

  // ----- Saving and loading -----

  function Saved(ls: seq<Line>): seq<int> {
    if ls == [] then [] else ls[0] + [NL] + Saved(ls[1..])
  }

  lemma {:induction false} SavedSnoc(ls: seq<Line>, l: Line)
    ensures Saved(ls + [l]) == Saved(ls) + l + [NL]
  {
    if ls == [] {
      assert ls + [l] == [l] && [l][1..] == [];
    } else {
      assert (ls + [l])[1..] == ls[1..] + [l];
      SavedSnoc(ls[1..], l);
    }
  }

  /** The loading loop from byte `i` on, with the lines read so far and the one being read. */
  function LoadFrom(buf: seq<int>, i: nat, ls: seq<Line>, cur: Line): seq<Line>
    requires i <= |buf|
    decreases |buf| - i
  {
    if i == |buf| then (if |ls| < MAX_LINES then ls + [cur] else ls)
    else if buf[i] == NL then (if |ls| + 1 >= MAX_LINES then ls + [cur] else LoadFrom(buf, i + 1, ls + [cur], []))
    else LoadFrom(buf, i + 1, ls, if buf[i] != CR && |cur| < MAX_LEN then cur + [buf[i]] else cur)
  }

  predicate LineOK(l: Line) { |l| <= MAX_LEN && NL !in l }

  /** Whatever is loaded is a document within the limits. */
  lemma {:induction false} LoadOK(buf: seq<int>, i: nat, ls: seq<Line>, cur: Line)
    requires i <= |buf| && |ls| < MAX_LINES && (forall k :: 0 <= k < |ls| ==> LineOK(ls[k])) && LineOK(cur)
    ensures OK(Doc(LoadFrom(buf, i, ls, cur), 0, 0))
    decreases |buf| - i
  {
    if i < |buf| {
      if buf[i] == NL {
        if |ls| + 1 < MAX_LINES { LoadOK(buf, i + 1, ls + [cur], []); }
      } else {
        LoadOK(buf, i + 1, ls, if buf[i] != CR && |cur| < MAX_LEN then cur + [buf[i]] else cur);
      }
    }
  }

  // ----- The lines of a text -----

  /** The pieces of a text between its newlines. */
  function Pieces(s: seq<int>): (r: seq<Line>)
    ensures |r| > 0
  {
    if s == [] then [[]]
    else
      var rest := Pieces(s[1..]);
      if s[0] == 10 then [[]] + rest else [[s[0]] + rest[0]] + rest[1..]
  }

  /** Without carriage returns. */
  function NoReturns(s: seq<int>): seq<int> {
    if s == [] then [] else (if s[0] == 13 then [] else [s[0]]) + NoReturns(s[1..])
  }

  /** A piece as it becomes a line: no carriage returns, and at most 255 characters. */
  function Cut(s: seq<int>): Line {
    var l := NoReturns(s);
    if |l| <= 255 then l else l[..255]
  }

  function CutAll(ps: seq<Line>): (r: seq<Line>)
    ensures |r| == |ps| && forall k :: 0 <= k < |ps| ==> r[k] == Cut(ps[k])
  {
    seq(|ps|, k requires 0 <= k < |ps| => Cut(ps[k]))
  }

  /** Whether or not the text ends in a newline, its pieces are the lines, as far as there is room for 2000. */
  lemma LoadIs(buf: seq<int>)
    ensures var ls := CutAll(Pieces(buf)); LoadFrom(buf, 0, [], []) == if |ls| <= 2000 then ls else ls[..2000]
  {
    assert buf[0..] == buf;
    LoadPieces(buf, 0, [], []);
    FillingAll(Pieces(buf));
  }

  lemma CutAllFirst(ps: seq<Line>)
    requires |ps| > 0
    ensures CutAll(ps) == [Cut(ps[0])] + CutAll(ps[1..])
  {}

  lemma FillingAll(ps: seq<Line>)
    requires |ps| > 0
    ensures Filling([], [], ps) == Capped(CutAll(ps))
  {
    CutAllFirst(ps);
    assert [] + ps[0] == ps[0];
    assert [] + CutAll(ps) == CutAll(ps);
  }

  /** The lines so far, the current piece behind `read`, and the pieces that follow, as far as there is room. */
  function Filling(ls: seq<Line>, read: seq<int>, ps: seq<Line>): seq<Line>
    requires |ps| > 0
  {
    Capped(ls + ([Cut(read + ps[0])] + CutAll(ps[1..])))
  }

  function Capped(ls: seq<Line>): seq<Line> { if |ls| <= MAX_LINES then ls else ls[..MAX_LINES] }

  lemma FillingEnd(ls: seq<Line>, read: seq<int>)
    requires |ls| < MAX_LINES
    ensures Filling(ls, read, [[]]) == ls + [Cut(read)]
  {
    var ps: seq<Line> := [[]];
    assert read + [] == read && ps[1..] == [] && CutAll(ps[1..]) == [];
    assert ls + ([Cut(read)] + CutAll(ps[1..])) == ls + [Cut(read)];
  }

  lemma FillingLine(ls: seq<Line>, read: seq<int>, rest: seq<Line>)
    requires |ls| < MAX_LINES && |rest| > 0
    ensures Filling(ls, read, [[]] + rest) ==
      if |ls| + 1 >= MAX_LINES then ls + [Cut(read)] else Filling(ls + [Cut(read)], [], rest)
  {
    assert ([[]] + rest)[1..] == rest && read + [] == read && [] + rest[0] == rest[0];
    CutAllFirst(rest);
    Regroup(ls, Cut(read), CutAll(rest));
  }

  lemma Regroup(a: seq<Line>, l: Line, b: seq<Line>)
    ensures a + ([l] + b) == a + [l] + b
    ensures |a| + 1 == MAX_LINES ==> Capped(a + ([l] + b)) == a + [l]
  {}

  lemma FillingMore(ls: seq<Line>, read: seq<int>, c: int, rest: seq<Line>)
    requires |rest| > 0
    ensures Filling(ls, read, [[c] + rest[0]] + rest[1..]) == Filling(ls, read + [c], rest)
  {
    assert ([[c] + rest[0]] + rest[1..])[1..] == rest[1..];
    assert read + ([c] + rest[0]) == (read + [c]) + rest[0];
  }

  /** The same from byte `i` on, with `read` of the current piece behind. */
  lemma {:induction false} LoadPieces(buf: seq<int>, i: nat, ls: seq<Line>, read: seq<int>)
    requires i <= |buf| && |ls| < MAX_LINES
    ensures LoadFrom(buf, i, ls, Cut(read)) == Filling(ls, read, Pieces(buf[i..]))
    decreases |buf| - i
  {
    if i == |buf| {
      FillingEnd(ls, read);
    } else {
      var rest := Pieces(buf[i + 1..]);
      assert buf[i..][1..] == buf[i + 1..];
      if buf[i] == NL {
        FillingLine(ls, read, rest);
        if |ls| + 1 < MAX_LINES { LoadPieces(buf, i + 1, ls + [Cut(read)], []); }
      } else {
        FillingMore(ls, read, buf[i], rest);
        CutMore(read, buf[i]);
        LoadPieces(buf, i + 1, ls, read + [buf[i]]);
      }
    }
  }

  lemma CutMore(s: seq<int>, c: int)
    ensures Cut(s + [c]) == if c != CR && |Cut(s)| < MAX_LEN then Cut(s) + [c] else Cut(s)
  {
    NoReturnsMore(s, c);
  }

  lemma {:induction false} NoReturnsMore(s: seq<int>, c: int)
    ensures NoReturns(s + [c]) == NoReturns(s) + if c == 13 then [] else [c]
  {
    if s == [] {
      assert [c][1..] == [] && s + [c] == [c];
    } else {
      assert (s + [c])[1..] == s[1..] + [c] && (s + [c])[0] == s[0];
      NoReturnsMore(s[1..], c);
      assert NoReturns(s + [c]) == (if s[0] == 13 then [] else [s[0]]) + NoReturns(s[1..] + [c]);
    }
  }

  predicate PlainLine(l: Line) { |l| <= MAX_LEN && NL !in l && CR !in l }

  /** A line, a newline and a text: the line comes first. */
  lemma {:induction false} PiecesOfLine(l: Line, s: seq<int>)
    requires NL !in l
    ensures Pieces(l + [NL] + s) == [l] + Pieces(s)
  {
    var t := l + [NL] + s;
    if l == [] {
      assert t[1..] == s;
    } else {
      assert t[1..] == l[1..] + [NL] + s && l[0] in l;
      PiecesOfLine(l[1..], s);
      assert [l[0]] + l[1..] == l && ([l[1..]] + Pieces(s))[1..] == Pieces(s);
    }
  }

  lemma {:induction false} PiecesOfSaved(ls: seq<Line>)
    requires forall k :: 0 <= k < |ls| ==> NL !in ls[k]
    ensures Pieces(Saved(ls)) == ls + [[]]
  {
    if ls != [] {
      PiecesOfLine(ls[0], Saved(ls[1..]));
      PiecesOfSaved(ls[1..]);
      assert [ls[0]] + (ls[1..] + [[]]) == ls + [[]];
    }
  }

  lemma {:induction false} NoneToDrop(l: seq<int>)
    requires CR !in l
    ensures NoReturns(l) == l
  {
    if l != [] {
      assert l[0] in l;
      NoneToDrop(l[1..]);
      assert [l[0]] + l[1..] == l;
    }
  }

  /** Loading what was saved adds an empty line at the end, unless the editor is full. */
  lemma LoadOfSaved(ls: seq<Line>)
    requires (forall k :: 0 <= k < |ls| ==> PlainLine(ls[k])) && |ls| <= MAX_LINES
    ensures LoadFrom(Saved(ls), 0, [], []) == if |ls| < MAX_LINES then ls + [[]] else ls
  {
    PiecesOfSaved(ls);
    LoadOfPlain(Saved(ls), ls);
  }

  lemma LoadOfPlain(buf: seq<int>, ls: seq<Line>)
    requires (forall k :: 0 <= k < |ls| ==> PlainLine(ls[k])) && |ls| <= MAX_LINES && Pieces(buf) == ls + [[]]
    ensures LoadFrom(buf, 0, [], []) == if |ls| < MAX_LINES then ls + [[]] else ls
  {
    LoadIs(buf);
    PlainStays(ls + [[]]);
    LastGoes(ls, []);
  }

  lemma PlainStays(ps: seq<Line>)
    requires forall k :: 0 <= k < |ps| ==> PlainLine(ps[k])
    ensures CutAll(ps) == ps
  {
    forall k | 0 <= k < |ps| ensures Cut(ps[k]) == ps[k] { NoneToDrop(ps[k]); }
  }

  lemma LastGoes(ls: seq<Line>, l: Line)
    ensures |ls + [l]| == |ls| + 1 && (ls + [l])[..|ls|] == ls
  {}

  // ----- The editor's own arrays -----

  class Nani {
    const lines: array<Line>
    var num: int
    var cx: int
    var cy: int
    var modified: bool

    ghost predicate Valid()
      reads this, lines
    {
      lines.Length == MAX_LINES && 0 <= num <= MAX_LINES && OK(Now())
    }

    function Now(): Doc
      requires 0 <= num <= lines.Length
      reads this, lines
    {
      Doc(lines[..num], cy, cx)
    }

    constructor ()
      ensures Valid() && Now() == Doc([[]], 0, 0) && fresh(lines)
    {
      lines := new Line[MAX_LINES](_ => []);
      num, cx, cy, modified := 1, 0, 0, false;
      new;
      assert lines[..1] == [[]];
    }

    method InsertKey(c: int)
      requires Valid() && c != NL
      modifies this, lines
      ensures Valid() && Now() == Press(old(Now()), Char(c))
      ensures modified == (old(modified) || Now() != old(Now()))
    {
      StaysOK(Now(), Char(c));
      ghost var d := Now();
      var line := lines[cy];
      if |line| < MAX_LEN {
        lines[cy] := line[..cx] + [c] + line[cx..];
        assert lines[..num] == InsertChar(d.ls, d.y, d.x, c);
        cx := cx + 1;
        modified := true;
      }
    }

    method HandleEnter()
      requires Valid()
      modifies this, lines
      ensures Valid() && Now() == Press(old(Now()), Enter)
      ensures modified == (old(modified) || Now() != old(Now()))
    {
      StaysOK(Now(), Enter);
      if num >= MAX_LINES { return; }
      BreakLine();
      cy := cy + 1;
      cx := 0;
      modified := true;
    }

    /** The cursor's line is cut in two. */
    method BreakLine()
      requires lines.Length == MAX_LINES && 0 <= num < MAX_LINES && InText(lines[..num], cy, cx)
      modifies this`num, lines
      ensures num == old(num) + 1 && lines[..num] == SplitLine(old(lines[..num]), cy, cx)
    {
      ghost var ls := lines[..num];
      OpenGap();
      var line := lines[cy];
      lines[cy + 1] := line[cx..];
      lines[cy] := line[..cx];
      num := num + 1;
      SplitForm(ls, lines[..num], cy, cx);
    }

    /** The lines behind the cursor's move one place down. */
    method OpenGap()
      requires 0 <= cy < num < lines.Length
      modifies lines
      ensures forall k :: 0 <= k <= cy ==> lines[k] == old(lines[k])
      ensures forall k :: cy + 1 < k <= num ==> lines[k] == old(lines[k - 1])
    {
      var i := num;
      while i > cy + 1
        invariant cy + 1 <= i <= num
        invariant forall k :: 0 <= k < i ==> lines[k] == old(lines[k])
        invariant forall k :: i < k <= num ==> lines[k] == old(lines[k - 1])
      {
        lines[i] := lines[i - 1];
        i := i - 1;
      }
    }

    method HandleBackspace()
      requires Valid()
      modifies this, lines
      ensures Valid() && Now() == Press(old(Now()), Backspace)
      ensures modified == (old(modified) || Now() != old(Now()))
    {
      StaysOK(Now(), Backspace);
      ghost var d := Now();
      if cx > 0 {
        var line := lines[cy];
        lines[cy] := line[..cx - 1] + line[cx..];
        assert lines[..num] == DeleteChar(d.ls, d.y, d.x);
        cx := cx - 1;
        modified := true;
      } else if cy > 0 {
        var prevLen := |lines[cy - 1]|;
        if prevLen + |lines[cy]| < MAX_LEN {
          MergeLine();
          cy := cy - 1;
          cx := prevLen;
          modified := true;
        }
      }
    }

    /** The cursor's line is appended to the one before it. */
    method MergeLine()
      requires 0 < cy < num <= lines.Length
      modifies this`num, lines
      ensures num == old(num) - 1 && lines[..num] == JoinLines(old(lines[..num]), cy)
    {
      ghost var ls := lines[..num];
      lines[cy - 1] := lines[cy - 1] + lines[cy];
      CloseGap();
      num := num - 1;
      JoinForm(ls, lines[..num], cy);
    }

    /** The lines behind the cursor's move one place up, over it. */
    method CloseGap()
      requires 0 <= cy < num <= lines.Length
      modifies lines
      ensures forall k :: 0 <= k < cy ==> lines[k] == old(lines[k])
      ensures forall k :: cy <= k < num - 1 ==> lines[k] == old(lines[k + 1])
    {
      var i := cy;
      while i < num - 1
        invariant cy <= i <= num - 1
        invariant forall k :: 0 <= k < cy ==> lines[k] == old(lines[k])
        invariant forall k :: cy <= k < i ==> lines[k] == old(lines[k + 1])
        invariant forall k :: i <= k < num ==> lines[k] == old(lines[k])
      {
        lines[i] := lines[i + 1];
        i := i + 1;
      }
    }

    method MoveCursor(k: Key)
      requires Valid() && (k.Up? || k.Down? || k.Left? || k.Right?)
      modifies this`cx, this`cy
      ensures Valid() && Now() == Press(old(Now()), k)
    {
      StaysOK(Now(), k);
      match k {
        case Up =>
          if cy > 0 { cy := cy - 1; }
          if cx > |lines[cy]| { cx := |lines[cy]|; }
        case Down =>
          if cy < num - 1 { cy := cy + 1; }
          if cx > |lines[cy]| { cx := |lines[cy]|; }
        case Left =>
          if cx > 0 { cx := cx - 1; } else if cy > 0 { cy := cy - 1; cx := |lines[cy]|; }
        case Right =>
          if cx < |lines[cy]| { cx := cx + 1; } else if cy < num - 1 { cy := cy + 1; cx := 0; }
      }
    }

    /** The buffer save_file writes. */
    method SaveFile() returns (buf: seq<int>)
      requires Valid()
      ensures buf == Saved(Now().ls)
    {
      buf := [];
      var i := 0;
      while i < num
        invariant 0 <= i <= num && buf == Saved(lines[..i])
      {
        SavedSnoc(lines[..i], lines[i]);
        assert lines[..i] + [lines[i]] == lines[..i + 1];
        buf := buf + lines[i] + [NL];
        i := i + 1;
      }
    }

    /** load_file, given a file's bytes; it leaves the cursor where it is. */
    method LoadFile(buf: seq<int>)
      requires lines.Length == MAX_LINES
      modifies this`num, lines
      ensures buf == [] ==> num == old(num) && lines[..] == old(lines[..])
      ensures buf != [] ==> 0 < num <= MAX_LINES && lines[..num] == LoadFrom(buf, 0, [], [])
      ensures buf != [] ==> OK(Doc(lines[..num], 0, 0)) && (InText(lines[..num], cy, cx) ==> Valid())
    {
      if buf == [] { return; }
      LoadOK(buf, 0, [], []);
      LoadLoop(buf);
    }

    /** The loop of load_file. */
    method LoadLoop(buf: seq<int>)
      requires lines.Length == MAX_LINES
      modifies this`num, lines
      ensures 0 <= num <= MAX_LINES && lines[..num] == LoadFrom(buf, 0, [], [])
    {
      num := 0;
      var cur: Line := [];
      var i := 0;
      while i < |buf|
        invariant 0 <= i <= |buf| && 0 <= num < MAX_LINES
        invariant LoadFrom(buf, i, lines[..num], cur) == LoadFrom(buf, 0, [], [])
      {
        if buf[i] == NL {
          ghost var ls := lines[..num];
          lines[num] := cur;
          num := num + 1;
          assert lines[..num] == ls + [cur];
          if num >= MAX_LINES { return; }
          cur := [];
        } else if buf[i] != CR && |cur| < MAX_LEN {
          cur := cur + [buf[i]];
        }
        i := i + 1;
      }
      ghost var ls := lines[..num];
      lines[num] := cur;
      num := num + 1;
      assert lines[..num] == ls + [cur];
    }
  }
}

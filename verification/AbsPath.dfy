/**
 get_absolute_path (kernel/utils/utils.c): a path is parsed into components,
 dots are resolved on a stack of at most 64, and the stack is printed back.
 */
module AbsPath {
  import opened PathText

  const DEPTH: int := 64
  const DOT: Text := [46]
  const DOTDOT: Text := [46, 46]

  // ----- Parsing and printing -----

  /** One component against the stack of those kept so far. */
  function Push(stack: seq<Text>, c: Text): seq<Text> {
    if c == DOT then stack
    else if c == DOTDOT then (if stack == [] then [] else stack[..|stack| - 1])
    else if |stack| < DEPTH then stack + [c]
    else stack
  }

  function Fold(stack: seq<Text>, cs: seq<Text>): seq<Text>
    decreases |cs|
  {
    if cs == [] then stack else Fold(Push(stack, cs[0]), cs[1..])
  }

  /** The components with slashes between them. */
  function Body(stack: seq<Text>): Text {
    var n := |stack|;
    if n == 0 then [] else if n == 1 then stack[0] else Body(stack[..n - 1]) + [SLASH] + stack[n - 1]
  }

  function Printed(stack: seq<Text>): Text { [SLASH] + Body(stack) }

  predicate IsAbsolute(path: Text) { path != [] && path[0] == SLASH }

  /** The text that is parsed: the path itself, or the current directory with the path behind it. */
  function Whole(cwd: Text, path: Text): Text {
    if IsAbsolute(path) then path
    else cwd + (if cwd != [] && cwd[|cwd| - 1] != SLASH then [SLASH] else []) + path
  }

  function Stack(cwd: Text, path: Text): seq<Text> { Fold([], Components(Whole(cwd, path), 0)) }

  function Absolute(cwd: Text, path: Text): Text { Printed(Stack(cwd, path)) }

  // ----- What the loops compute -----

  method GetAbsolutePath(cwd: Text, path: Text) returns (out: Text)
    ensures out == Absolute(cwd, path)
  {
    var temp := path;
    if !(|path| > 0 && path[0] == SLASH) {
      temp := cwd;
      if |temp| > 0 && temp[|temp| - 1] != SLASH { temp := temp + [SLASH]; }
      temp := temp + path;
    }
    assert temp == Whole(cwd, path);
    var stack := Resolve(temp);
    out := Print(stack);
  }

  /** The printing loop. */
  method Print(stack: seq<Text>) returns (out: Text)
    ensures out == Printed(stack)
  {
    out := [SLASH];
    var i := 0;
    while i < |stack|
      invariant 0 <= i <= |stack|
      invariant out == [SLASH] + PrintedTo(stack, i)
    {
      PrintedNext(stack, i);
      out := out + stack[i];
      if i < |stack| - 1 { out := out + [SLASH]; }
      i := i + 1;
    }
    assert stack[..|stack|] == stack;
  }

  /** What the printing loop has appended after `i` rounds. */
  function PrintedTo(stack: seq<Text>, i: nat): Text
    requires i <= |stack|
  {
    Body(stack[..i]) + if 0 < i < |stack| then [SLASH] else []
  }

  lemma PrintedNext(stack: seq<Text>, i: nat)
    requires i < |stack|
    ensures PrintedTo(stack, i + 1) == PrintedTo(stack, i) + stack[i] + if i < |stack| - 1 then [SLASH] else []
  {
    assert stack[..i + 1][..i] == stack[..i];
  }

  /** The parsing loop. */
  method Resolve(temp: Text) returns (stack: seq<Text>)
    ensures stack == Fold([], Components(temp, 0))
  {
    stack := [];
    var p := 0;
    while p < |temp|
      invariant 0 <= p <= |temp|
      invariant Fold(stack, Components(temp, p)) == Fold([], Components(temp, 0))
    {
      if temp[p] == SLASH {
        p := p + 1;
      } else {
        var start := p;
        p := FindEnd(temp, p);
        var c := temp[start..p];
        assert Components(temp, start) == [c] + Components(temp, p);
        assert ([c] + Components(temp, p))[1..] == Components(temp, p);
        if c == DOT {
        } else if c == DOTDOT {
          if |stack| > 0 { stack := stack[..|stack| - 1]; }
        } else if |stack| < DEPTH {
          stack := stack + [c];
        }
      }
    }
  }

  method FindEnd(temp: Text, start: nat) returns (p: nat)
    requires start < |temp| && temp[start] != SLASH
    ensures p == TokenEnd(temp, start) > start
  {
    p := start;
    while p < |temp| && temp[p] != SLASH
      invariant start <= p <= |temp| && TokenEnd(temp, p) == TokenEnd(temp, start)
    {
      p := p + 1;
    }
  }

  // ----- Canonical paths -----

  predicate Plain(c: Text) { c != [] && SLASH !in c && c != DOT && c != DOTDOT }

  ghost predicate Canonical(stack: seq<Text>) { |stack| <= DEPTH && forall k :: 0 <= k < |stack| ==> Plain(stack[k]) }

  lemma {:induction false} FoldCanonical(stack: seq<Text>, cs: seq<Text>)
    requires Canonical(stack) && forall k :: 0 <= k < |cs| ==> cs[k] != [] && SLASH !in cs[k]
    ensures Canonical(Fold(stack, cs))
    decreases |cs|
  {
    if cs != [] { FoldCanonical(Push(stack, cs[0]), cs[1..]); }
  }

  /** The result is a canonical path: no empty, "." or ".." component, and at most 64 of them. */
  lemma AbsoluteCanonical(cwd: Text, path: Text)
    ensures Canonical(Stack(cwd, path)) && Absolute(cwd, path) == Printed(Stack(cwd, path))
  {
    FoldCanonical([], Components(Whole(cwd, path), 0));
  }

  lemma {:induction false} ComponentsOfBody(stack: seq<Text>)
    requires forall k :: 0 <= k < |stack| ==> stack[k] != [] && SLASH !in stack[k]
    ensures Components(Body(stack), 0) == stack
  {
    var n := |stack|;
    if n == 1 {
      ComponentsPlain(stack[0]);
    } else if n > 1 {
      ComponentsOfBody(stack[..n - 1]);
      ComponentsJoin(Body(stack[..n - 1]), stack[n - 1]);
      ComponentsPlain(stack[n - 1]);
    }
  }

  lemma ComponentsAfterSlash(s: Text)
    ensures Components([SLASH] + s, 0) == Components(s, 0)
  {
    ComponentsShift([SLASH], s, 0);
    assert ([SLASH] + s)[0] == SLASH;
  }

  /** Printing and parsing are inverse on canonical stacks. */
  lemma ParsePrinted(stack: seq<Text>)
    requires Canonical(stack)
    ensures Components(Printed(stack), 0) == stack
  {
    ComponentsOfBody(stack);
    ComponentsAfterSlash(Body(stack));
  }

  lemma {:induction false} FoldPlain(stack: seq<Text>, cs: seq<Text>)
    requires |stack| + |cs| <= DEPTH && forall k :: 0 <= k < |cs| ==> Plain(cs[k])
    ensures Fold(stack, cs) == stack + cs
    decreases |cs|
  {
    if cs != [] {
      FoldPlain(stack + [cs[0]], cs[1..]);
      assert stack + [cs[0]] + cs[1..] == stack + cs;
    }
  }

  lemma {:induction false} FoldAppend(stack: seq<Text>, a: seq<Text>, b: seq<Text>)
    ensures Fold(stack, a + b) == Fold(Fold(stack, a), b)
    decreases |a|
  {
    if a == [] {
      assert a + b == b;
    } else {
      assert (a + b)[1..] == a[1..] + b;
      FoldAppend(Push(stack, a[0]), a[1..], b);
    }
  }

  /** A result resolves to itself, from any directory. */
  lemma Idempotent(cwd: Text, path: Text, elsewhere: Text)
    ensures Absolute(elsewhere, Absolute(cwd, path)) == Absolute(cwd, path)
  {
    var stack := Stack(cwd, path);
    AbsoluteCanonical(cwd, path);
    ParsePrinted(stack);
    FoldPlain([], stack);
    assert [] + stack == stack;
  }

  /** The components of a directory with a relative path behind it. */
  lemma WholeComponents(cwd: Text, path: Text)
    requires !IsAbsolute(path)
    ensures Components(Whole(cwd, path), 0) == Components(cwd, 0) + Components(path, 0)
  {
    if cwd == [] {
      assert Whole(cwd, path) == path;
      assert Components(cwd, 0) + Components(path, 0) == Components(path, 0);
    } else if cwd[|cwd| - 1] != SLASH {
      ComponentsJoin(cwd, path);
    } else {
      var dir := cwd[..|cwd| - 1];
      assert cwd == dir + [SLASH] + [] && Whole(cwd, path) == dir + [SLASH] + path;
      ComponentsJoin(dir, []);
      ComponentsJoin(dir, path);
      assert Components(dir, 0) + [] == Components(dir, 0);
    }
  }

  /** Resolving a path and then a relative one is resolving the two joined, whatever the depth. */
  lemma Composes(cwd: Text, a: Text, b: Text)
    requires a != [] && !IsAbsolute(b)
    ensures Absolute(Absolute(cwd, a), b) == Absolute(cwd, a + [SLASH] + b)
  {
    AbsoluteCanonical(cwd, a);
    StackBelow(Stack(cwd, a), b);
    JoinedWhole(cwd, a, b);
    FoldAppend([], Components(Whole(cwd, a), 0), Components(b, 0));
  }

  /** One more component: a name goes one level down, within the limit; "." stays; ".." goes one level up. */
  lemma Descends(cwd: Text, a: Text, c: Text)
    requires a != [] && Plain(c)
    ensures var cs := Components(Absolute(cwd, a), 0);
      && |cs| <= 64
      && Absolute(cwd, a + [SLASH] + c) == Printed(if |cs| < 64 then cs + [c] else cs)
      && Absolute(cwd, a + [SLASH] + [46]) == Absolute(cwd, a)
      && Absolute(cwd, a + [SLASH] + [46, 46]) == Printed(if cs == [] then [] else cs[..|cs| - 1])
  {
    var stack := Stack(cwd, a);
    AbsoluteCanonical(cwd, a);
    ParsePrinted(stack);
    ComponentsPlain(c);
    assert c[0] in c;
    OneMore(cwd, a, c);
    ComponentsPlain([46]);
    OneMore(cwd, a, [46]);
    ComponentsPlain([46, 46]);
    OneMore(cwd, a, [46, 46]);
  }

  lemma OneMore(cwd: Text, a: Text, c: Text)
    requires a != [] && !IsAbsolute(c) && Components(c, 0) == [c]
    ensures Stack(cwd, a + [SLASH] + c) == Push(Stack(cwd, a), c)
  {
    JoinedWhole(cwd, a, c);
    FoldAppend([], Components(Whole(cwd, a), 0), [c]);
    assert [c][1..] == [];
  }

  /** A name and then ".." lead back. */
  lemma UpUndoesDown(cwd: Text, a: Text, c: Text)
    requires a != [] && Plain(c) && |Components(Absolute(cwd, a), 0)| < 64
    ensures Absolute(cwd, a + [SLASH] + c + [SLASH] + [46, 46]) == Absolute(cwd, a)
  {
    var stack, b := Stack(cwd, a), a + [SLASH] + c;
    AbsoluteCanonical(cwd, a);
    ParsePrinted(stack);
    ComponentsPlain(c);
    assert c[0] in c;
    OneMore(cwd, a, c);
    ComponentsPlain([46, 46]);
    OneMore(cwd, b, [46, 46]);
    assert (stack + [c])[..|stack|] == stack;
  }

  /** A path is printed with one slash before each component, and as a slash if there is none. */
  lemma PrintedIs(cs: seq<Text>, c: Text)
    ensures Printed([]) == [SLASH]
    ensures Printed(cs + [c]) == (if cs == [] then [] else Printed(cs)) + [SLASH] + c
  {
    assert (cs + [c])[..|cs|] == cs;
  }

  /** An absolute path does not depend on the directory; a relative one is resolved below it. */
  lemma StartsFrom(cwd: Text, a: Text)
    ensures IsAbsolute(a) ==> Absolute(cwd, a) == Absolute([], a)
    ensures !IsAbsolute(a) ==> Absolute(cwd, a) == Absolute([], cwd + [SLASH] + a)
  {
    if !IsAbsolute(a) {
      var b := cwd + [SLASH] + a;
      WholeComponents(cwd, a);
      ComponentsJoin(cwd, a);
      assert [] + b == b;
    }
  }

  lemma JoinedWhole(cwd: Text, a: Text, b: Text)
    requires a != []
    ensures Components(Whole(cwd, a + [SLASH] + b), 0) == Components(Whole(cwd, a), 0) + Components(b, 0)
  {
    var ab := a + [SLASH] + b;
    assert ab[0] == a[0];
    assert Whole(cwd, ab) == Whole(cwd, a) + [SLASH] + b;
    ComponentsJoin(Whole(cwd, a), b);
  }

  // ----- An empty first path -----

  /** How deep a directory of depth `n` is after one more component. */
  function NextDepth(n: nat, c: Text): nat {
    if c == DOT then n
    else if c == DOTDOT then (if n > 0 then n - 1 else 0)
    else if n < DEPTH then n + 1
    else n
  }

  function FinalDepth(n: nat, cs: seq<Text>): nat
    decreases |cs|
  {
    if cs == [] then n else FinalDepth(NextDepth(n, cs[0]), cs[1..])
  }

  /** Going along `cs` from a directory of depth `n`, one comes by the root directory. */
  predicate ComesByRoot(n: nat, cs: seq<Text>)
    decreases |cs|
  {
    n == 0 || (cs != [] && ComesByRoot(NextDepth(n, cs[0]), cs[1..]))
  }

  lemma {:induction false} FoldDepth(stack: seq<Text>, cs: seq<Text>)
    ensures |Fold(stack, cs)| == FinalDepth(|stack|, cs)
    decreases |cs|
  {
    if cs != [] { FoldDepth(Push(stack, cs[0]), cs[1..]); }
  }

  /** From the root on it is all the same where one came from. */
  lemma {:induction false} RootForgets(stack: seq<Text>, other: seq<Text>, cs: seq<Text>)
    requires |other| <= |stack| <= DEPTH && ComesByRoot(|stack|, cs)
    ensures Fold(stack, cs) == Fold(other, cs)
    decreases |cs|
  {
    if stack != [] { RootForgets(Push(stack, cs[0]), Push(other, cs[0]), cs[1..]); }
  }

  /** Without it, and without the depth limit in the way, the deeper start ends deeper. */
  lemma {:induction false} DeeperEndsDeeper(n: nat, m: nat, cs: seq<Text>)
    requires m < n && !ComesByRoot(n, cs) && n + |cs| <= DEPTH
    ensures FinalDepth(m, cs) < FinalDepth(n, cs)
    decreases |cs|
  {
    if cs != [] { DeeperEndsDeeper(NextDepth(n, cs[0]), NextDepth(m, cs[0]), cs[1..]); }
  }

  /** A relative path below a canonical directory. */
  lemma StackBelow(stack: seq<Text>, b: Text)
    requires Canonical(stack) && !IsAbsolute(b)
    ensures Stack(Printed(stack), b) == Fold(stack, Components(b, 0))
  {
    ParsePrinted(stack);
    WholeComponents(Printed(stack), b);
    FoldAppend([], stack, Components(b, 0));
    FoldPlain([], stack);
    assert [] + stack == stack;
  }

  lemma PrintedInjective(a: seq<Text>, b: seq<Text>)
    requires Canonical(a) && Canonical(b) && Printed(a) == Printed(b)
    ensures a == b
  {
    ParsePrinted(a);
    ParsePrinted(b);
  }

  lemma FromRoot(cwd: Text, b: Text)
    ensures Stack(cwd, [SLASH] + b) == Fold([], Components(b, 0))
  {
    ComponentsAfterSlash(b);
  }

  /** Resolving the empty path and then `b` gives what resolving "" + "/" + `b` does. */
  predicate EmptyComposes(cwd: Text, b: Text) {
    Absolute(Absolute(cwd, []), b) == Absolute(cwd, [SLASH] + b)
  }

  lemma EmptyFolds(cwd: Text, b: Text)
    requires !IsAbsolute(b)
    ensures EmptyComposes(cwd, b) <==> Fold(Stack(cwd, []), Components(b, 0)) == Fold([], Components(b, 0))
  {
    var dir := Absolute(cwd, []);
    AbsoluteCanonical(cwd, []);
    AbsoluteCanonical(dir, b);
    AbsoluteCanonical(cwd, [SLASH] + b);
    StackBelow(Stack(cwd, []), b);
    FromRoot(cwd, b);
    if EmptyComposes(cwd, b) { PrintedInjective(Stack(dir, b), Stack(cwd, [SLASH] + b)); }
  }

  /**
   With an empty first path the joined text is absolute.  Resolving in two steps agrees with it when
   `b` comes by the root directory, and disagrees when the two ways end at different depths; where
   the depth limit is not in the way, these are all cases.
   */
  lemma EmptyLosesDirectory(cwd: Text, b: Text)
    ensures var n, cs := |Stack(cwd, [])|, Components(b, 0);
      && (IsAbsolute(b) || ComesByRoot(n, cs) ==> EmptyComposes(cwd, b))
      && (!IsAbsolute(b) && FinalDepth(n, cs) != FinalDepth(0, cs) ==> !EmptyComposes(cwd, b))
      && (!IsAbsolute(b) && n + |cs| <= DEPTH ==> (EmptyComposes(cwd, b) <==> ComesByRoot(n, cs)))
      && (Plain(b) ==> (EmptyComposes(cwd, b) <==> n == 0))
  {
    var stack, cs := Stack(cwd, []), Components(b, 0);
    AbsoluteCanonical(cwd, []);
    FromRoot(cwd, b);
    if !IsAbsolute(b) {
      EmptyFolds(cwd, b);
      FoldDepth(stack, cs);
      FoldDepth([], cs);
      if ComesByRoot(|stack|, cs) { RootForgets(stack, [], cs); }
      if !ComesByRoot(|stack|, cs) && |stack| + |cs| <= DEPTH { DeeperEndsDeeper(|stack|, 0, cs); }
    }
    if Plain(b) { OneName(|stack|, b); }
  }

  lemma OneName(n: nat, b: Text)
    requires Plain(b) && n <= DEPTH
    ensures !IsAbsolute(b) && Components(b, 0) == [b]
    ensures ComesByRoot(n, [b]) <==> n == 0
    ensures n > 0 ==> FinalDepth(n, [b]) != FinalDepth(0, [b])
  {
    ComponentsPlain(b);
    assert b[0] in b;
    assert [b][1..] == [];
  }

  /** At the depth limit the names decide: below "/a", as many names `a` as fit lead to the same place. */
  lemma LimitHides(a: Text)
    requires Plain(a)
    ensures EmptyComposes([SLASH] + a, Body(seq(DEPTH, _ => a)))
    ensures !ComesByRoot(|Stack([SLASH] + a, [])|, Components(Body(seq(DEPTH, _ => a)), 0))
  {
    var cs := seq(DEPTH, _ => a);
    var b := Body(cs);
    ComponentsOfBody(cs);
    BodyRelative(cs);
    BelowOne(a);
    EmptyFolds([SLASH] + a, b);
    FoldPlain([], cs);
    assert [] + cs == cs;
    FoldFull([a], cs, a);
    NeverRoot(1, cs);
  }

  lemma {:induction false} NeverRoot(n: nat, cs: seq<Text>)
    requires n > 0 && forall k :: 0 <= k < |cs| ==> Plain(cs[k])
    ensures !ComesByRoot(n, cs)
    decreases |cs|
  {
    if cs != [] { NeverRoot(NextDepth(n, cs[0]), cs[1..]); }
  }

  /** Pushing one name again and again fills a stack of that name up to the limit. */
  lemma {:induction false} FoldFull(stack: seq<Text>, cs: seq<Text>, a: Text)
    requires Plain(a) && |stack| <= DEPTH <= |stack| + |cs|
    requires (forall k :: 0 <= k < |stack| ==> stack[k] == a) && forall k :: 0 <= k < |cs| ==> cs[k] == a
    ensures Fold(stack, cs) == seq(DEPTH, _ => a)
    decreases |cs|
  {
    if cs != [] { FoldFull(Push(stack, cs[0]), cs[1..], a); }
  }

  lemma BelowOne(a: Text)
    requires Plain(a)
    ensures Stack([SLASH] + a, []) == [a]
  {
    var cwd := [SLASH] + a;
    ComponentsAfterSlash(a);
    ComponentsPlain(a);
    WholeComponents(cwd, []);
    assert Components(cwd, 0) + Components([], 0) == [a];
    FoldPlain([], [a]);
    assert [] + [a] == [a];
  }

  lemma {:induction false} BodyRelative(stack: seq<Text>)
    requires forall k :: 0 <= k < |stack| ==> Plain(stack[k])
    ensures !IsAbsolute(Body(stack)) && (stack != [] ==> Body(stack) != [])
  {
    var n := |stack|;
    if n == 1 {
      assert stack[0][0] in stack[0];
    } else if n > 1 {
      BodyRelative(stack[..n - 1]);
    }
  }

  // ----- Room -----

  function Weight(cs: seq<Text>): nat { if cs == [] then 0 else |cs[0]| + 1 + Weight(cs[1..]) }

  lemma {:induction false} WeightAppend(a: seq<Text>, b: seq<Text>)
    ensures Weight(a + b) == Weight(a) + Weight(b)
  {
    if a == [] {
      assert a + b == b;
    } else {
      assert (a + b)[1..] == a[1..] + b;
      WeightAppend(a[1..], b);
    }
  }

  lemma {:induction false} ComponentsWeight(s: Text, i: int)
    requires 0 <= i <= |s|
    ensures Weight(Components(s, i)) <= |s| - i + if i < |s| && s[i] == SLASH then 0 else 1
    decreases |s| - i
  {
    if i < |s| {
      if s[i] == SLASH {
        ComponentsWeight(s, i + 1);
      } else {
        var e := TokenEnd(s, i);
        ComponentsWeight(s, e);
        assert ([s[i..e]] + Components(s, e))[1..] == Components(s, e);
        if e == |s| { assert Components(s, e) == []; }
      }
    }
  }

  lemma {:induction false} FoldWeight(stack: seq<Text>, cs: seq<Text>)
    ensures Weight(Fold(stack, cs)) <= Weight(stack) + Weight(cs)
    decreases |cs|
  {
    if cs != [] {
      WeightAppend(stack, [cs[0]]);
      if stack != [] {
        assert stack[..|stack| - 1] + [stack[|stack| - 1]] == stack;
        WeightAppend(stack[..|stack| - 1], [stack[|stack| - 1]]);
      }
      FoldWeight(Push(stack, cs[0]), cs[1..]);
    }
  }

  lemma {:induction false} PrintedLength(stack: seq<Text>)
    ensures |Printed(stack)| == if stack == [] then 1 else Weight(stack)
  {
    var n := |stack|;
    if n > 1 {
      PrintedLength(stack[..n - 1]);
      assert stack == stack[..n - 1] + [stack[n - 1]];
      WeightAppend(stack[..n - 1], [stack[n - 1]]);
    }
  }

  /** The result is at most one character longer than the text that was parsed, and no longer if that was absolute. */
  lemma ResultFits(cwd: Text, path: Text)
    ensures |Absolute(cwd, path)| <= |Whole(cwd, path)| + if IsAbsolute(Whole(cwd, path)) then 0 else 1
  {
    var w := Whole(cwd, path);
    ComponentsWeight(w, 0);
    FoldWeight([], Components(w, 0));
    PrintedLength(Stack(cwd, path));
  }
}

/** Slash-separated path text as bytes: its non-empty components, and how joining texts joins them. */
module PathText {
  const SLASH: int := 47

  type Text = seq<int>

  /** The end of the run of non-slash characters at `i`. */
  function TokenEnd(s: Text, i: int): (j: int)
    requires 0 <= i <= |s|
    ensures i <= j <= |s| && (j < |s| ==> s[j] == SLASH) && forall k :: i <= k < j ==> s[k] != SLASH
    decreases |s| - i
  {
    if i == |s| || s[i] == SLASH then i else TokenEnd(s, i + 1)
  }

  /** The non-empty components of `s` from position `i`. */
  function Components(s: Text, i: int): (r: seq<Text>)
    requires 0 <= i <= |s|
    ensures forall k :: 0 <= k < |r| ==> |r[k]| > 0 && SLASH !in r[k]
    decreases |s| - i
  {
    if i == |s| then []
    else if s[i] == SLASH then Components(s, i + 1)
    else [s[i..TokenEnd(s, i)]] + Components(s, TokenEnd(s, i))
  }

  lemma {:induction false} TokenEndAppend(a: Text, b: Text, i: int)
    requires 0 <= i <= |a|
    ensures TokenEnd(a + [SLASH] + b, i) == TokenEnd(a, i)
    decreases |a| - i
  {
    var s := a + [SLASH] + b;
    if i < |a| {
      assert s[i] == a[i];
      if a[i] != SLASH { TokenEndAppend(a, b, i + 1); }
    } else {
      assert s[i] == SLASH;
    }
  }

  lemma {:induction false} TokenEndShift(a: Text, b: Text, i: int)
    requires 0 <= i <= |b|
    ensures TokenEnd(a + b, |a| + i) == |a| + TokenEnd(b, i)
    decreases |b| - i
  {
    if i < |b| && b[i] != SLASH {
      assert (a + b)[|a| + i] == b[i];
      TokenEndShift(a, b, i + 1);
    } else if i < |b| {
      assert (a + b)[|a| + i] == b[i];
    }
  }

  lemma {:induction false} ComponentsShift(a: Text, b: Text, i: int)
    requires 0 <= i <= |b|
    ensures Components(a + b, |a| + i) == Components(b, i)
    decreases |b| - i
  {
    var s := a + b;
    if i < |b| {
      assert s[|a| + i] == b[i];
      if b[i] == SLASH {
        ComponentsShift(a, b, i + 1);
      } else {
        TokenEndShift(a, b, i);
        assert s[|a| + i..|a| + TokenEnd(b, i)] == b[i..TokenEnd(b, i)];
        ComponentsShift(a, b, TokenEnd(b, i));
      }
    }
  }

  lemma {:induction false} ComponentsAppend(a: Text, b: Text, i: int)
    requires 0 <= i <= |a|
    ensures Components(a + [SLASH] + b, i) == Components(a, i) + Components(b, 0)
    decreases |a| - i
  {
    var s := a + [SLASH] + b;
    if i == |a| {
      assert s[i] == SLASH && s == (a + [SLASH]) + b;
      ComponentsShift(a + [SLASH], b, 0);
    } else {
      assert s[i] == a[i];
      if a[i] == SLASH {
        ComponentsAppend(a, b, i + 1);
      } else {
        TokenEndAppend(a, b, i);
        assert s[i..TokenEnd(a, i)] == a[i..TokenEnd(a, i)];
        ComponentsAppend(a, b, TokenEnd(a, i));
      }
    }
  }

  /** Joining two texts with a slash joins their components. */
  lemma ComponentsJoin(a: Text, b: Text)
    ensures Components(a + [SLASH] + b, 0) == Components(a, 0) + Components(b, 0)
  {
    ComponentsAppend(a, b, 0);
  }

  lemma {:induction false} TokenEndPlain(s: Text, i: int)
    requires 0 <= i <= |s| && SLASH !in s
    ensures TokenEnd(s, i) == |s|
    decreases |s| - i
  {
    if i < |s| { TokenEndPlain(s, i + 1); }
  }

  /** A text without slashes is its own only component. */
  lemma ComponentsPlain(s: Text)
    requires SLASH !in s
    ensures Components(s, 0) == if s == [] then [] else [s]
  {
    TokenEndPlain(s, 0);
    if s != [] { assert s[0..|s|] == s && Components(s, |s|) == []; }
  }
}

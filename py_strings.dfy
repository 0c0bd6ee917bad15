/**
 Python's `str.startswith` and `str.strip`, as the orchestrator uses them.
 `s.strip(chars)` drops characters that belong to the SET `chars` from both
 ends (it does not remove a prefix); `s.strip()` drops whitespace as CPython's
 `str.isspace` defines it.
 */
module PyStrings {

  /** CPython's whitespace set for `str.strip()` with no argument. */
  predicate IsSpace(c: char) {
    || ('\t' <= c <= '\r')
    || ('\U{1C}' <= c <= ' ')
    || c == '\U{85}' || c == '\U{A0}' || c == '\U{1680}'
    || ('\U{2000}' <= c <= '\U{200A}')
    || c == '\U{2028}' || c == '\U{2029}' || c == '\U{202F}'
    || c == '\U{205F}' || c == '\U{3000}'
  }

  /** The argument of `strip`: none (whitespace) or a string read as a set of characters. */
  datatype StripArg = Whitespace | AnyOf(chars: string)

  predicate Drops(arg: StripArg, c: char) {
    match arg
    case Whitespace => IsSpace(c)
    case AnyOf(chars) => c in chars
  }

  /** Every character of `s` is one that `arg` drops. */
  predicate Only(s: string, arg: StripArg) {
    forall k :: 0 <= k < |s| ==> Drops(arg, s[k])
  }

  /** Neither end of `r` is a character that `arg` drops. */
  predicate Bare(r: string, arg: StripArg) {
    r == [] || (!Drops(arg, r[0]) && !Drops(arg, r[|r| - 1]))
  }

  /** `r` is the slice of `s` at `i`, and everything around it is dropped by `arg`. */
  predicate CutAt(s: string, r: string, i: nat, arg: StripArg) {
    && i + |r| <= |s|
    && s[i..i + |r|] == r
    && Only(s[..i], arg)
    && Only(s[i + |r|..], arg)
  }

  /** Python's `s.startswith(p)`. */
  predicate StartsWith(s: string, p: string) {
    p <= s
  }

  /** Python's `s.lstrip(arg)`: the longest suffix of `s` that does not start with a dropped character. */
  function LStrip(s: string, arg: StripArg): (r: string)
    ensures |r| <= |s| && r == s[|s| - |r|..]
    ensures Only(s[..|s| - |r|], arg)
    ensures r == [] || !Drops(arg, r[0])
  {
    if s != [] && Drops(arg, s[0]) then
      var r := LStrip(s[1..], arg);
      assert s[1..][..|s| - 1 - |r|] == s[1..|s| - |r|];
      r
    else
      s
  }

  /** Python's `s.rstrip(arg)`: the longest prefix of `s` that does not end with a dropped character. */
  function RStrip(s: string, arg: StripArg): (r: string)
    ensures |r| <= |s| && r == s[..|r|]
    ensures Only(s[|r|..], arg)
    ensures r == [] || !Drops(arg, r[|r| - 1])
  {
    if s != [] && Drops(arg, s[|s| - 1]) then
      var r := RStrip(s[..|s| - 1], arg);
      assert s[..|s| - 1][|r|..] == s[|r|..|s| - 1];
      assert forall k :: |r| <= k < |s| - 1 ==> s[k] == s[..|s| - 1][|r|..][k - |r|];
      r
    else
      s
  }

  /** Python's `s.strip(arg)`. */
  function Strip(s: string, arg: StripArg): string {
    RStrip(LStrip(s, arg), arg)
  }

  /** Trimming a dropped prefix and then a dropped suffix leaves a cut of the original. */
  lemma SliceOfSlice(s: string, l: string, r: string, arg: StripArg)
    requires |l| <= |s| && l == s[|s| - |l|..] && Only(s[..|s| - |l|], arg)
    requires |r| <= |l| && r == l[..|r|] && Only(l[|r|..], arg)
    ensures CutAt(s, r, |s| - |l|, arg)
  {
    var i := |s| - |l|;
    assert s[i..i + |r|] == l[..|r|];
    assert s[i + |r|..] == l[|r|..];
  }

  /** `strip` returns a slice of `s` with dropped characters on either side and at neither end. */
  lemma {:induction false} StripCut(s: string, arg: StripArg)
    ensures CutAt(s, Strip(s, arg), |s| - |LStrip(s, arg)|, arg)
    ensures Bare(Strip(s, arg), arg)
  {
    var l := LStrip(s, arg);
    var r := RStrip(l, arg);
    assert Strip(s, arg) == r;
    SliceOfSlice(s, l, r, arg);
    BareOfPrefix(l, r, arg);
  }

  /** A prefix of a string that starts with a kept character, itself ending in one, is bare. */
  lemma BareOfPrefix(l: string, r: string, arg: StripArg)
    requires |r| <= |l| && r == l[..|r|]
    requires l == [] || !Drops(arg, l[0])
    requires r == [] || !Drops(arg, r[|r| - 1])
    ensures Bare(r, arg)
  {
    if r != [] {
      assert r[0] == l[0];
    }
  }

  /** Any cut with only dropped characters before it and a kept character (or nothing) at it is `lstrip`. */
  lemma {:induction false} LStripAt(s: string, i: nat, arg: StripArg)
    requires i <= |s| && Only(s[..i], arg)
    requires i == |s| || !Drops(arg, s[i])
    ensures LStrip(s, arg) == s[i..]
  {
    if i > 0 {
      DropFirst(s, i, arg);
      LStripAt(s[1..], i - 1, arg);
    }
  }

  /** The slices `LStripAt` hands to its recursive call. */
  lemma DropFirst(s: string, i: nat, arg: StripArg)
    requires 0 < i <= |s| && Only(s[..i], arg)
    requires i == |s| || !Drops(arg, s[i])
    ensures Drops(arg, s[0]) && Only(s[1..][..i - 1], arg)
    ensures i - 1 == |s[1..]| || !Drops(arg, s[1..][i - 1])
    ensures s[1..][i - 1..] == s[i..]
  {
    assert s[..i][0] == s[0];
    assert s[1..][..i - 1] == s[1..i];
  }

  /** Any cut with only dropped characters after it and a kept character (or nothing) before it is `rstrip`. */
  lemma {:induction false} RStripAt(s: string, j: nat, arg: StripArg)
    requires j <= |s| && Only(s[j..], arg)
    requires j == 0 || !Drops(arg, s[j - 1])
    ensures RStrip(s, arg) == s[..j]
  {
    if j < |s| {
      assert s[j..][|s| - 1 - j] == s[|s| - 1];
      assert s[..|s| - 1][j..] == s[j..|s| - 1];
      RStripAt(s[..|s| - 1], j, arg);
      assert s[..|s| - 1][..j] == s[..j];
    }
  }

  /** The two ensures of `Strip` determine its result: any bare slice with only dropped characters around it is the strip. */
  lemma {:induction false} StripUnique(s: string, r: string, i: nat, arg: StripArg)
    requires CutAt(s, r, i, arg) && Bare(r, arg)
    ensures r == Strip(s, arg)
  {
    if r == [] {
      StripAllDropped(s, i, arg);
    } else {
      StripKept(s, r, i, arg);
    }
  }

  /** A string made only of dropped characters strips to nothing. */
  lemma {:induction false} StripAllDropped(s: string, i: nat, arg: StripArg)
    requires i <= |s| && Only(s[..i], arg) && Only(s[i..], arg)
    ensures Strip(s, arg) == []
  {
    assert s[..i] + s[i..] == s;
    OnlyAppend(s[..i], s[i..], arg);
    assert s[..|s|] == s;
    LStripAt(s, |s|, arg);
  }

  /** A non-empty bare cut is what `strip` returns. */
  lemma {:induction false} StripKept(s: string, r: string, i: nat, arg: StripArg)
    requires CutAt(s, r, i, arg) && r != [] && Bare(r, arg)
    ensures Strip(s, arg) == r
  {
    KeptCutSlices(s, r, i, arg);
    LStripAt(s, i, arg);
    RStripAt(s[i..], |r|, arg);
  }

  /** The slices `StripKept` hands to `LStripAt` and `RStripAt`. */
  lemma KeptCutSlices(s: string, r: string, i: nat, arg: StripArg)
    requires CutAt(s, r, i, arg) && r != [] && Bare(r, arg)
    ensures i < |s| && !Drops(arg, s[i])
    ensures |r| <= |s[i..]| && Only(s[i..][|r|..], arg) && !Drops(arg, s[i..][|r| - 1])
    ensures s[i..][..|r|] == r
  {
    assert s[i] == r[0];
    assert s[i..][|r|..] == s[i + |r|..];
    assert s[i..][|r| - 1] == r[|r| - 1];
    assert s[i..][..|r|] == s[i..i + |r|];
  }

  lemma OnlyAppend(a: string, b: string, arg: StripArg)
    requires Only(a, arg) && Only(b, arg)
    ensures Only(a + b, arg)
  {
    forall k | 0 <= k < |a + b| ensures Drops(arg, (a + b)[k]) {
      if k >= |a| { assert (a + b)[k] == b[k - |a|]; }
    }
  }

  /** `t` holds at least one character that `arg` keeps. */
  predicate HasKept(t: string, arg: StripArg) {
    exists k :: 0 <= k < |t| && !Drops(arg, t[k])
  }

  /** `rstrip` of a concatenation: a tail with a kept character shields the head; a tail without one vanishes. */
  lemma {:induction false} RStripAppend(a: string, b: string, arg: StripArg)
    ensures HasKept(b, arg) ==> RStrip(a + b, arg) == a + RStrip(b, arg)
    ensures !HasKept(b, arg) ==> RStrip(a + b, arg) == RStrip(a, arg)
  {
    if HasKept(b, arg) {
      RStripAppendKept(a, b, arg);
    } else {
      RStripAppendDropped(a, b, arg);
    }
  }

  lemma {:induction false} RStripAppendKept(a: string, b: string, arg: StripArg)
    requires HasKept(b, arg)
    ensures RStrip(a + b, arg) == a + RStrip(b, arg)
  {
    var rb := RStrip(b, arg);
    var k :| 0 <= k < |b| && !Drops(arg, b[k]);
    forall m | |rb| <= m < |b| ensures Drops(arg, b[m]) {
      assert b[|rb|..][m - |rb|] == b[m];
    }
    assert k < |rb|;
    var j := |a| + |rb|;
    assert (a + b)[j..] == b[|rb|..];
    assert (a + b)[j - 1] == rb[|rb| - 1];
    RStripAt(a + b, j, arg);
    assert (a + b)[..j] == a + rb;
  }

  lemma {:induction false} RStripAppendDropped(a: string, b: string, arg: StripArg)
    requires !HasKept(b, arg)
    ensures RStrip(a + b, arg) == RStrip(a, arg)
  {
    var ra := RStrip(a, arg);
    var ab := a + b;
    assert Only(ab[|ra|..], arg) by {
      assert ab[|ra|..] == a[|ra|..] + b;
      OnlyAppend(a[|ra|..], b, arg);
    }
    assert ab[..|ra|] == ra;
    RStripAt(ab, |ra|, arg);
  }

  /** Two cuts in a row are one cut: what the second keeps is a slice of the original, and
      everything around it was dropped by one of the two. */
  lemma CutCompose(s: string, t: string, u: string, i: nat, j: nat, a: StripArg, b: StripArg)
    requires CutAt(s, t, i, a) && CutAt(t, u, j, b)
    ensures i + j + |u| <= |s| && s[i + j..i + j + |u|] == u
    ensures forall k :: 0 <= k < i + j ==> Drops(a, s[k]) || Drops(b, s[k])
    ensures forall k :: i + j + |u| <= k < |s| ==> Drops(a, s[k]) || Drops(b, s[k])
  {
    forall m | 0 <= m < |u| ensures s[i + j + m] == u[m] {
      assert u[m] == t[j..j + |u|][m] == t[j + m] == s[i..i + |t|][j + m];
    }
    forall k | 0 <= k < i + j ensures Drops(a, s[k]) || Drops(b, s[k]) {
      if k < i {
        assert s[..i][k] == s[k];
      } else {
        assert t[..j][k - i] == t[k - i] == s[k];
      }
    }
    forall k | i + j + |u| <= k < |s| ensures Drops(a, s[k]) || Drops(b, s[k]) {
      if k < i + |t| {
        assert t[j + |u|..][k - i - j - |u|] == t[k - i] == s[k];
      } else {
        assert s[i + |t|..][k - i - |t|] == s[k];
      }
    }
  }

  /** Stripping a string that is already bare changes nothing. */
  lemma {:induction false} StripBare(s: string, arg: StripArg)
    requires Bare(s, arg)
    ensures Strip(s, arg) == s
  {
    assert s[0..0 + |s|] == s;
    StripUnique(s, s, 0, arg);
  }

  /** `strip` is idempotent. */
  lemma {:induction false} StripIdempotent(s: string, arg: StripArg)
    ensures Strip(Strip(s, arg), arg) == Strip(s, arg)
  {
    StripCut(s, arg);
    StripBare(Strip(s, arg), arg);
  }
}

/**
 * JavaScript's notion of white space and `String.prototype.trim`. ECMAScript
 * uses the same set (WhiteSpace plus LineTerminator) for `trim` and for the
 * regular-expression class `\s`, so both are modelled by `IsWhiteSpace`.
 * A `char` stands for one UTF-16 code unit, so `|s|` is JavaScript's `.length`.
 */
module JsString {

  /** TAB, VT, FF, SPACE, NBSP, ZWNBSP, the other Zs characters, LF, CR, LS, PS. */
  predicate IsWhiteSpace(c: char) {
    || c == '\t' || c == '\U{000B}' || c == '\U{000C}' || c == ' '
    || c == '\U{00A0}' || c == '\U{FEFF}' || c == '\U{1680}'
    || ('\U{2000}' <= c <= '\U{200A}')
    || c == '\U{202F}' || c == '\U{205F}' || c == '\U{3000}'
    || c == '\n' || c == '\r' || c == '\U{2028}' || c == '\U{2029}'
  }

  predicate AllWhiteSpace(s: string) {
    forall i :: 0 <= i < |s| ==> IsWhiteSpace(s[i])
  }

  /** Neither end of `s` is white space (vacuously true of ""). */
  predicate IsTrimmed(s: string) {
    |s| == 0 || (!IsWhiteSpace(s[0]) && !IsWhiteSpace(s[|s| - 1]))
  }

  /** `s` is `r` with white space only before index `i` and after `i + |r|`. */
  ghost predicate PaddedAt(s: string, r: string, i: int) {
    && 0 <= i && i + |r| <= |s|
    && s[i..i + |r|] == r
    && AllWhiteSpace(s[..i])
    && AllWhiteSpace(s[i + |r|..])
  }

  /** `s` without its leading white space. */
  function TrimStart(s: string): (r: string)
    ensures |r| <= |s| && r == s[|s| - |r|..]
    ensures AllWhiteSpace(s[..|s| - |r|])
    ensures |r| > 0 ==> !IsWhiteSpace(r[0])
    decreases |s|
  {
    if |s| > 0 && IsWhiteSpace(s[0]) then TrimStart(s[1..]) else s
  }

  /** `s` without its trailing white space. */
  function TrimEnd(s: string): (r: string)
    ensures |r| <= |s| && r == s[..|r|]
    ensures AllWhiteSpace(s[|r|..])
    ensures |r| > 0 ==> !IsWhiteSpace(r[|r| - 1])
    decreases |s|
  {
    if |s| > 0 && IsWhiteSpace(s[|s| - 1]) then TrimEnd(s[..|s| - 1]) else s
  }

  /** `String.prototype.trim`: the text between leading and trailing white space. */
  function Trim(s: string): (r: string)
    ensures IsTrimmed(r)
    ensures PaddedAt(s, r, |s| - |TrimStart(s)|)
  {
    var u := TrimStart(s);
    var r := TrimEnd(u);
    PaddedFromParts(s, u, r);
    r
  }

  /** Leading white space cut from `s` leaves `u`; trailing white space cut from `u` leaves `r`. */
  lemma PaddedFromParts(s: string, u: string, r: string)
    requires |u| <= |s| && u == s[|s| - |u|..] && AllWhiteSpace(s[..|s| - |u|])
    requires |r| <= |u| && r == u[..|r|] && AllWhiteSpace(u[|r|..])
    requires |u| > 0 ==> !IsWhiteSpace(u[0])
    requires |r| > 0 ==> !IsWhiteSpace(r[|r| - 1])
    ensures PaddedAt(s, r, |s| - |u|)
    ensures IsTrimmed(r)
  {
    assert |r| > 0 ==> r[0] == u[0];
    var i := |s| - |u|;
    assert s[i..i + |r|] == r;
    assert s[i + |r|..] == u[|r|..];
  }

  /** Only an all-white-space text trims to "". */
  lemma TrimEmpty(s: string)
    ensures |Trim(s)| <= |s|
    ensures Trim(s) == [] <==> AllWhiteSpace(s)
  {
    var r := Trim(s);
    var i := |s| - |TrimStart(s)|;
    if r == [] {
      assert s == s[..i] + s[i..];
    } else {
      assert r[0] == s[i];
    }
  }

  lemma {:induction false} TrimStartSkips(a: string, s: string)
    requires AllWhiteSpace(a)
    ensures TrimStart(a + s) == TrimStart(s)
    decreases |a|
  {
    if |a| == 0 {
      assert a + s == s;
    } else {
      assert (a + s)[1..] == a[1..] + s;
      TrimStartSkips(a[1..], s);
    }
  }

  lemma {:induction false} TrimEndSkips(s: string, b: string)
    requires AllWhiteSpace(b)
    ensures TrimEnd(s + b) == TrimEnd(s)
    decreases |b|
  {
    if |b| == 0 {
      assert s + b == s;
    } else {
      var b' := b[..|b| - 1];
      assert (s + b)[..|s + b| - 1] == s + b';
      TrimEndSkips(s, b');
    }
  }

  /**
   * Trimming is determined by the decomposition: white space, a trimmed core,
   * white space. This is the definition of `trim` independent of how it scans.
   */
  lemma TrimOfDecomposition(a: string, m: string, b: string)
    requires AllWhiteSpace(a) && AllWhiteSpace(b) && IsTrimmed(m)
    ensures Trim(a + m + b) == m
  {
    assert a + m + b == a + (m + b);
    TrimStartSkips(a, m + b);
    if |m| == 0 {
      assert m + b == b + [];
      TrimStartSkips(b, []);
    } else {
      assert (m + b)[0] == m[0];
      TrimEndSkips(m, b);
    }
  }

  lemma AllWhiteSpaceConcat(x: string, y: string)
    requires AllWhiteSpace(x) && AllWhiteSpace(y)
    ensures AllWhiteSpace(x + y)
  {
    forall k | 0 <= k < |x + y|
      ensures IsWhiteSpace((x + y)[k])
    {
      if k >= |x| {
        assert (x + y)[k] == y[k - |x|];
      }
    }
  }

  lemma SplitAround(t: string, i: nat, n: nat)
    requires i + n <= |t|
    ensures t == t[..i] + t[i..i + n] + t[i + n..]
  {
  }

  lemma Regroup(a: string, t: string, b: string, lead: string, r: string, trail: string)
    requires t == lead + r + trail
    ensures a + t + b == (a + lead) + r + (trail + b)
  {
  }

  /** Adding white space around a text never changes its trimmed form. */
  lemma TrimIgnoresPadding(a: string, t: string, b: string)
    requires AllWhiteSpace(a) && AllWhiteSpace(b)
    ensures Trim(a + t + b) == Trim(t)
  {
    var r := Trim(t);
    var i := |t| - |TrimStart(t)|;
    assert PaddedAt(t, r, i);
    var lead, trail := t[..i], t[i + |r|..];
    SplitAround(t, i, |r|);
    assert t == lead + r + trail;
    AllWhiteSpaceConcat(a, lead);
    AllWhiteSpaceConcat(trail, b);
    Regroup(a, t, b, lead, r, trail);
    TrimOfDecomposition(a + lead, r, trail + b);
  }

  lemma TrimIdempotent(s: string)
    ensures Trim(Trim(s)) == Trim(s)
  {
    assert [] + Trim(s) + [] == Trim(s);
    TrimOfDecomposition([], Trim(s), []);
  }
}

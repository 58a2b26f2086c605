/**
 * The parts of Python's `str` that the assistant relies on: `isspace`, `strip`,
 * and a count of the places where one string occurs inside another.
 * Strings are sequences of Unicode code points, as `len` counts them in Python.
 */
module PyStrings {

  /**
   * The code points for which Python's `str.isspace` holds: general category
   * Zs, or bidirectional class WS, B or S.
   */
  const Whitespace: set<char> := {
    '\t', '\n', '\U{0B}', '\U{0C}', '\r', '\U{1C}', '\U{1D}', '\U{1E}', '\U{1F}', ' ',
    '\U{85}', '\U{A0}', '\U{1680}',
    '\U{2000}', '\U{2001}', '\U{2002}', '\U{2003}', '\U{2004}', '\U{2005}', '\U{2006}',
    '\U{2007}', '\U{2008}', '\U{2009}', '\U{200A}',
    '\U{2028}', '\U{2029}', '\U{202F}', '\U{205F}', '\U{3000}'
  }

  /** Python's `str.isspace` on one code point. */
  predicate IsSpace(c: char) {
    c in Whitespace
  }

  /** Python's `str.lstrip()`: the suffix that starts at the first non-space. */
  function TrimStart(s: string): (r: string)
    ensures |r| <= |s|
  {
    if s != [] && IsSpace(s[0]) then TrimStart(s[1..]) else s
  }

  /** `TrimStart` drops a run of whitespace and keeps the rest, which starts with a non-space. */
  lemma {:induction false} TrimStartShape(s: string)
    ensures TrimStart(s) == s[|s| - |TrimStart(s)|..]
    ensures forall k :: 0 <= k < |s| - |TrimStart(s)| ==> IsSpace(s[k])
    ensures TrimStart(s) == [] || !IsSpace(TrimStart(s)[0])
    decreases |s|
  {
    if s != [] && IsSpace(s[0]) {
      TrimStartShape(s[1..]);
      assert s[1..][|s| - 1 - |TrimStart(s)|..] == s[|s| - |TrimStart(s)|..];
      forall k | 1 <= k < |s| - |TrimStart(s)| ensures IsSpace(s[k]) {
        assert s[k] == s[1..][k - 1];
      }
    }
  }

  /** Python's `str.rstrip()`: the prefix that ends at the last non-space. */
  function TrimEnd(s: string): (r: string)
    ensures |r| <= |s|
  {
    if s != [] && IsSpace(s[|s| - 1]) then TrimEnd(s[..|s| - 1]) else s
  }

  /** `TrimEnd` drops a run of whitespace and keeps the rest, which ends with a non-space. */
  lemma {:induction false} TrimEndShape(s: string)
    ensures TrimEnd(s) == s[..|TrimEnd(s)|]
    ensures forall k :: |TrimEnd(s)| <= k < |s| ==> IsSpace(s[k])
    ensures TrimEnd(s) == [] || !IsSpace(TrimEnd(s)[|TrimEnd(s)| - 1])
    decreases |s|
  {
    if s != [] && IsSpace(s[|s| - 1]) {
      TrimEndShape(s[..|s| - 1]);
      assert s[..|s| - 1][..|TrimEnd(s)|] == s[..|TrimEnd(s)|];
      forall k | |TrimEnd(s)| <= k < |s| - 1 ensures IsSpace(s[k]) {
        assert s[k] == s[..|s| - 1][k];
      }
    }
  }

  /** Python's `str.strip()`: drop leading and trailing whitespace. */
  function Strip(s: string): (r: string)
    ensures |r| <= |s|
  {
    TrimEnd(TrimStart(s))
  }

  /** A stripped string is empty or starts and ends with a non-space. */
  lemma StripEnds(s: string)
    ensures Strip(s) == [] || (!IsSpace(Strip(s)[0]) && !IsSpace(Strip(s)[|Strip(s)| - 1]))
  {
    var t := TrimStart(s);
    TrimStartShape(s);
    TrimEndShape(t);
    var r := Strip(s);
    assert r != [] ==> r[0] == t[0];
  }

  /** `TrimStart` stops at the first non-space. */
  lemma TrimStartAt(s: string, i: nat)
    requires i < |s| && !IsSpace(s[i])
    requires forall k :: 0 <= k < i ==> IsSpace(s[k])
    ensures TrimStart(s) == s[i..]
  {
    var t := TrimStart(s);
    var d := |s| - |t|;
    TrimStartShape(s);
    assert d <= i;
    assert t[0] == s[d];
  }

  /** `TrimEnd` stops at the last non-space. */
  lemma TrimEndAt(s: string, j: nat)
    requires 0 < j <= |s| && !IsSpace(s[j - 1])
    requires forall k :: j <= k < |s| ==> IsSpace(s[k])
    ensures TrimEnd(s) == s[..j]
  {
    var r := TrimEnd(s);
    TrimEndShape(s);
    assert |r| >= j;
    assert r[|r| - 1] == s[|r| - 1];
  }

  /** Right-trimming a suffix `s[i..]` stops at the last non-space `s[j - 1]`. */
  lemma TrimEndOfSuffix(s: string, i: nat, j: nat)
    requires i < j <= |s| && !IsSpace(s[j - 1])
    requires forall k :: j <= k < |s| ==> IsSpace(s[k])
    ensures TrimEnd(s[i..]) == s[i..j]
  {
    var t := s[i..];
    assert t[j - 1 - i] == s[j - 1];
    forall k | j - i <= k < |t| ensures IsSpace(t[k]) {
      assert t[k] == s[k + i];
    }
    TrimEndAt(t, j - i);
    assert t[..j - i] == s[i..j];
  }

  /**
   * `Strip(s)` is the one slice `s[i..j]` that starts and ends with a non-space
   * and has only whitespace around it.
   */
  lemma StripUnique(s: string, i: nat, j: nat)
    requires i < j <= |s|
    requires !IsSpace(s[i]) && !IsSpace(s[j - 1])
    requires forall k :: 0 <= k < i ==> IsSpace(s[k])
    requires forall k :: j <= k < |s| ==> IsSpace(s[k])
    ensures Strip(s) == s[i..j]
  {
    TrimStartAt(s, i);
    TrimEndOfSuffix(s, i, j);
  }

  /** Stripping leaves nothing exactly when the string is all whitespace. */
  lemma StripEmptyIff(s: string)
    ensures Strip(s) == [] <==> forall k :: 0 <= k < |s| ==> IsSpace(s[k])
  {
    var t := TrimStart(s);
    TrimStartShape(s);
    TrimEndShape(t);
    assert t == [] ==> Strip(s) == [];
    if t != [] {
      assert t[0] == s[|s| - |t|];
      assert Strip(s)[0] == t[0];
    }
  }

  /** Stripping twice is stripping once. */
  lemma StripIdempotent(s: string)
    ensures Strip(Strip(s)) == Strip(s)
  {
    var r := Strip(s);
    StripEnds(s);
    if r != [] {
      StripUnique(r, 0, |r|);
      assert r[0..|r|] == r;
    }
  }

  /** `p` occurs in `s` starting at index `i`. */
  predicate OccursAt(s: string, p: string, i: int) {
    0 <= i && i + |p| <= |s| && s[i..i + |p|] == p
  }

  /** The number of indexes of `s` at which `p` occurs. */
  function Count(s: string, p: string): (n: nat)
    requires p != []
    decreases |s|
  {
    if |s| < |p| then 0 else (if OccursAt(s, p, 0) then 1 else 0) + Count(s[1..], p)
  }

  /** No occurrence of `p` in `a + b` starts in `a` and ends in `b`. */
  predicate NoStraddle(a: string, b: string, p: string) {
    forall i :: 0 <= i < |a| && |a| < i + |p| ==> !OccursAt(a + b, p, i)
  }

  /** Occurrences in a concatenation are those of its parts, when none straddles the seam. */
  lemma {:induction false} CountAppend(a: string, b: string, p: string)
    requires p != [] && NoStraddle(a, b, p)
    ensures Count(a + b, p) == Count(a, p) + Count(b, p)
    decreases |a|
  {
    var s := a + b;
    if a == [] {
      assert s == b;
    } else {
      assert s[1..] == a[1..] + b;
      forall i | 0 <= i < |a[1..]| && |a[1..]| < i + |p|
        ensures !OccursAt(a[1..] + b, p, i)
      {
        assert !OccursAt(s, p, i + 1);
        if i + |p| <= |s[1..]| {
          assert s[1..][i..i + |p|] == s[i + 1..i + 1 + |p|];
        }
      }
      CountAppend(a[1..], b, p);
      if |s| < |p| {
      } else if |a| >= |p| {
        assert s[..|p|] == a[..|p|];
      } else {
        assert !OccursAt(s, p, 0);
      }
    }
  }

  /** A string holding no copy of the first character of `p` has no occurrence of `p`. */
  lemma {:induction false} CountWithoutFirst(s: string, p: string)
    requires p != []
    requires forall k :: 0 <= k < |s| ==> s[k] != p[0]
    ensures Count(s, p) == 0
    decreases |s|
  {
    if |s| >= |p| {
      assert s[0] != p[0];
      assert !OccursAt(s, p, 0);
      CountWithoutFirst(s[1..], p);
    }
  }

  /** No straddling occurrence when no seam-crossing start position holds the first character of `p`. */
  lemma NoStraddleByFirst(a: string, b: string, p: string)
    requires p != []
    requires forall i :: 0 <= i < |a| && |a| < i + |p| ==> a[i] != p[0]
    ensures NoStraddle(a, b, p)
  {
    forall i | 0 <= i < |a| && |a| < i + |p|
      ensures !OccursAt(a + b, p, i)
    {
      if i + |p| <= |a + b| {
        var w := (a + b)[i..i + |p|];
        assert w[0] == a[i];
      }
    }
  }

  /** No straddling occurrence when the first character of `b` appears nowhere in `p` after its first. */
  lemma NoStraddleByBoundary(a: string, b: string, p: string)
    requires b != []
    requires forall k :: 1 <= k < |p| ==> p[k] != b[0]
    ensures NoStraddle(a, b, p)
  {
    forall i | 0 <= i < |a| && |a| < i + |p|
      ensures !OccursAt(a + b, p, i)
    {
      if i + |p| <= |a + b| {
        var w := (a + b)[i..i + |p|];
        assert w[|a| - i] == b[0];
      }
    }
  }

  /** A slice of `a + b` that lies wholly in `b`. */
  lemma SliceOfAppend<T>(a: seq<T>, b: seq<T>, i: nat, j: nat)
    requires i <= j <= |b|
    ensures (a + b)[|a| + i..|a| + j] == b[i..j]
  {
    assert forall k :: 0 <= k < j - i ==> (a + b)[|a| + i..|a| + j][k] == b[i..j][k];
  }

  /** A slice of a slice is a slice. */
  lemma SliceOfSlice<T>(s: seq<T>, a: nat, b: nat, i: nat, j: nat)
    requires a <= b <= |s| && i <= j <= b - a
    ensures s[a..b][i..j] == s[a + i..a + j]
  {
    var x, y := s[a..b][i..j], s[a + i..a + j];
    assert |x| == |y|;
    forall k | 0 <= k < |x| ensures x[k] == y[k] {
      assert x[k] == s[a..b][i + k];
    }
  }
}

/**
 * Python's `str.strip()` with no argument: removes the leading and trailing
 * characters for which `str.isspace()` holds.
 */
module Text {

  /** The code points Python's `str.isspace()` accepts. */
  predicate IsSpace(c: char)
  {
    var n := c as int;
    (0x09 <= n <= 0x0D) || (0x1C <= n <= 0x20) || n == 0x85 || n == 0xA0 ||
    n == 0x1680 || (0x2000 <= n <= 0x200A) || n == 0x2028 || n == 0x2029 ||
    n == 0x202F || n == 0x205F || n == 0x3000
  }

  predicate AllSpace(s: string)
  {
    forall i :: 0 <= i < |s| ==> IsSpace(s[i])
  }

  /** Drops the leading whitespace: what is left is a suffix that does not start with whitespace. */
  function TrimStart(s: string): (r: string)
    ensures |r| <= |s| && r == s[|s| - |r|..]
    ensures AllSpace(s[..|s| - |r|])
    ensures r != [] ==> !IsSpace(r[0])
  {
    if s != [] && IsSpace(s[0]) then TrimStart(s[1..]) else s
  }

  /** Drops the trailing whitespace: what is left is a prefix that does not end with whitespace. */
  function TrimEnd(s: string): (r: string)
    ensures |r| <= |s| && r == s[..|r|]
    ensures AllSpace(s[|r|..])
    ensures r != [] ==> !IsSpace(r[|r| - 1])
  {
    if s != [] && IsSpace(s[|s| - 1]) then TrimEnd(s[..|s| - 1]) else s
  }

  function Strip(s: string): string
  {
    TrimEnd(TrimStart(s))
  }

  lemma {:induction false} TrimStartOfPadded(a: string, t: string)
    requires AllSpace(a)
    requires t != [] ==> !IsSpace(t[0])
    ensures TrimStart(a + t) == t
  {
    if a != [] {
      assert (a + t)[1..] == a[1..] + t;
      TrimStartOfPadded(a[1..], t);
    } else {
      assert a + t == t;
    }
  }

  lemma {:induction false} TrimEndOfPadded(t: string, b: string)
    requires AllSpace(b)
    requires t != [] ==> !IsSpace(t[|t| - 1])
    ensures TrimEnd(t + b) == t
  {
    if b != [] {
      assert (t + b)[..|t + b| - 1] == t + b[..|b| - 1];
      TrimEndOfPadded(t, b[..|b| - 1]);
    } else {
      assert t + b == t;
    }
  }

  /** Whitespace around a word whose ends are not whitespace is exactly what strip removes. */
  lemma StripOfPadded(a: string, w: string, b: string)
    requires AllSpace(a) && AllSpace(b)
    requires w != [] && !IsSpace(w[0]) && !IsSpace(w[|w| - 1])
    ensures Strip(a + w + b) == w
  {
    assert a + w + b == a + (w + b);
    TrimStartOfPadded(a, w + b);
    TrimEndOfPadded(w, b);
  }

  /** The stripped text sits in the input between two runs of whitespace. */
  lemma StripBounds(s: string) returns (i: nat, j: nat)
    ensures i <= j <= |s| && s[i..j] == Strip(s)
    ensures AllSpace(s[..i]) && AllSpace(s[j..])
  {
    var t := TrimStart(s);
    var r := TrimEnd(t);
    i := |s| - |t|;
    j := i + |r|;
    assert s[i..j] == r by {
      assert s[i..j] == s[i..][..|r|];
    }
    assert s[j..] == t[|r|..] by {
      assert s[j..] == s[i..][|r|..];
    }
  }

  lemma StripOfSplit(s: string, w: string, i: nat, j: nat)
    requires w != [] && !IsSpace(w[0]) && !IsSpace(w[|w| - 1])
    requires i <= j <= |s| && s[i..j] == w && AllSpace(s[..i]) && AllSpace(s[j..])
    ensures Strip(s) == w
  {
    assert s == s[..i] + w + s[j..];
    StripOfPadded(s[..i], w, s[j..]);
  }

  /**
   * For a word `w` that neither starts nor ends with whitespace, `strip()`
   * yields `w` exactly when the input is `w` with whitespace around it.
   */
  lemma StripEquals(s: string, w: string)
    requires w != [] && !IsSpace(w[0]) && !IsSpace(w[|w| - 1])
    ensures Strip(s) == w <==>
      exists i, j :: 0 <= i <= j <= |s| && s[i..j] == w && AllSpace(s[..i]) && AllSpace(s[j..])
  {
    var i0, j0 := StripBounds(s);
    forall i, j | 0 <= i <= j <= |s| && s[i..j] == w && AllSpace(s[..i]) && AllSpace(s[j..])
      ensures Strip(s) == w
    {
      StripOfSplit(s, w, i, j);
    }
  }

  /** Stripping twice is stripping once. */
  lemma StripIdempotent(s: string)
    ensures Strip(Strip(s)) == Strip(s)
  {
  }
}

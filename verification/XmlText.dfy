/** The text of XML documents: escaping, and the removal of empty lines at
    either end. */
module XmlText {
  import opened CNumbers

  predicate AllSpace(s: string) {
    forall c <- s :: IsSpace(c)
  }

  /** The white space at the beginning of s. */
  function Space(s: string): (w: string)
    ensures AllSpace(w) && w <= s
    ensures |w| < |s| ==> !IsSpace(s[|w|])
  {
    if s != "" && IsSpace(s[0]) then [s[0]] + Space(s[1..]) else ""
  }

  lemma {:induction false} SpacePrefix(w: string, r: string)
    requires AllSpace(w) && (r == "" || !IsSpace(r[0]))
    ensures Space(w + r) == w
  {
    if w != "" {
      assert (w + r)[1..] == w[1..] + r;
      SpacePrefix(w[1..], r);
    }
  }

  lemma Then(a: string, b: string, c: string)
    ensures a + b + c == a + (b + c)
  {
  }

  function Spaces(n: nat): (s: string)
    ensures |s| == n && AllSpace(s)
  {
    seq(n, i => ' ')
  }

  // -------------------------------------------------------------- escaping

  function EscapeChar(c: char): string {
    if c == '<' then "&lt;" else if c == '>' then "&gt;" else if c == '&' then "&amp;" else [c]
  }

  function Escape(s: string): string {
    if s == "" then "" else EscapeChar(s[0]) + Escape(s[1..])
  }

  lemma {:induction false} EscapeAppend(s: string, t: string)
    ensures Escape(s + t) == Escape(s) + Escape(t)
  {
    if s == "" {
      assert s + t == t;
    } else {
      assert (s + t)[1..] == s[1..] + t;
      EscapeAppend(s[1..], t);
    }
  }

  lemma {:induction false} EscapeSpace(w: string)
    requires AllSpace(w)
    ensures Escape(w) == w
  {
    if w != "" {
      assert w[0] in w && AllSpace(w[1..]);
      assert EscapeChar(w[0]) == [w[0]];
      EscapeSpace(w[1..]);
    }
  }

  // -------------------------------------------------------------- trimming

  predicate IsNewline(c: char) { c == '\r' || c == '\n' }

  predicate IsBlank(c: char) { IsNewline(c) || c == ' ' || c == '\t' }

  /** Where the text ends once the empty lines at its end are gone: after the
      first line end among its trailing blanks, if there is one. */
  function TrimTail(s: string, n: nat, trim: nat): nat
    requires n <= |s|
  {
    if n == 0 || !IsBlank(s[n - 1]) then trim
    else TrimTail(s, n - 1, if IsNewline(s[n - 1]) then n else trim)
  }

  function TrimHead(s: string, n: nat, trim: nat): nat
    requires n <= |s|
    decreases |s| - n
  {
    if n == |s| || !IsBlank(s[n]) then trim
    else TrimHead(s, n + 1, if IsNewline(s[n]) then n + 1 else trim)
  }

  lemma {:induction false} TrimTailBound(s: string, n: nat, trim: nat)
    requires n <= trim <= |s|
    ensures TrimTail(s, n, trim) <= trim
  {
    if n > 0 && IsBlank(s[n - 1]) {
      TrimTailBound(s, n - 1, if IsNewline(s[n - 1]) then n else trim);
    }
  }

  lemma {:induction false} TrimHeadBound(s: string, n: nat, trim: nat)
    requires trim <= n <= |s|
    ensures trim <= TrimHead(s, n, trim) <= |s|
    decreases |s| - n
  {
    if n < |s| && IsBlank(s[n]) {
      TrimHeadBound(s, n + 1, if IsNewline(s[n]) then n + 1 else trim);
    }
  }

  /** Drop the empty lines at the end, then those at the beginning. */
  function Trim(s: string): string {
    TrimTailBound(s, |s|, |s|);
    var t := s[..TrimTail(s, |s|, |s|)];
    TrimHeadBound(t, 0, 0);
    t[TrimHead(t, 0, 0)..]
  }

  method TrimEmptyLines(s: string) returns (t: string)
    ensures t == Trim(s)
  {
    var n, trim := |s|, |s|;
    while n > 0 && IsBlank(s[n - 1])
      invariant 0 <= n <= trim <= |s|
      invariant TrimTail(s, n, trim) == TrimTail(s, |s|, |s|)
    {
      if IsNewline(s[n - 1]) {
        trim := n;
      }
      n := n - 1;
    }
    t := s[..trim];
    n, trim := 0, 0;
    while n < |t| && IsBlank(t[n])
      invariant 0 <= trim <= n <= |t|
      invariant TrimHead(t, n, trim) == TrimHead(t, 0, 0)
    {
      n := n + 1;
      if IsNewline(t[n - 1]) {
        trim := n;
      }
    }
    t := t[trim..];
  }

  // ------------------------------------------------ what trimming amounts to

  /** The text in three parts: leading blanks, trailing blanks, and a middle
      that begins and ends with something else. */
  predicate Parts(a: string, m: string, z: string) {
    && (forall c <- a :: IsBlank(c)) && (forall c <- z :: IsBlank(c))
    && m != "" && !IsBlank(m[0]) && !IsBlank(m[|m| - 1])
  }

  /** The leading blanks after the last line end. */
  function LastLine(a: string): string {
    if a == "" || IsNewline(a[|a| - 1]) then "" else LastLine(a[..|a| - 1]) + [a[|a| - 1]]
  }

  /** The trailing blanks up to the first line end, or all of them. */
  function FirstLine(z: string): string {
    if z == "" then "" else if IsNewline(z[0]) then [z[0]] else [z[0]] + FirstLine(z[1..])
  }

  lemma {:induction false} TrimTailParts(s: string, p: string, z: string, n: nat, trim: nat)
    requires s == p + z && p != "" && !IsBlank(p[|p| - 1]) && forall c <- z :: IsBlank(c)
    requires |p| <= n <= |s|
    requires trim == |p| + n - |p| + |FirstLine(z[n - |p|..])|
    ensures TrimTail(s, n, trim) == |p| + |FirstLine(z)|
    decreases n
  {
    if n == |p| {
      assert z[0..] == z;
      assert s[n - 1] == p[|p| - 1];
    } else {
      var k := n - 1 - |p|;
      assert s[n - 1] == z[k] && z[k] in z;
      assert z[k..] == [z[k]] + z[k + 1..];
      TrimTailParts(s, p, z, n - 1, if IsNewline(s[n - 1]) then n else trim);
    }
  }

  lemma LastLineBound(a: string)
    ensures |LastLine(a)| <= |a| && LastLine(a) == a[|a| - |LastLine(a)|..]
  {
  }

  lemma FirstLineBound(z: string)
    ensures FirstLine(z) <= z
  {
  }

  lemma {:induction false} TrimHeadParts(s: string, a: string, r: string, n: nat, trim: nat)
    requires s == a + r && r != "" && !IsBlank(r[0]) && forall c <- a :: IsBlank(c)
    requires n <= |a| && trim == n - |LastLine(a[..n])|
    ensures TrimHead(s, n, trim) == |a| - |LastLine(a)|
    decreases |a| - n
  {
    if n == |a| {
      assert a[..n] == a && s[n] == r[0];
    } else {
      assert s[n] == a[n] && a[n] in a;
      assert a[..n + 1][..n] == a[..n];
      TrimHeadParts(s, a, r, n + 1, if IsNewline(s[n]) then n + 1 else trim);
    }
  }

  lemma TrimParts(a: string, m: string, z: string)
    requires Parts(a, m, z)
    ensures Trim(a + m + z) == LastLine(a) + m + FirstLine(z)
  {
    hide *;
    var s, f := a + m + z, FirstLine(z);
    PartsEnds(a, m, z);
    TrimTailParts(s, a + m, z, |s|, |s|);
    FirstLineBound(z);
    var t := s[..TrimTail(s, |s|, |s|)];
    assert t == a + (m + f);
    TrimHeadParts(t, a, m + f, 0, 0);
    LastLineBound(a);
    TrimIs(s, t);
  }

  lemma PartsEnds(a: string, m: string, z: string)
    requires Parts(a, m, z)
    ensures (forall c <- a :: IsBlank(c)) && (forall c <- z :: IsBlank(c)) && m != "" && !IsBlank(m[0]) && !IsBlank((a + m)[|a + m| - 1])
    ensures FirstLine(z[|z|..]) == "" && LastLine(a[..0]) == ""
  {
  }

  lemma TrimIs(s: string, t: string)
    requires TrimTail(s, |s|, |s|) <= |s| && t == s[..TrimTail(s, |s|, |s|)]
    ensures TrimHead(t, 0, 0) <= |t| && Trim(s) == t[TrimHead(t, 0, 0)..]
  {
    TrimHeadBound(t, 0, 0);
  }

  /** What trimming takes for blanks: spaces, tabs and both characters of line
      ends, and nothing else. */
  lemma TrimBlanks(a: string, m: string, z: string)
    requires forall c <- a + z :: c == ' ' || c == '\t' || c == '\r' || c == '\n'
    requires m != "" && m[0] !in " \t\r\n" && m[|m| - 1] !in " \t\r\n"
    ensures Trim(a + m + z) == LastLine(a) + m + FirstLine(z)
  {
    assert forall c <- a :: c in a + z;
    assert forall c <- z :: c in a + z;
    TrimParts(a, m, z);
  }

  /** Text that is not all blank has such parts. */
  lemma {:induction false} SplitText(s: string) returns (a: string, m: string, z: string)
    requires exists c <- s :: !IsBlank(c)
    ensures s == a + m + z && Parts(a, m, z)
  {
    if IsBlank(s[0]) {
      var a', m', z' := SplitText(s[1..]);
      a, m, z := [s[0]] + a', m', z';
      assert s == [s[0]] + s[1..];
    } else if IsBlank(s[|s| - 1]) {
      assert s[0] in s[..|s| - 1];
      var a', m', z' := SplitText(s[..|s| - 1]);
      a, m, z := a', m', z' + [s[|s| - 1]];
      assert s == s[..|s| - 1] + [s[|s| - 1]];
    } else {
      a, m, z := "", s, "";
    }
  }
}

/** The part of Go's `strings` and `unicode` packages that the configuration
    parser relies on, over Dafny strings (sequences of Unicode scalar values). */
module Text {
  import opened Results

  /** Go's `unicode.IsSpace`: the ASCII white space characters, NEL, NBSP and
      the Unicode space separators. */
  predicate IsSpace(c: char) {
    || c == '\t' || c == '\n' || c == '\U{000B}' || c == '\U{000C}' || c == '\r' || c == ' '
    || c == '\U{0085}' || c == '\U{00A0}' || c == '\U{1680}'
    || ('\U{2000}' <= c <= '\U{200A}')
    || c == '\U{2028}' || c == '\U{2029}' || c == '\U{202F}' || c == '\U{205F}' || c == '\U{3000}'
  }

  predicate AllSpace(s: string) {
    forall i :: 0 <= i < |s| ==> IsSpace(s[i])
  }

  /** Leading white space removed. */
  function TrimLeft(s: string): (r: string)
    ensures |r| <= |s| && AllSpace(s[..|s| - |r|])
    ensures r == [] || !IsSpace(r[0])
    decreases |s|
  {
    if |s| > 0 && IsSpace(s[0]) then TrimLeft(s[1..]) else s
  }

  /** Trailing white space removed. */
  function TrimRight(s: string): (r: string)
    ensures |r| <= |s| && AllSpace(s[|r|..])
    ensures r == [] || !IsSpace(r[|r| - 1])
    decreases |s|
  {
    if |s| > 0 && IsSpace(s[|s| - 1]) then
      var r := TrimRight(s[..|s| - 1]);
      assert s[|r|..] == s[..|s| - 1][|r|..] + [s[|s| - 1]];
      r
    else s
  }

  /** Go's `strings.TrimSpace`: the longest infix of `s` that neither starts
      nor ends with white space, everything cut off being white space. */
  function TrimSpace(s: string): (r: string)
    ensures |r| <= |s|
    ensures r == [] || (!IsSpace(r[0]) && !IsSpace(r[|r| - 1]))
  {
    var l := TrimLeft(s);
    TrimRightIsPrefix(l);
    TrimRight(l)
  }

  /** Go's `strings.HasPrefix`. */
  predicate HasPrefix(s: string, p: string) {
    |p| <= |s| && s[..|p|] == p
  }

  /** Go's `strings.Contains`: `p` occurs somewhere in `s`. */
  predicate Contains(s: string, p: string)
    decreases |s|
  {
    HasPrefix(s, p) || (|s| > 0 && Contains(s[1..], p))
  }

  /** `Contains` agrees with the definition by positions: some suffix of `s`
      starts with `p`. */
  lemma {:induction false} ContainsAt(s: string, p: string)
    ensures Contains(s, p) <==> exists i :: 0 <= i <= |s| && HasPrefix(s[i..], p)
    decreases |s|
  {
    if |s| > 0 {
      ContainsAt(s[1..], p);
    }
    ContainsStep(s, p);
  }

  /** An occurrence in `s` is at its front or in `s[1..]`. */
  lemma ContainsStep(s: string, p: string)
    ensures (exists i :: 0 <= i <= |s| && HasPrefix(s[i..], p)) <==>
      HasPrefix(s, p) || (|s| > 0 && exists i :: 0 <= i <= |s| - 1 && HasPrefix(s[1..][i..], p))
  {
    if exists i :: 0 <= i <= |s| && HasPrefix(s[i..], p) {
      var i :| 0 <= i <= |s| && HasPrefix(s[i..], p);
      if i > 0 {
        assert s[1..][i - 1..] == s[i..];
      } else {
        assert s[i..] == s;
      }
    }
    if |s| > 0 && exists i :: 0 <= i <= |s| - 1 && HasPrefix(s[1..][i..], p) {
      var i :| 0 <= i <= |s| - 1 && HasPrefix(s[1..][i..], p);
      assert s[1..][i..] == s[i + 1..];
    }
    if HasPrefix(s, p) {
      assert s[0..] == s;
    }
  }

  /** The number of positions of `s` at which `p` starts. */
  function Occurrences(s: string, p: string): nat
    decreases |s|
  {
    if |s| == 0 then 0 else (if HasPrefix(s, p) then 1 else 0) + Occurrences(s[1..], p)
  }

  /** Go's `strings.IndexByte`: the first position of `c`, if any. */
  function IndexOf(s: string, c: char): (r: Option<nat>)
    ensures r.None? <==> c !in s
    ensures r.Some? ==> r.value < |s| && s[r.value] == c && c !in s[..r.value]
    decreases |s|
  {
    if |s| == 0 then None
    else if s[0] == c then Some(0)
    else match IndexOf(s[1..], c)
      case None => None
      case Some(k) =>
        assert s[..k + 1] == [s[0]] + s[1..][..k];
        Some(k + 1)
  }

  /** Go's `strings.LastIndexByte`: the last position of `c`, if any. */
  function LastIndexOf(s: string, c: char): (r: Option<nat>)
    ensures r.None? <==> c !in s
    ensures r.Some? ==> r.value < |s| && s[r.value] == c && c !in s[r.value + 1..]
    decreases |s|
  {
    if |s| == 0 then None
    else if s[|s| - 1] == c then Some(|s| - 1)
    else
      match LastIndexOf(s[..|s| - 1], c)
      case None => None
      case Some(k) =>
        assert s[k + 1..] == s[..|s| - 1][k + 1..] + [s[|s| - 1]];
        Some(k)
  }

  /** The inverse of `Split`: the parts glued together with `sep` between them. */
  function Join(parts: seq<string>, sep: char): string
    requires |parts| >= 1
  {
    if |parts| == 1 then parts[0] else parts[0] + [sep] + Join(parts[1..], sep)
  }

  /** Go's `strings.Split(s, string(sep))`: the maximal `sep`-free pieces of `s`,
      in order; the empty string gives one empty piece. */
  function Split(s: string, sep: char): (r: seq<string>)
    ensures |r| >= 1
    ensures forall i :: 0 <= i < |r| ==> sep !in r[i]
    ensures Join(r, sep) == s
    decreases |s|
  {
    match IndexOf(s, sep)
    case None => [s]
    case Some(i) =>
      var rest := Split(s[i + 1..], sep);
      assert s == s[..i] + [sep] + s[i + 1..];
      [s[..i]] + rest
  }

  // ---------------------------------------------------------------------
  // Lemmas

  /** Splitting a join of `sep`-free parts gives the parts back. */
  lemma {:induction false} SplitJoin(parts: seq<string>, sep: char)
    requires |parts| >= 1
    requires forall i :: 0 <= i < |parts| ==> sep !in parts[i]
    ensures Split(Join(parts, sep), sep) == parts
    decreases |parts|
  {
    if |parts| > 1 {
      var s := Join(parts, sep);
      var head := parts[0];
      assert s == head + [sep] + Join(parts[1..], sep);
      assert s[|head|] == sep;
      assert s[..|head|] == head;
      assert IndexOf(s, sep) == Some(|head|);
      assert s[|head| + 1..] == Join(parts[1..], sep);
      SplitJoin(parts[1..], sep);
      assert parts == [head] + parts[1..];
    } else {
      assert Join(parts, sep) == parts[0];
      assert IndexOf(parts[0], sep) == None;
    }
  }

  /** `TrimLeft` keeps a suffix of its argument. */
  lemma {:induction false} TrimLeftIsSuffix(s: string)
    ensures TrimLeft(s) == s[|s| - |TrimLeft(s)|..]
    decreases |s|
  {
    if |s| > 0 && IsSpace(s[0]) {
      TrimLeftIsSuffix(s[1..]);
    }
  }

  /** `TrimRight` keeps a prefix of its argument. */
  lemma {:induction false} TrimRightIsPrefix(s: string)
    ensures TrimRight(s) == s[..|TrimRight(s)|]
    decreases |s|
  {
    if |s| > 0 && IsSpace(s[|s| - 1]) {
      TrimRightIsPrefix(s[..|s| - 1]);
    }
  }

  /** `TrimSpace` keeps an infix of its argument and cuts off only white
      space on either side. */
  lemma TrimSpaceIsInfix(s: string)
    ensures var i := |s| - |TrimLeft(s)|;
      && i + |TrimSpace(s)| <= |s|
      && TrimSpace(s) == s[i..i + |TrimSpace(s)|]
      && AllSpace(s[..i]) && AllSpace(s[i + |TrimSpace(s)|..])
  {
    var l := TrimLeft(s);
    var i := |s| - |l|;
    TrimLeftIsSuffix(s);
    TrimRightIsPrefix(l);
    var r := TrimSpace(s);
    assert r == s[i..][..|r|] == s[i..i + |r|];
    assert s[i + |r|..] == l[|r|..];
  }

  /** Leading white space in front of a text that starts with a non-space
      character is exactly what `TrimLeft` removes. */
  lemma {:induction false} TrimLeftPadded(a: string, s: string)
    requires AllSpace(a)
    requires s == [] || !IsSpace(s[0])
    ensures TrimLeft(a + s) == s
    decreases |a|
  {
    if |a| > 0 {
      assert (a + s)[0] == a[0];
      assert (a + s)[1..] == a[1..] + s;
      TrimLeftPadded(a[1..], s);
    } else {
      assert a + s == s;
    }
  }

  /** Trailing white space after a text that ends with a non-space character
      is exactly what `TrimRight` removes. */
  lemma {:induction false} TrimRightPadded(s: string, b: string)
    requires AllSpace(b)
    requires s == [] || !IsSpace(s[|s| - 1])
    ensures TrimRight(s + b) == s
    decreases |b|
  {
    if |b| > 0 {
      var t := s + b;
      assert t[|t| - 1] == b[|b| - 1];
      assert t[..|t| - 1] == s + b[..|b| - 1];
      TrimRightPadded(s, b[..|b| - 1]);
    } else {
      assert s + b == s;
    }
  }

  /** `TrimSpace` removes exactly the white space padding around a text that
      neither starts nor ends with white space. */
  lemma TrimPadded(a: string, s: string, b: string)
    requires AllSpace(a) && AllSpace(b)
    requires |s| > 0 && !IsSpace(s[0]) && !IsSpace(s[|s| - 1])
    ensures TrimSpace(a + s + b) == s
  {
    assert a + s + b == a + (s + b);
    TrimLeftPadded(a, s + b);
    TrimRightPadded(s, b);
  }

  /** After leading white space, a text starting with a non-space character
      keeps that first character through `TrimSpace`. */
  lemma TrimKeepsFirst(a: string, s: string)
    requires AllSpace(a)
    requires |s| > 0 && !IsSpace(s[0])
    ensures |TrimSpace(a + s)| > 0 && TrimSpace(a + s)[0] == s[0]
  {
    TrimLeftPadded(a, s);
    TrimRightIsPrefix(s);
  }

  /** A pattern longer than the text does not occur in it. */
  lemma {:induction false} ShortNotContains(s: string, p: string)
    requires |s| < |p|
    ensures !Contains(s, p)
    decreases |s|
  {
    if |s| > 0 {
      ShortNotContains(s[1..], p);
    }
  }

  /** A pattern containing a character the text lacks does not occur in it. */
  lemma {:induction false} MissingChar(s: string, p: string, c: char)
    requires c in p && c !in s
    ensures !Contains(s, p)
    decreases |s|
  {
    if |s| > 0 {
      MissingChar(s[1..], p, c);
    }
  }

  /** No occurrence of `p` can start inside `x`: each position of `x` either
      differs from `p`'s first character or is followed, still inside `x`,
      by a character that differs from `p`'s second. */
  predicate NoStartInside(x: string, p: string)
    requires |p| >= 2
  {
    forall k {:trigger x[k]} :: 0 <= k < |x| ==> x[k] != p[0] || (k + 1 < |x| && x[k + 1] != p[1])
  }

  /** A prefix in which `p` cannot start does not change whether `p` occurs. */
  lemma {:induction false} ContainsSkip(x: string, y: string, p: string)
    requires |p| >= 2 && NoStartInside(x, p)
    ensures Contains(x + y, p) == Contains(y, p)
    decreases |x|
  {
    if |x| > 0 {
      var t := x + y;
      assert x[0] != p[0] || (1 < |x| && x[1] != p[1]);
      assert t[1..] == x[1..] + y;
      var x' := x[1..];
      forall k | 0 <= k < |x'|
        ensures x'[k] != p[0] || (k + 1 < |x'| && x'[k + 1] != p[1])
      {
        var j := k + 1;
        assert x[j] != p[0] || (j + 1 < |x| && x[j + 1] != p[1]);
      }
      ContainsSkip(x[1..], y, p);
    } else {
      assert x + y == y;
    }
  }

  /** Dropping a prefix of the text never adds occurrences of a pattern. */
  lemma {:induction false} OccurrencesOfSuffix(s: string, k: nat, p: string)
    requires k <= |s|
    ensures Occurrences(s[k..], p) <= Occurrences(s, p)
    decreases k
  {
    if k > 0 {
      assert s[k..] == s[1..][k - 1..];
      OccurrencesOfSuffix(s[1..], k - 1, p);
    }
  }

  /** An occurrence in a suffix of the text is an occurrence in the text. */
  lemma {:induction false} ContainsInSuffix(s: string, k: nat, p: string)
    requires k <= |s| && Contains(s[k..], p)
    ensures Contains(s, p)
    decreases k
  {
    if k > 0 {
      assert s[k..] == s[1..][k - 1..];
      ContainsInSuffix(s[1..], k - 1, p);
    }
  }
}

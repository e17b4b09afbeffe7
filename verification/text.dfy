/** The text primitives the animal program relies on: .NET's `string.Trim`,
    the ASCII part of `ToLowerInvariant`, and the invariant-culture rendering
    of `int` and `bool` inside interpolated strings. */
module Text {

  /** .NET's `char.IsWhiteSpace`: the Unicode space separators, the line and
      paragraph separators, and the control characters U+0009..U+000D and U+0085. */
  predicate IsWhiteSpace(c: char) {
    || ('\t' <= c <= '\r')
    || c == ' '
    || c == '\U{85}'
    || c == '\U{A0}'
    || c == '\U{1680}'
    || ('\U{2000}' <= c <= '\U{200A}')
    || c == '\U{2028}'
    || c == '\U{2029}'
    || c == '\U{202F}'
    || c == '\U{205F}'
    || c == '\U{3000}'
  }

  predicate AllWhiteSpace(s: string) {
    forall i :: 0 <= i < |s| ==> IsWhiteSpace(s[i])
  }

  predicate StartsWith(s: string, prefix: string) {
    |prefix| <= |s| && s[..|prefix|] == prefix
  }

  /** A string that `Trim` leaves alone: empty, or with a non-space at each end. */
  predicate IsTrimmed(s: string) {
    s == [] || (!IsWhiteSpace(s[0]) && !IsWhiteSpace(s[|s| - 1]))
  }

  /** Removes the leading white space. */
  function TrimStart(s: string): (r: string)
    ensures |r| <= |s|
  {
    if s != [] && IsWhiteSpace(s[0]) then TrimStart(s[1..]) else s
  }

  /** What `TrimStart` drops is a white-space prefix, and what it keeps is
      the rest of `s`, which does not start with white space. */
  lemma {:induction false} TrimStartSpec(s: string)
    ensures TrimStart(s) == s[|s| - |TrimStart(s)|..]
    ensures AllWhiteSpace(s[..|s| - |TrimStart(s)|])
    ensures TrimStart(s) != [] ==> !IsWhiteSpace(TrimStart(s)[0])
  {
    if s != [] && IsWhiteSpace(s[0]) {
      TrimStartSpec(s[1..]);
      var k := |s| - |TrimStart(s)|;
      assert s[..k] == [s[0]] + s[1..][..k - 1];
    }
  }

  /** Removes the trailing white space. */
  function TrimEnd(s: string): (r: string)
    ensures |r| <= |s|
  {
    if s != [] && IsWhiteSpace(s[|s| - 1]) then TrimEnd(s[..|s| - 1]) else s
  }

  /** What `TrimEnd` drops is a white-space suffix, and what it keeps is
      the rest of `s`, which does not end with white space. */
  lemma {:induction false} TrimEndSpec(s: string)
    ensures TrimEnd(s) == s[..|TrimEnd(s)|]
    ensures AllWhiteSpace(s[|TrimEnd(s)|..])
    ensures TrimEnd(s) != [] ==> !IsWhiteSpace(TrimEnd(s)[|TrimEnd(s)| - 1])
  {
    if s != [] && IsWhiteSpace(s[|s| - 1]) {
      var p := s[..|s| - 1];
      TrimEndSpec(p);
      var k := |TrimEnd(s)|;
      assert s[k..] == p[k..] + [s[|s| - 1]];
    }
  }

  /** `string.Trim()`: leading and trailing white space removed. */
  function Trim(s: string): (r: string)
    ensures IsTrimmed(r)
    ensures |r| <= |s|
  {
    var t := TrimStart(s);
    TrimStartSpec(s);
    TrimEndSpec(t);
    var r := TrimEnd(t);
    assert IsTrimmed(r) by {
      if r != [] {
        assert r[0] == t[0];
      }
    }
    r
  }

  /** `s` splits at `i <= j` into white space, a trimmed middle, white space. */
  predicate Split(s: string, i: int, j: int)
    requires 0 <= i <= j <= |s|
  {
    AllWhiteSpace(s[..i]) && AllWhiteSpace(s[j..]) && IsTrimmed(s[i..j])
  }

  /** What `Trim` keeps is a contiguous middle of `s` and what it cuts off on
      either side is white space. */
  lemma TrimSplit(s: string) returns (i: nat, j: nat)
    ensures i <= j <= |s| && Split(s, i, j) && Trim(s) == s[i..j]
  {
    var t := TrimStart(s);
    var r := TrimEnd(t);
    TrimStartSpec(s);
    TrimEndSpec(t);
    i, j := |s| - |t|, |s| - |t| + |r|;
    assert s[i..j] == r;
    assert s[j..] == t[|r|..];
  }

  /** The trimmed middle is unique: any way of writing `s` as white space,
      a trimmed string `t`, and white space gives `Trim(s) == t`. */
  lemma TrimUnique(a: string, t: string, b: string)
    requires AllWhiteSpace(a) && AllWhiteSpace(b) && IsTrimmed(t)
    ensures Trim(a + t + b) == t
  {
    var s := a + t + b;
    assert s == a + (t + b);
    TrimStartSkipsSpace(a, t + b);
    if t == [] {
      assert t + b == b + [];
      TrimStartSkipsSpace(b, []);
      assert TrimStart(s) == [];
    } else {
      assert (t + b)[0] == t[0];
      assert TrimStart(s) == t + b;
      TrimEndSkipsSpace(t, b);
      assert TrimEnd(t) == t;
    }
  }

  lemma {:induction false} TrimStartSkipsSpace(a: string, u: string)
    requires AllWhiteSpace(a)
    ensures TrimStart(a + u) == TrimStart(u)
  {
    if a != [] {
      assert (a + u)[0] == a[0];
      assert (a + u)[1..] == a[1..] + u;
      TrimStartSkipsSpace(a[1..], u);
    } else {
      assert a + u == u;
    }
  }

  lemma {:induction false} TrimEndSkipsSpace(u: string, b: string)
    requires AllWhiteSpace(b)
    ensures TrimEnd(u + b) == TrimEnd(u)
  {
    if b != [] {
      var n := |u + b|;
      assert (u + b)[n - 1] == b[|b| - 1];
      assert (u + b)[..n - 1] == u + b[..|b| - 1];
      TrimEndSkipsSpace(u, b[..|b| - 1]);
    } else {
      assert u + b == u;
    }
  }

  lemma WhiteSpaceConcat(x: string, y: string)
    requires AllWhiteSpace(x) && AllWhiteSpace(y)
    ensures AllWhiteSpace(x + y)
  {
    forall k | 0 <= k < |x + y|
      ensures IsWhiteSpace((x + y)[k])
    {
      if k < |x| {
        assert (x + y)[k] == x[k];
      } else {
        assert (x + y)[k] == y[k - |x|];
      }
    }
  }

  lemma SliceThree(s: string, i: nat, j: nat)
    requires i <= j <= |s|
    ensures s == s[..i] + s[i..j] + s[j..]
  {
    assert s[..j] == s[..i] + s[i..j];
    assert s == s[..j] + s[j..];
  }

  lemma Regroup(a: string, front: string, mid: string, back: string, b: string)
    ensures a + (front + mid + back) + b == (a + front) + mid + (back + b)
  {
  }

  /** White space around a string does not change what `Trim` keeps. */
  lemma TrimIgnoresPadding(a: string, s: string, b: string)
    requires AllWhiteSpace(a) && AllWhiteSpace(b)
    ensures Trim(a + s + b) == Trim(s)
  {
    var i, j := TrimSplit(s);
    var front, mid, back := s[..i], s[i..j], s[j..];
    SliceThree(s, i, j);
    Regroup(a, front, mid, back, b);
    WhiteSpaceConcat(a, front);
    WhiteSpaceConcat(back, b);
    TrimUnique(a + front, mid, back + b);
  }

  predicate IsUpperAscii(c: char) {
    'A' <= c <= 'Z'
  }

  /** `char.ToLowerInvariant` on the ASCII letters; every other character
      is returned unchanged. */
  function ToLowerChar(c: char): (r: char)
    ensures !IsUpperAscii(r)
    ensures IsWhiteSpace(r) <==> IsWhiteSpace(c)
    ensures !IsUpperAscii(c) ==> r == c
  {
    if IsUpperAscii(c) then (c as int + 32) as char else c
  }

  /** `string.ToLowerInvariant`, restricted as `ToLowerChar` is. */
  function ToLower(s: string): (r: string)
    ensures |r| == |s|
    ensures forall k :: 0 <= k < |s| ==> r[k] == ToLowerChar(s[k])
  {
    if s == [] then [] else [ToLowerChar(s[0])] + ToLower(s[1..])
  }

  /** Lower-casing is idempotent. */
  lemma ToLowerIdempotent(s: string)
    ensures ToLower(ToLower(s)) == ToLower(s)
  {
  }

  lemma ToLowerConcat(x: string, y: string)
    ensures ToLower(x + y) == ToLower(x) + ToLower(y)
  {
  }

  lemma ToLowerKeepsWhiteSpace(x: string)
    ensures AllWhiteSpace(x) <==> AllWhiteSpace(ToLower(x))
    ensures IsTrimmed(x) <==> IsTrimmed(ToLower(x))
  {
  }

  /** Lower-casing and trimming commute, because no letter is white space. */
  lemma TrimToLowerCommute(s: string)
    ensures Trim(ToLower(s)) == ToLower(Trim(s))
  {
    var i, j := TrimSplit(s);
    var front, mid, back := s[..i], s[i..j], s[j..];
    SliceThree(s, i, j);
    ToLowerConcat(front + mid, back);
    ToLowerConcat(front, mid);
    ToLowerKeepsWhiteSpace(front);
    ToLowerKeepsWhiteSpace(mid);
    ToLowerKeepsWhiteSpace(back);
    TrimUnique(ToLower(front), ToLower(mid), ToLower(back));
  }

  predicate IsDigit(c: char) {
    '0' <= c <= '9'
  }

  function DigitChar(d: nat): (c: char)
    requires d < 10
    ensures IsDigit(c) && c as int - '0' as int == d
  {
    ('0' as int + d) as char
  }

  /** The decimal digits of `n`, most significant first, without leading zeros. */
  function NatToString(n: nat): (r: string)
    ensures |r| >= 1
    ensures forall k :: 0 <= k < |r| ==> IsDigit(r[k])
    ensures r[0] == '0' ==> n == 0
    decreases n
  {
    if n < 10 then [DigitChar(n)] else NatToString(n / 10) + [DigitChar(n % 10)]
  }

  /** The value of a string of decimal digits. */
  function DigitsValue(s: string): nat
    requires forall k :: 0 <= k < |s| ==> IsDigit(s[k])
  {
    if s == [] then 0
    else
      assert IsDigit(s[|s| - 1]);
      DigitsValue(s[..|s| - 1]) * 10 + (s[|s| - 1] as int - '0' as int)
  }

  /** Reading the digits back gives the number that was rendered. */
  lemma {:induction false} NatToStringRoundTrip(n: nat)
    ensures DigitsValue(NatToString(n)) == n
    decreases n
  {
    if n >= 10 {
      NatToStringRoundTrip(n / 10);
      var r := NatToString(n);
      assert r[..|r| - 1] == NatToString(n / 10);
    }
  }

  /** How C# renders an `int` in an interpolated string under the invariant
      culture: a minus sign for negative values, then the decimal digits. */
  function IntToString(n: int): (r: string)
    ensures |r| >= 1
    ensures n >= 0 <==> IsDigit(r[0])
    ensures n < 0 ==> r[0] == '-' && |r| >= 2
  {
    if n < 0 then "-" + NatToString(-n) else NatToString(n)
  }

  lemma NatToStringInjective(m: nat, n: nat)
    requires NatToString(m) == NatToString(n)
    ensures m == n
  {
    NatToStringRoundTrip(m);
    NatToStringRoundTrip(n);
  }

  /** Different numbers render differently. */
  lemma IntToStringInjective(m: int, n: int)
    requires IntToString(m) == IntToString(n)
    ensures m == n
  {
    if m < 0 && n < 0 {
      var rm, rn := NatToString(-m), NatToString(-n);
      assert IntToString(m) == "-" + rm && IntToString(n) == "-" + rn;
      assert rm == IntToString(m)[1..];
      assert rn == IntToString(n)[1..];
      NatToStringInjective(-m, -n);
    } else if m >= 0 && n >= 0 {
      NatToStringInjective(m, n);
    }
  }

  /** How C# renders a `bool`: `True` or `False`. */
  function BoolToString(b: bool): (r: string)
    ensures |r| >= 4 && r[0] == (if b then 'T' else 'F')
  {
    if b then "True" else "False"
  }
}

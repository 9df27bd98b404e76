/** Byte-string primitives with the meaning Python 2 gives them: `str.isdigit`,
    `int()`, `str(n)`, `%0Nd`, `<` on strings, `split`, `join`, `lower`, `strip`. */
module Strings {
  import opened Common

  predicate IsDigit(c: char) {
    '0' <= c <= '9'
  }

  predicate AllDigits(s: string) {
    forall i :: 0 <= i < |s| ==> IsDigit(s[i])
  }

  /** `s.isdigit()` on a byte string: non-empty and every byte a decimal digit. */
  predicate IsDigitString(s: string) {
    |s| > 0 && AllDigits(s)
  }

  /** `\w` of a byte-string regular expression without the LOCALE or UNICODE flag. */
  predicate IsWordChar(c: char) {
    ('a' <= c <= 'z') || ('A' <= c <= 'Z') || IsDigit(c) || c == '_'
  }

  /** The bytes C's `isspace` accepts in the C locale. */
  predicate IsSpace(c: char) {
    c == ' ' || c == '\t' || c == '\n' || c == '\r' || c as int == 11 || c as int == 12
  }

  function DigitValue(c: char): nat
    requires IsDigit(c)
  {
    c as int - '0' as int
  }

  function DigitChar(d: nat): (c: char)
    requires d < 10
    ensures IsDigit(c) && DigitValue(c) == d
  {
    ('0' as int + d) as char
  }

  /** The value of a run of decimal digits; leading zeros are allowed, as in `int("007")`. */
  function ParseDigits(s: string): nat
    requires AllDigits(s)
    decreases |s|
  {
    if s == [] then 0 else 10 * ParseDigits(s[..|s| - 1]) + DigitValue(s[|s| - 1])
  }

  lemma {:induction false} ParseDigitsBound(s: string)
    requires AllDigits(s)
    ensures ParseDigits(s) < Pow10(|s|)
    decreases |s|
  {
    if s != [] {
      ParseDigitsBound(s[..|s| - 1]);
    }
  }

  /** The length of the run of decimal digits starting at `k`. */
  function DigitRun(s: string, k: nat): (n: nat)
    requires k <= |s|
    ensures k + n <= |s| && AllDigits(s[k..k + n])
    ensures k + n == |s| || !IsDigit(s[k + n])
    decreases |s| - k
  {
    if k == |s| || !IsDigit(s[k]) then 0
    else
      var n := DigitRun(s, k + 1);
      assert s[k..k + 1 + n] == [s[k]] + s[k + 1..k + 1 + n];
      1 + n
  }

  /** The first `c` at or after `k`, as a regular expression's `[^c]*c` finds it. */
  function FindFrom(s: string, k: nat, c: char): (r: Option<nat>)
    ensures r.Some? ==> k <= r.value < |s| && s[r.value] == c
    ensures r.Some? ==> forall j :: k <= j < r.value ==> s[j] != c
    ensures r.None? ==> forall j :: k <= j < |s| ==> s[j] != c
    decreases |s| - k
  {
    if k >= |s| then None
    else if s[k] == c then Some(k)
    else FindFrom(s, k + 1, c)
  }

  /** `str(n)` for a non-negative integer: the shortest decimal spelling. */
  function ShowNat(n: nat): (r: string)
    ensures IsDigitString(r)
    ensures ParseDigits(r) == n
    ensures |r| > 1 ==> r[0] != '0'
    decreases n
  {
    if n < 10 then [DigitChar(n)]
    else
      var r := ShowNat(n / 10) + [DigitChar(n % 10)];
      assert r[..|r| - 1] == ShowNat(n / 10);
      r
  }

  /** `str(i)` for any integer: a minus sign before the magnitude when negative. */
  function ShowInt(i: int): (r: string)
    ensures i >= 0 <==> IsDigitString(r)
    ensures i < 0 ==> |r| > 1 && r[0] == '-' && IsDigitString(r[1..]) && ParseDigits(r[1..]) == -i
  {
    if i < 0 then
      var r := "-" + ShowNat(-i);
      assert !IsDigit(r[0]);
      r
    else ShowNat(i)
  }

  function Pow10(w: nat): (p: nat)
    ensures p >= 1
  {
    if w == 0 then 1 else 10 * Pow10(w - 1)
  }

  /** `%0<w>d`: the value right-aligned in exactly `w` digits, padded with zeros. */
  function Pad(n: nat, w: nat): (r: string)
    requires n < Pow10(w)
    ensures |r| == w && AllDigits(r)
    ensures ParseDigits(r) == n
    decreases w
  {
    if w == 0 then []
    else
      var r := Pad(n / 10, w - 1) + [DigitChar(n % 10)];
      assert r[..|r| - 1] == Pad(n / 10, w - 1);
      r
  }

  lemma PadInjective(x: nat, y: nat, w: nat)
    requires x < Pow10(w) && y < Pow10(w)
    requires Pad(x, w) == Pad(y, w)
    ensures x == y
  {
  }

  /** Python's `<` on byte strings: the first differing byte decides; a proper
      prefix is smaller. */
  predicate LexLess(a: string, b: string)
    decreases |a|
  {
    if b == [] then false
    else if a == [] then true
    else if a[0] != b[0] then a[0] < b[0]
    else LexLess(a[1..], b[1..])
  }

  /** Python's `<=` on byte strings. */
  predicate LexLe(a: string, b: string) {
    a == b || LexLess(a, b)
  }

  lemma LexLessIrreflexive(a: string)
    ensures !LexLess(a, a)
  {
  }

  lemma LexLessTotal(a: string, b: string)
    ensures a == b || LexLess(a, b) || LexLess(b, a)
    decreases |a|
  {
    if a != [] && b != [] && a[0] == b[0] {
      LexLessTotal(a[1..], b[1..]);
      assert a == [a[0]] + a[1..] && b == [b[0]] + b[1..];
    }
  }

  lemma LexLessAsymmetric(a: string, b: string)
    ensures !(LexLess(a, b) && LexLess(b, a))
    decreases |a|
  {
    if a != [] && b != [] && a[0] == b[0] {
      LexLessAsymmetric(a[1..], b[1..]);
    }
  }

  lemma LexLessTransitive(a: string, b: string, c: string)
    requires LexLess(a, b) && LexLess(b, c)
    ensures LexLess(a, c)
    decreases |a|
  {
    if a != [] && a[0] == b[0] && b[0] == c[0] {
      LexLessTransitive(a[1..], b[1..], c[1..]);
    }
  }

  lemma LexLeTransitive(a: string, b: string, c: string)
    requires LexLe(a, b) && LexLe(b, c)
    ensures LexLe(a, c)
  {
    if a != b && b != c {
      LexLessTransitive(a, b, c);
    }
  }

  /** Comparing two concatenations whose first parts have equal length compares
      the first parts, and the second parts only on a tie. */
  lemma {:induction false} LexLessConcat(a: string, b: string, c: string, d: string)
    requires |a| == |c|
    ensures LexLess(a + b, c + d) <==> LexLess(a, c) || (a == c && LexLess(b, d))
    decreases |a|
  {
    if a == [] {
      assert a + b == b && c + d == d;
    } else {
      assert (a + b)[0] == a[0] && (c + d)[0] == c[0];
      assert (a + b)[1..] == a[1..] + b && (c + d)[1..] == c[1..] + d;
      LexLessConcat(a[1..], b, c[1..], d);
      if a[0] == c[0] {
        assert a == c <==> a[1..] == c[1..] by {
          assert a == [a[0]] + a[1..] && c == [c[0]] + c[1..];
        }
      }
    }
  }

  /** Zero-padded numerals of one width sort as strings exactly as the numbers do,
      which is why the source may compare `YYYY-MM-DD` dates as strings. */
  lemma DivModOrder(x: nat, y: nat)
    ensures x < y <==> x / 10 < y / 10 || (x / 10 == y / 10 && x % 10 < y % 10)
  {
  }

  lemma {:induction false} PadOrder(x: nat, y: nat, w: nat)
    requires x < Pow10(w) && y < Pow10(w)
    ensures LexLess(Pad(x, w), Pad(y, w)) <==> x < y
    decreases w
  {
    if w > 0 {
      assert x / 10 < Pow10(w - 1) && y / 10 < Pow10(w - 1);
      var px, py := Pad(x / 10, w - 1), Pad(y / 10, w - 1);
      var dx, dy := [DigitChar(x % 10)], [DigitChar(y % 10)];
      assert Pad(x, w) == px + dx && Pad(y, w) == py + dy;
      PadOrder(x / 10, y / 10, w - 1);
      LexLessConcat(px, dx, py, dy);
      assert px == py <==> x / 10 == y / 10 by {
        if px == py {
          PadInjective(x / 10, y / 10, w - 1);
        }
      }
      DigitCharOrder(x % 10, y % 10);
      DivModOrder(x, y);
    }
  }

  /** One-digit strings compare as their digits do. */
  lemma DigitCharOrder(a: nat, b: nat)
    requires a < 10 && b < 10
    ensures LexLess([DigitChar(a)], [DigitChar(b)]) <==> a < b
  {
    assert [DigitChar(a)][1..] == [] && [DigitChar(b)][1..] == [];
  }

  /** `sep.join(parts)`. */
  function Join(parts: seq<string>, sep: char): string
    decreases |parts|
  {
    if |parts| == 0 then ""
    else if |parts| == 1 then parts[0]
    else parts[0] + [sep] + Join(parts[1..], sep)
  }

  /** `s.split(sep)` for a one-byte separator: the maximal separator-free pieces,
      including empty ones, so there is always at least one. */
  function Split(s: string, sep: char): (r: seq<string>)
    ensures |r| >= 1
    ensures forall i :: 0 <= i < |r| ==> sep !in r[i]
    decreases |s|
  {
    if s == [] then [""]
    else
      var rest := Split(s[1..], sep);
      if s[0] == sep then [""] + rest
      else [[s[0]] + rest[0]] + rest[1..]
  }

  /** Joining the pieces of a split restores the string. */
  lemma {:induction false} JoinSplit(s: string, sep: char)
    ensures Join(Split(s, sep), sep) == s
    decreases |s|
  {
    if s != [] {
      var rest := Split(s[1..], sep);
      JoinSplit(s[1..], sep);
      if s[0] == sep {
        assert Split(s, sep)[1..] == rest;
      } else {
        var r := Split(s, sep);
        if |rest| == 1 {
          assert r == [[s[0]] + rest[0]];
        } else {
          assert r[1..] == rest[1..];
          assert Join(rest, sep) == rest[0] + [sep] + Join(rest[1..], sep);
        }
      }
      assert s == [s[0]] + s[1..];
    }
  }

  lemma {:induction false} SplitNoSeparator(s: string, sep: char)
    requires sep !in s
    ensures Split(s, sep) == [s]
    decreases |s|
  {
    if s != [] {
      SplitNoSeparator(s[1..], sep);
      assert s == [s[0]] + s[1..];
    }
  }

  lemma {:induction false} SplitAfterPiece(p: string, t: string, sep: char)
    requires sep !in p
    ensures Split(p + [sep] + t, sep) == [p] + Split(t, sep)
    decreases |p|
  {
    var s := p + [sep] + t;
    if p == [] {
      assert s[1..] == t;
    } else {
      assert s[1..] == p[1..] + [sep] + t;
      SplitAfterPiece(p[1..], t, sep);
      assert p == [p[0]] + p[1..];
    }
  }

  /** A separator-free piece after a last separator is the last part. */
  lemma {:induction false} SplitLastPiece(p: string, q: string, sep: char)
    requires sep !in q
    ensures Split(p + [sep] + q, sep) == Split(p, sep) + [q]
    decreases |p|
  {
    var s := p + [sep] + q;
    if p == [] {
      assert s[1..] == q;
      SplitNoSeparator(q, sep);
    } else {
      assert s[1..] == p[1..] + [sep] + q;
      SplitLastPiece(p[1..], q, sep);
    }
  }

  /** Splitting a join of separator-free pieces gives the pieces back. */
  lemma {:induction false} SplitJoin(parts: seq<string>, sep: char)
    requires |parts| >= 1
    requires forall i :: 0 <= i < |parts| ==> sep !in parts[i]
    ensures Split(Join(parts, sep), sep) == parts
    decreases |parts|
  {
    if |parts| == 1 {
      SplitNoSeparator(parts[0], sep);
    } else {
      SplitJoin(parts[1..], sep);
      SplitAfterPiece(parts[0], Join(parts[1..], sep), sep);
      assert parts == [parts[0]] + parts[1..];
    }
  }

  function LowerChar(c: char): char {
    if 'A' <= c <= 'Z' then (c as int + 32) as char else c
  }

  /** `s.lower()` on a byte string: ASCII letters only. */
  function Lower(s: string): (r: string)
    ensures |r| == |s|
    ensures forall i :: 0 <= i < |s| ==> r[i] == LowerChar(s[i])
    decreases |s|
  {
    if s == [] then "" else [LowerChar(s[0])] + Lower(s[1..])
  }

  function TrimLeft(s: string): (r: string)
    ensures r == [] || !IsSpace(r[0])
    ensures |r| <= |s| && r == s[|s| - |r|..]
    ensures forall i :: 0 <= i < |s| - |r| ==> IsSpace(s[i])
    decreases |s|
  {
    if s != [] && IsSpace(s[0]) then TrimLeft(s[1..]) else s
  }

  function TrimRight(s: string): (r: string)
    ensures r == [] || !IsSpace(r[|r| - 1])
    ensures |r| <= |s| && r == s[..|r|]
    ensures forall i :: |r| <= i < |s| ==> IsSpace(s[i])
    decreases |s|
  {
    if s != [] && IsSpace(s[|s| - 1]) then TrimRight(s[..|s| - 1]) else s
  }

  /** `s.strip()`: whitespace removed from both ends. */
  function Strip(s: string): string {
    TrimRight(TrimLeft(s))
  }

  /** Python 2's `int(s)` in base 10: optional surrounding whitespace, an optional
      sign (whitespace may follow it too), then one or more decimal digits;
      anything else raises ValueError (None). */
  function ParseInt(s: string): (r: Option<int>)
    ensures IsDigitString(s) ==> r == Some(ParseDigits(s))
  {
    ParseStripped(Strip(s))
  }

  /** `int()` once the surrounding whitespace is gone. */
  function ParseStripped(t: string): Option<int> {
    if |t| > 0 && (t[0] == '-' || t[0] == '+') then
      var u := TrimLeft(t[1..]);
      if IsDigitString(u) then
        var v: int := ParseDigits(u);
        Some(if t[0] == '-' then -v else v)
      else None
    else if IsDigitString(t) then Some(ParseDigits(t))
    else None
  }

  /** Python 2's `float(s)` on integer text: optional surrounding whitespace,
      then an optional sign followed at once by one or more decimal digits.
      Unlike `int()`, no whitespace may come between the sign and the digits.
      Decimal points and exponents are not modelled (None). */
  function ParseWholeFloat(s: string): (r: Option<int>)
    ensures IsDigitString(s) ==> r == Some(ParseDigits(s))
  {
    ParseSigned(Strip(s))
  }

  /** `float()` once the surrounding whitespace is gone. */
  function ParseSigned(t: string): Option<int> {
    if |t| > 0 && (t[0] == '-' || t[0] == '+') then
      if IsDigitString(t[1..]) then
        var v: int := ParseDigits(t[1..]);
        Some(if t[0] == '-' then -v else v)
      else None
    else if IsDigitString(t) then Some(ParseDigits(t))
    else None
  }

  /** Integer text `float()` accepts, `int()` accepts too, with the same value. */
  lemma WholeFloatIsInt(s: string)
    requires ParseWholeFloat(s).Some?
    ensures ParseInt(s) == ParseWholeFloat(s)
  {
    var t := Strip(s);
    if |t| > 0 && (t[0] == '-' || t[0] == '+') {
      DigitsUnspaced(t[1..]);
    }
  }

  /** A digit string has no leading whitespace to trim. */
  lemma DigitsUnspaced(u: string)
    requires IsDigitString(u)
    ensures TrimLeft(u) == u
  {
    assert !IsSpace(u[0]);
  }

  /** A sign, blanks, then digits: `int()` reads the number but `float()`
      raises ValueError. */
  lemma BlankAfterSignRejected(sign: char, blanks: string, u: string)
    requires sign == '-' || sign == '+'
    requires blanks != [] && AllSpaces(blanks) && IsDigitString(u)
    ensures ParseWholeFloat([sign] + blanks + u).None?
    ensures ParseInt([sign] + blanks + u).Some?
  {
    var t := [sign] + blanks + u;
    assert ParseWholeFloat(t).None? by {
      SignedText(sign, blanks, u, t);
      StripUnspaced(t);
      SpaceNotDigits(t[1..]);
    }
    SignedDigits(sign, blanks, u);
  }

  lemma SpaceNotDigits(u: string)
    requires u != [] && IsSpace(u[0])
    ensures !IsDigitString(u)
  {
  }

  /** `float(str(i)) == i`. */
  lemma ParseShowWholeFloat(i: int)
    ensures ParseWholeFloat(ShowInt(i)) == Some(i)
  {
    var r := ShowInt(i);
    if i < 0 {
      assert r[|r| - 1] == r[1..][|r| - 2];
      StripUnspaced(r);
    }
  }

  /** `int(str(i)) == i`. */
  lemma ParseShowInt(i: int)
    ensures ParseInt(ShowInt(i)) == Some(i)
  {
    ParseShowWholeFloat(i);
    WholeFloatIsInt(ShowInt(i));
  }

  /** Every character of `b` is whitespace. */
  predicate AllSpaces(b: string) {
    forall k :: 0 <= k < |b| ==> IsSpace(b[k])
  }

  /** A sign, blanks, then digits: `int("- 5") == -5`, the blanks skipped. */
  lemma SignedDigits(sign: char, blanks: string, u: string)
    requires sign == '-' || sign == '+'
    requires AllSpaces(blanks) && IsDigitString(u)
    ensures ParseInt([sign] + blanks + u) == Some(if sign == '-' then -(ParseDigits(u) as int) else ParseDigits(u) as int)
  {
    var t := [sign] + blanks + u;
    SignedText(sign, blanks, u, t);
    StripUnspaced(t);
    TrimBlanks(blanks, u);
    SignedStripped(t, u);
  }

  /** Stripped text made of a sign, blanks and the digits `u`. */
  lemma SignedStripped(t: string, u: string)
    requires t != [] && (t[0] == '-' || t[0] == '+')
    requires TrimLeft(t[1..]) == u && IsDigitString(u)
    ensures ParseStripped(t) == Some(if t[0] == '-' then -(ParseDigits(u) as int) else ParseDigits(u) as int)
  {
  }

  lemma SignedText(sign: char, blanks: string, u: string, t: string)
    requires sign == '-' || sign == '+'
    requires t == [sign] + blanks + u && IsDigitString(u)
    ensures t != [] && t[0] == sign && t[1..] == blanks + u
    ensures !IsSpace(t[0]) && !IsSpace(t[|t| - 1])
  {
    assert t[|t| - 1] == u[|u| - 1];
    assert t[1..] == blanks + u;
  }

  lemma {:induction false} TrimBlanks(blanks: string, u: string)
    requires AllSpaces(blanks) && IsDigitString(u)
    ensures TrimLeft(blanks + u) == u
    decreases |blanks|
  {
    if blanks != [] {
      assert (blanks + u)[1..] == blanks[1..] + u;
      assert (blanks + u)[0] == blanks[0];
      TrimBlanks(blanks[1..], u);
    } else {
      assert blanks + u == u;
      assert !IsSpace(u[0]);
    }
  }

  /** Text that neither starts nor ends with whitespace survives `strip()`. */
  lemma StripUnspaced(r: string)
    requires r != [] && !IsSpace(r[0]) && !IsSpace(r[|r| - 1])
    ensures Strip(r) == r
  {
    assert TrimLeft(r) == r;
  }

  predicate EndsWith(s: string, suffix: string) {
    |suffix| <= |s| && s[|s| - |suffix|..] == suffix
  }
}

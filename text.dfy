/**
 * The string primitives the command interpreter relies on, written out:
 * `trim`, ASCII `toLowerCase`, `split` on single characters, the `\w` class,
 * and the decimal readers standing in for `parseInt(s, 10)` and `parseFloat`.
 */
module Text {
  import opened Wrappers

  /** The white-space characters `String.prototype.trim` strips (the ASCII ones and U+00A0, U+FEFF). */
  predicate IsSpace(c: char)
  {
    c == ' ' || c == '\t' || c == '\n' || c == '\r' || c == '\U{B}' || c == '\U{C}' || c == '\U{A0}' || c == '\U{FEFF}'
  }

  /** The first index at or after `i` that does not hold white space (or `|s|`). */
  function SpacesFrom(s: string, i: nat): (r: nat)
    requires i <= |s|
    ensures i <= r <= |s|
    ensures forall j :: i <= j < r ==> IsSpace(s[j])
    ensures r == |s| || !IsSpace(s[r])
    decreases |s| - i
  {
    if i < |s| && IsSpace(s[i]) then SpacesFrom(s, i + 1) else i
  }

  /** The end of `s[lo..e]` once its trailing white space is dropped. */
  function SpacesBefore(s: string, lo: nat, e: nat): (r: nat)
    requires lo <= e <= |s|
    ensures lo <= r <= e
    ensures forall j :: r <= j < e ==> IsSpace(s[j])
    ensures r == lo || !IsSpace(s[r - 1])
    decreases e
  {
    if lo < e && IsSpace(s[e - 1]) then SpacesBefore(s, lo, e - 1) else e
  }

  /** `s` without its leading white space, as `parseInt` and `parseFloat` skip it. */
  function TrimStart(s: string): string
  {
    s[SpacesFrom(s, 0)..]
  }

  /**
   * `s.trim()`: the result is the piece of `s` that starts and ends with a
   * non-space character, and everything cut off on either side is space.
   */
  function Trim(s: string): (r: string)
    ensures SpacesFrom(s, 0) + |r| <= |s|
    ensures r == s[SpacesFrom(s, 0)..SpacesFrom(s, 0) + |r|]
    ensures forall i :: 0 <= i < SpacesFrom(s, 0) ==> IsSpace(s[i])
    ensures forall i :: SpacesFrom(s, 0) + |r| <= i < |s| ==> IsSpace(s[i])
    ensures r == [] || (!IsSpace(r[0]) && !IsSpace(r[|r| - 1]))
  {
    var a := SpacesFrom(s, 0);
    s[a..SpacesBefore(s, a, |s|)]
  }

  /** Every character of the trimmed string comes from the original. */
  lemma TrimChars(s: string)
    ensures forall i :: 0 <= i < |Trim(s)| ==> Trim(s)[i] in s
  {
    var off := SpacesFrom(s, 0);
    assert forall i :: 0 <= i < |Trim(s)| ==> Trim(s)[i] == s[off + i];
  }

  /** `toLowerCase` on one character; only A-Z are mapped. */
  function Lower(c: char): (d: char)
    ensures 'A' <= c <= 'Z' ==> d as int == c as int + 32
    ensures !('A' <= c <= 'Z') ==> d == c
  {
    if 'A' <= c <= 'Z' then (c as int + 32) as char else c
  }

  function LowerStr(s: string): (r: string)
    ensures |r| == |s| && forall i :: 0 <= i < |s| ==> r[i] == Lower(s[i])
  {
    seq(|s|, i requires 0 <= i < |s| => Lower(s[i]))
  }

  /** Lower-casing a string that has no upper-case letter changes nothing. */
  lemma LowerStrNoUpper(s: string)
    requires forall i :: 0 <= i < |s| ==> !('A' <= s[i] <= 'Z')
    ensures LowerStr(s) == s
  {
  }

  /** A string that neither starts nor ends with a space is its own trim. */
  lemma TrimTrimmed(s: string)
    requires s == [] || (!IsSpace(s[0]) && !IsSpace(s[|s| - 1]))
    ensures Trim(s) == s
  {
    if s != [] {
      assert SpacesFrom(s, 0) == 0;
      assert SpacesBefore(s, 0, |s|) == |s|;
      assert s[0..|s|] == s;
    }
  }

  /** Lower-casing twice is lower-casing once. */
  lemma LowerStrIdempotent(s: string)
    ensures LowerStr(LowerStr(s)) == LowerStr(s)
  {
    var l := LowerStr(s);
    forall i | 0 <= i < |l| ensures !('A' <= l[i] <= 'Z') {
    }
    LowerStrNoUpper(l);
  }

  /**
   * `s.split(c)` for a separator set: the pieces between separators, in
   * order; a string with k separators gives k + 1 pieces.
   */
  function SplitOn(s: string, seps: set<char>): (r: seq<string>)
    ensures |r| >= 1
    ensures forall k, i :: 0 <= k < |r| && 0 <= i < |r[k]| ==> r[k][i] !in seps
    ensures |r| == 1 + CountIn(s, seps)
  {
    if s == [] then [[]]
    else
      var rest := SplitOn(s[1..], seps);
      if s[0] in seps then [[]] + rest else [[s[0]] + rest[0]] + rest[1..]
  }

  function CountIn(s: string, seps: set<char>): nat
  {
    if s == [] then 0 else (if s[0] in seps then 1 else 0) + CountIn(s[1..], seps)
  }

  /** `pieces.join(c)`. */
  function Join(pieces: seq<string>, c: char): string
  {
    if |pieces| == 0 then []
    else if |pieces| == 1 then pieces[0]
    else pieces[0] + [c] + Join(pieces[1..], c)
  }

  /** Splitting on one character and joining with it gives the string back. */
  lemma {:induction false} SplitJoin(s: string, c: char)
    ensures Join(SplitOn(s, {c}), c) == s
  {
    if s != [] {
      var rest := SplitOn(s[1..], {c});
      SplitJoin(s[1..], c);
      if s[0] == c {
        assert SplitOn(s, {c}) == [[]] + rest;
      } else {
        var r := SplitOn(s, {c});
        assert r == [[s[0]] + rest[0]] + rest[1..];
        if |rest| == 1 {
          assert Join(r, c) == [s[0]] + rest[0];
        } else {
          assert r[1..] == rest[1..];
          assert Join(rest, c) == rest[0] + [c] + Join(rest[1..], c);
        }
      }
    }
  }

  /** Index of the first `c` in `s`, or -1. */
  function IndexOfChar(s: string, c: char): (k: int)
    ensures -1 <= k < |s|
    ensures k == -1 <==> c !in s
    ensures k >= 0 ==> s[k] == c && c !in s[..k]
  {
    if s == [] then -1
    else if s[0] == c then 0
    else
      var k := IndexOfChar(s[1..], c);
      assert s[1..][..if k < 0 then 0 else k] == s[1..if k < 0 then 1 else k + 1];
      if k == -1 then -1 else k + 1
  }

  predicate IsDigit(c: char)
  {
    '0' <= c <= '9'
  }

  /** The regular-expression class `\w`: ASCII letters, digits and `_`. */
  predicate IsWordChar(c: char)
  {
    'a' <= c <= 'z' || 'A' <= c <= 'Z' || IsDigit(c) || c == '_'
  }

  /** The longest prefix of `s` made of digits. */
  function DigitPrefix(s: string): (r: string)
    ensures |r| <= |s| && r == s[..|r|]
    ensures forall i :: 0 <= i < |r| ==> IsDigit(r[i])
    ensures |r| < |s| ==> !IsDigit(s[|r|])
  {
    if s != [] && IsDigit(s[0]) then [s[0]] + DigitPrefix(s[1..]) else []
  }

  /** The longest prefix of `s` made of `\w` characters. */
  function WordPrefix(s: string): (r: string)
    ensures |r| <= |s| && r == s[..|r|]
    ensures forall i :: 0 <= i < |r| ==> IsWordChar(r[i])
    ensures |r| < |s| ==> !IsWordChar(s[|r|])
  {
    if s != [] && IsWordChar(s[0]) then [s[0]] + WordPrefix(s[1..]) else []
  }

  /** A word followed by a non-word character (or nothing) is exactly the longest word prefix. */
  lemma {:induction false} WordPrefixOfWord(w: string, x: string)
    requires forall i :: 0 <= i < |w| ==> IsWordChar(w[i])
    requires x == [] || !IsWordChar(x[0])
    ensures WordPrefix(w + x) == w
  {
    if w != [] {
      assert (w + x)[1..] == w[1..] + x;
      WordPrefixOfWord(w[1..], x);
    }
  }

  /** The first occurrence of `c` after a prefix that does not contain it. */
  lemma {:induction false} IndexOfCharAfter(a: string, c: char, b: string)
    requires c !in a
    ensures IndexOfChar(a + [c] + b, c) == |a|
  {
    if a != [] {
      assert (a + [c] + b)[1..] == a[1..] + [c] + b;
      IndexOfCharAfter(a[1..], c, b);
    }
  }

  function DigitValue(c: char): nat
    requires IsDigit(c)
  {
    c as int - '0' as int
  }

  /** The value of a run of decimal digits, most significant first. */
  function DigitsValue(ds: string): nat
    requires forall i :: 0 <= i < |ds| ==> IsDigit(ds[i])
  {
    if ds == [] then 0 else DigitsValue(ds[..|ds| - 1]) * 10 + DigitValue(ds[|ds| - 1])
  }

  /** The value of the digits after a decimal point. */
  function FracValue(ds: string): real
    requires forall i :: 0 <= i < |ds| ==> IsDigit(ds[i])
  {
    if ds == [] then 0.0 else (DigitValue(ds[0]) as real + FracValue(ds[1..])) / 10.0
  }

  /** A fraction read after the point lies in [0, 1). */
  lemma {:induction false} FracValueBounds(ds: string)
    requires forall i :: 0 <= i < |ds| ==> IsDigit(ds[i])
    ensures 0.0 <= FracValue(ds) < 1.0
  {
    if ds != [] {
      FracValueBounds(ds[1..]);
    }
  }

  /** Strips a leading `+` or `-`; the integer is the sign. */
  function Sign(s: string): (r: (int, string))
    ensures s != [] && s[0] == '-' ==> r == (-1, s[1..])
    ensures s != [] && s[0] == '+' ==> r == (1, s[1..])
    ensures (s == [] || (s[0] != '-' && s[0] != '+')) ==> r == (1, s)
  {
    if s != [] && s[0] == '-' then (-1, s[1..])
    else if s != [] && s[0] == '+' then (1, s[1..])
    else (1, s)
  }

  /**
   * `parseInt(s, 10)`: leading white space is skipped, one sign is accepted,
   * then the longest run of digits is read; with no digit the result is NaN
   * (`None`).
   */
  function ParseInt(s: string): Option<int>
  {
    var (sign, rest) := Sign(TrimStart(s));
    var ds := DigitPrefix(rest);
    if ds == [] then None else Some(sign * DigitsValue(ds))
  }

  /**
   * `parseFloat(s)` restricted to plain decimals: leading white space, one
   * sign, digits, an optional `.` and fraction digits, at least one digit in
   * all; the longest such prefix is read.
   */
  function ParseFloat(s: string): Option<real>
  {
    var (sign, rest) := Sign(TrimStart(s));
    var ds := DigitPrefix(rest);
    var after := rest[|ds|..];
    var frac := if after != [] && after[0] == '.' then DigitPrefix(after[1..]) else [];
    if ds == [] && frac == [] then None
    else Some(sign as real * (DigitsValue(ds) as real + FracValue(frac)))
  }

  function DigitChar(d: nat): (c: char)
    requires d < 10
    ensures IsDigit(c) && DigitValue(c) == d
  {
    ('0' as int + d) as char
  }

  /** `String(n)` for a natural number. */
  function NatToString(n: nat): (s: string)
    ensures |s| >= 1 && forall i :: 0 <= i < |s| ==> IsDigit(s[i])
  {
    if n < 10 then [DigitChar(n)] else NatToString(n / 10) + [DigitChar(n % 10)]
  }

  lemma {:induction false} DigitsValueOfNatToString(n: nat)
    ensures DigitsValue(NatToString(n)) == n
  {
    var s := NatToString(n);
    if n >= 10 {
      DigitsValueOfNatToString(n / 10);
      assert s[..|s| - 1] == NatToString(n / 10);
    }
  }

  lemma {:induction false} DigitPrefixOfDigits(s: string)
    requires forall i :: 0 <= i < |s| ==> IsDigit(s[i])
    ensures DigitPrefix(s) == s
  {
    if s != [] {
      DigitPrefixOfDigits(s[1..]);
    }
  }

  /** A natural number written in decimal reads back as itself. */
  lemma ParseIntNatToString(n: nat)
    ensures ParseInt(NatToString(n)) == Some(n)
  {
    var s := NatToString(n);
    assert TrimStart(s) == s;
    assert Sign(s) == (1, s);
    DigitPrefixOfDigits(s);
    DigitsValueOfNatToString(n);
  }

  /** Every value `ParseInt` reads from a string without `-` is non-negative. */
  lemma ParseIntWithoutMinus(s: string)
    requires '-' !in s
    requires ParseInt(s).Some?
    ensures ParseInt(s).value >= 0
  {
    var t := TrimStart(s);
    if t != [] {
      assert t[0] == s[SpacesFrom(s, 0)];
      assert t[0] in s;
    }
    var (sign, rest) := Sign(t);
    assert sign == 1;
    assert ParseInt(s).value == sign * DigitsValue(DigitPrefix(rest));
  }
}

/**
 * The string operations the admin pages lean on: `string.IsNullOrWhiteSpace`,
 * ordinal and ordinal-ignore-case `Contains` / `Equals`, `int.ToString()` and
 * `int.TryParse`. A C# `null` string is modelled as the empty string: every
 * use in the pages treats the two alike.
 */
module Text {
  import opened Base

  type String = seq<char>

  /** `char.IsWhiteSpace`: the Latin-1 white space and the Unicode separators. */
  predicate IsWhiteSpace(c: char) {
    var n := c as int;
    n == 0x20 || 0x09 <= n <= 0x0D || n == 0x85 || n == 0xA0 || n == 0x1680
    || 0x2000 <= n <= 0x200A || n == 0x2028 || n == 0x2029 || n == 0x202F
    || n == 0x205F || n == 0x3000
  }

  /** `string.IsNullOrWhiteSpace`. */
  predicate IsBlank(s: String) {
    forall i :: 0 <= i < |s| ==> IsWhiteSpace(s[i])
  }

  /**
   * An enum filter in force: only when its text is not blank and parses.
   * `parse` stands for `Enum.TryParse` of the enum concerned.
   */
  function EnumFilter(text: String, parse: String -> Option<int>): Option<int> {
    if IsBlank(text) then None else parse(text)
  }

  predicate IsAsciiLetter(c: char) {
    'a' <= c <= 'z' || 'A' <= c <= 'Z'
  }

  predicate LetterFree(s: String) {
    forall i :: 0 <= i < |s| ==> !IsAsciiLetter(s[i])
  }

  /** Simple upper-case mapping used by ordinal-ignore-case comparison. */
  function FoldChar(c: char): (r: char)
    ensures IsAsciiLetter(r) <==> IsAsciiLetter(c)
    ensures !IsAsciiLetter(c) ==> r == c
  {
    if 'a' <= c <= 'z' then (c as int - 32) as char else c
  }

  function Fold(s: String): (r: String)
    ensures |r| == |s|
    ensures forall i :: 0 <= i < |s| ==> r[i] == FoldChar(s[i])
  {
    seq(|s|, i requires 0 <= i < |s| => FoldChar(s[i]))
  }

  predicate StartsWith(s: String, k: String) {
    |k| <= |s| && s[..|k|] == k
  }

  /** Ordinal `s.Contains(k)`; every string contains the empty string. */
  predicate Contains(s: String, k: String)
    decreases |s|
  {
    StartsWith(s, k) || (|s| > 0 && Contains(s[1..], k))
  }

  /** `s.Contains(k, StringComparison.OrdinalIgnoreCase)`. */
  predicate ContainsIgnoreCase(s: String, k: String) {
    Contains(Fold(s), Fold(k))
  }

  /** `string.Equals(a, b, OrdinalIgnoreCase)` and `string.Compare(..) == 0`. */
  predicate EqualsIgnoreCase(a: String, b: String) {
    Fold(a) == Fold(b)
  }

  lemma {:induction false} ContainsAt(s: String, k: String, i: nat)
    requires i + |k| <= |s| && s[i..i + |k|] == k
    ensures Contains(s, k)
    decreases i
  {
    if i > 0 {
      assert s[1..][i - 1..i - 1 + |k|] == k;
      ContainsAt(s[1..], k, i - 1);
    }
  }

  lemma FoldLetterFree(s: String)
    requires LetterFree(s)
    ensures Fold(s) == s
  {
  }

  lemma FoldedLetterFree(k: String)
    requires LetterFree(Fold(k))
    ensures Fold(k) == k
  {
    forall i | 0 <= i < |k| ensures Fold(k)[i] == k[i] {
      assert !IsAsciiLetter(FoldChar(k[i]));
    }
  }

  /**
   * In a string without letters (a rendered number) the ordinal search and
   * the case-insensitive search agree.
   */
  lemma {:induction false} LetterFreeContains(t: String, k: String)
    requires LetterFree(t)
    ensures Contains(t, k) <==> ContainsIgnoreCase(t, k)
    decreases |t|
  {
    FoldLetterFree(t);
    if StartsWith(t, k) {
      assert LetterFree(k) by {
        forall i | 0 <= i < |k| ensures !IsAsciiLetter(k[i]) {
          assert k[i] == t[i];
        }
      }
      FoldLetterFree(k);
    }
    if StartsWith(t, Fold(k)) {
      assert LetterFree(Fold(k)) by {
        forall i | 0 <= i < |k| ensures !IsAsciiLetter(Fold(k)[i]) {
          assert Fold(k)[i] == t[i];
        }
      }
      FoldedLetterFree(k);
    }
    if |t| > 0 {
      assert LetterFree(t[1..]);
      LetterFreeContains(t[1..], k);
      FoldLetterFree(t[1..]);
    }
  }

  /**
   * Two keywords that differ only in letter case are treated alike by every
   * keyword filter: the same blankness, the same case-insensitive matches and
   * the same ordinal matches against letter-free text.
   */
  lemma KeywordCaseInvariant(k1: String, k2: String, s: String, t: String)
    requires Fold(k1) == Fold(k2)
    requires LetterFree(t)
    ensures IsBlank(k1) <==> IsBlank(k2)
    ensures ContainsIgnoreCase(s, k1) <==> ContainsIgnoreCase(s, k2)
    ensures Contains(t, k1) <==> Contains(t, k2)
  {
    forall i | 0 <= i < |k1| ensures IsWhiteSpace(k1[i]) <==> IsWhiteSpace(k2[i]) {
      assert FoldChar(k1[i]) == FoldChar(k2[i]);
    }
    LetterFreeContains(t, k1);
    LetterFreeContains(t, k2);
  }

  // ---------------------------------------------------------------------
  // Rendering and parsing of decimal integers

  predicate IsDigit(c: char) {
    '0' <= c <= '9'
  }

  predicate AllDigits(s: String) {
    forall i :: 0 <= i < |s| ==> IsDigit(s[i])
  }

  function DigitChar(d: nat): (c: char)
    requires d < 10
    ensures IsDigit(c) && c as int - '0' as int == d
  {
    ('0' as int + d) as char
  }

  /** `n.ToString()` for a non-negative `n`. */
  function NatToString(n: nat): String
    decreases n
  {
    if n < 10 then [DigitChar(n)] else NatToString(n / 10) + [DigitChar(n % 10)]
  }

  /** `n.ToString()` under the invariant culture. */
  function IntToString(n: int): String {
    if n < 0 then "-" + NatToString(-n) else NatToString(n)
  }

  /** The value of a run of decimal digits, most significant first. */
  function DigitsValue(s: String): nat
    requires AllDigits(s)
    decreases |s|
  {
    if s == [] then 0 else DigitsValue(s[..|s| - 1]) * 10 + (s[|s| - 1] as int - '0' as int)
  }

  lemma {:induction false} NatToStringDigits(n: nat)
    ensures |NatToString(n)| > 0 && AllDigits(NatToString(n))
    ensures DigitsValue(NatToString(n)) == n
    decreases n
  {
    if n >= 10 {
      NatToStringDigits(n / 10);
      var s := NatToString(n);
      assert s[..|s| - 1] == NatToString(n / 10);
    }
  }

  lemma IntToStringLetterFree(n: int)
    ensures LetterFree(IntToString(n))
  {
    var m := if n < 0 then -n else n;
    NatToStringDigits(m);
    var d := NatToString(m);
    if n < 0 {
      assert IntToString(n) == "-" + d;
      forall i | 0 <= i < |IntToString(n)| ensures !IsAsciiLetter(IntToString(n)[i]) {
        if i > 0 { assert IntToString(n)[i] == d[i - 1]; }
      }
    }
  }

  /**
   * The keyword filter of the catalog pages: a blank keyword keeps every
   * row; otherwise the name (ignoring case) or the decimal index (ordinal)
   * must contain it.
   */
  predicate KeywordMatch(name: String, index: int, keyword: String) {
    IsBlank(keyword) || ContainsIgnoreCase(name, keyword) || Contains(IntToString(index), keyword)
  }

  /** The keyword filter cannot tell apart two keywords that differ only in letter case. */
  lemma KeywordMatchIgnoresCase(name: String, index: int, k1: String, k2: String)
    requires EqualsIgnoreCase(k1, k2)
    ensures KeywordMatch(name, index, k1) <==> KeywordMatch(name, index, k2)
  {
    IntToStringLetterFree(index);
    KeywordCaseInvariant(k1, k2, name, IntToString(index));
  }

  /** The white space `NumberStyles.Integer` lets surround a number. */
  predicate IsNumberWhite(c: char) {
    c == ' ' || '\t' <= c <= '\r'
  }

  function TrimStart(s: String): (r: String)
    ensures |r| <= |s|
    decreases |s|
  {
    if |s| > 0 && IsNumberWhite(s[0]) then TrimStart(s[1..]) else s
  }

  function TrimEnd(s: String): (r: String)
    ensures |r| <= |s|
    decreases |s|
  {
    if |s| > 0 && IsNumberWhite(s[|s| - 1]) then TrimEnd(s[..|s| - 1]) else s
  }

  function ParseDigits(ds: String, negative: bool): (r: Option<int>)
    ensures r.Some? ==> IsInt32(r.value)
  {
    if ds == [] || !AllDigits(ds) then None
    else
      var v: int := if negative then 0 - (DigitsValue(ds) as int) else DigitsValue(ds);
      if IsInt32(v) then Some(v) else None
  }

  /** `int.TryParse(s, out v)`: `Some(v)` on success, `None` on failure. */
  function ParseInt32(s: String): (r: Option<int>)
    ensures r.Some? ==> IsInt32(r.value)
  {
    var t := TrimEnd(TrimStart(s));
    if |t| > 0 && (t[0] == '-' || t[0] == '+') then ParseDigits(t[1..], t[0] == '-')
    else ParseDigits(t, false)
  }

  /** Parsing inverts rendering on the whole `int` range. */
  lemma ParseRendered(n: int)
    requires IsInt32(n)
    ensures ParseInt32(IntToString(n)) == Some(n)
  {
    var m := if n < 0 then -n else n;
    NatToStringDigits(m);
    var d := NatToString(m);
    var s := IntToString(n);
    assert s[0] == '-' || IsDigit(s[0]);
    assert IsDigit(s[|s| - 1]);
    assert TrimStart(s) == s;
    assert TrimEnd(s) == s;
    if n < 0 {
      assert s[1..] == d;
    }
  }
}

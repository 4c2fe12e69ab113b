/**
 * The text operations delaydetect.py relies on (str.strip, str.isdigit, int,
 * str.find) and the validation of numeric entry fields built from them
 * (check_and_convert_int): the text is stripped of surrounding whitespace,
 * accepted only if it is a non-empty run of decimal digits, and converted to
 * the integer it spells.
 */
module Text {
  import opened Wrappers

  /** The characters Python's str.strip() removes, restricted to Latin-1. */
  predicate IsSpace(c: char) {
    c == ' ' || ('\t' <= c <= '\r') || ('\U{1C}' <= c <= '\U{1F}')
    || c == '\U{85}' || c == '\U{A0}'
  }

  predicate AllSpace(s: string) {
    forall k :: 0 <= k < |s| ==> IsSpace(s[k])
  }

  /** Number of whitespace characters at the start of s. */
  function LeadingSpace(s: string): (n: nat)
    ensures n <= |s|
    ensures forall k :: 0 <= k < n ==> IsSpace(s[k])
    ensures n < |s| ==> !IsSpace(s[n])
  {
    if s == [] || !IsSpace(s[0]) then 0 else 1 + LeadingSpace(s[1..])
  }

  /** Number of whitespace characters at the end of s. */
  function TrailingSpace(s: string): (n: nat)
    ensures n <= |s|
    ensures forall k :: |s| - n <= k < |s| ==> IsSpace(s[k])
    ensures n < |s| ==> !IsSpace(s[|s| - 1 - n])
  {
    if s == [] || !IsSpace(s[|s| - 1]) then 0 else 1 + TrailingSpace(s[..|s| - 1])
  }

  /** Python's str.strip(): the slice of s left after its leading and trailing whitespace. */
  function Strip(s: string): (r: string)
    ensures LeadingSpace(s) + |r| <= |s|
    ensures r == s[LeadingSpace(s)..LeadingSpace(s) + |r|]
  {
    var core := s[LeadingSpace(s)..];
    core[..|core| - TrailingSpace(core)]
  }

  /**
   * What is stripped is exactly the surrounding whitespace: the result
   * neither starts nor ends with whitespace, and everything outside it is
   * whitespace.
   */
  lemma StripMeaning(s: string)
    ensures var r := Strip(s);
      r == [] || (!IsSpace(r[0]) && !IsSpace(r[|r| - 1]))
    ensures var r, lead := Strip(s), LeadingSpace(s);
      forall k :: 0 <= k < |s| && !(lead <= k < lead + |r|) ==> IsSpace(s[k])
  {
    var lead := LeadingSpace(s);
    var core := s[lead..];
    var trail := TrailingSpace(core);
    var r := Strip(s);
    assert r == core[..|core| - trail];
    forall k | 0 <= k < |s| && !(lead <= k < lead + |r|)
      ensures IsSpace(s[k])
    {
      if k >= lead {
        assert s[k] == core[k - lead];
      }
    }
    if r != [] {
      assert r[|r| - 1] == core[|core| - 1 - trail];
    }
  }

  /** Stripping text that is whitespace, a core with non-blank ends, whitespace, gives the core. */
  lemma StripPadded(pre: string, core: string, post: string)
    requires AllSpace(pre) && AllSpace(post)
    requires core != [] && !IsSpace(core[0]) && !IsSpace(core[|core| - 1])
    ensures Strip(pre + core + post) == core
  {
    var s := pre + core + post;
    var lead := LeadingSpace(s);
    assert s[|pre|] == core[0];
    assert forall k :: 0 <= k < |pre| ==> s[k] == pre[k];
    assert lead == |pre|;
    var r := Strip(s);
    StripMeaning(s);
    assert s[|pre| + |core| - 1] == core[|core| - 1];
    assert forall k :: |pre| + |core| <= k < |s| ==> s[k] == post[k - |pre| - |core|];
    assert |r| == |core|;
    assert r == s[|pre|..|pre| + |core|];
  }

  predicate IsDigit(c: char) {
    '0' <= c <= '9'
  }

  /** Python's str.isdigit() on ASCII text: non-empty and digits only. */
  predicate IsDigits(s: string) {
    |s| > 0 && forall k :: 0 <= k < |s| ==> IsDigit(s[k])
  }

  function DigitValue(c: char): (d: nat)
    requires IsDigit(c)
    ensures d < 10
  {
    c as int - '0' as int
  }

  function DigitChar(d: nat): (c: char)
    requires d < 10
    ensures IsDigit(c) && DigitValue(c) == d
  {
    ('0' as int + d) as char
  }

  /** Python's int() on a string of decimal digits (leading zeros allowed). */
  function ParseDecimal(s: string): nat
    requires forall k :: 0 <= k < |s| ==> IsDigit(s[k])
  {
    if s == [] then 0 else 10 * ParseDecimal(s[..|s| - 1]) + DigitValue(s[|s| - 1])
  }

  /** Canonical decimal rendering of n (Python's str(n)). */
  function Decimal(n: nat): (r: string)
    ensures IsDigits(r)
    ensures r[0] != '0' || r == "0"
  {
    if n < 10 then [DigitChar(n)] else Decimal(n / 10) + [DigitChar(n % 10)]
  }

  function Zeros(z: nat): (r: string)
    ensures |r| == z && forall k :: 0 <= k < z ==> r[k] == '0'
  {
    if z == 0 then [] else Zeros(z - 1) + ['0']
  }

  /**
   * check_and_convert_int: None when the key is missing, otherwise the value of
   * the stripped text exactly when that text is a non-empty run of digits.
   */
  function CheckAndConvertInt<K(==)>(key: K, data: map<K, string>): (r: Option<nat>)
    ensures key !in data ==> r == None
    ensures key in data ==> (r.Some? <==> IsDigits(Strip(data[key])))
    ensures r.Some? ==> r.value == ParseDecimal(Strip(data[key]))
  {
    if key !in data then None
    else
      var val := Strip(data[key]);
      if !IsDigits(val) then None else Some(ParseDecimal(val))
  }

  /** Parsing the decimal rendering of any n gives back n. */
  lemma {:induction false} ParseDecimalOfDecimal(n: nat)
    ensures ParseDecimal(Decimal(n)) == n
  {
    if n >= 10 {
      ParseDecimalOfDecimal(n / 10);
      var s := Decimal(n);
      assert s[..|s| - 1] == Decimal(n / 10);
    }
  }

  /** A digit string is never worth less than its first digit. */
  lemma {:induction false} ParseDecimalAtLeastFirstDigit(s: string)
    requires IsDigits(s)
    ensures ParseDecimal(s) >= DigitValue(s[0])
  {
    if |s| > 1 {
      ParseDecimalAtLeastFirstDigit(s[..|s| - 1]);
    }
  }

  /** Rendering the value of a canonical digit string (no leading zero) gives the string back. */
  lemma {:induction false} DecimalOfParseDecimal(s: string)
    requires IsDigits(s)
    requires s[0] != '0' || s == "0"
    ensures Decimal(ParseDecimal(s)) == s
  {
    var n := ParseDecimal(s);
    if |s| == 1 {
      assert s[..0] == [];
    } else {
      var init := s[..|s| - 1];
      assert init[0] == s[0];
      ParseDecimalAtLeastFirstDigit(init);
      DecimalOfParseDecimal(init);
      assert n / 10 == ParseDecimal(init);
      assert n % 10 == DigitValue(s[|s| - 1]);
      assert DigitChar(n % 10) == s[|s| - 1];
      assert s == init + [s[|s| - 1]];
    }
  }

  lemma ZerosThenDigits(z: nat, s: string)
    requires forall k :: 0 <= k < |s| ==> IsDigit(s[k])
    ensures forall k :: 0 <= k < z + |s| ==> IsDigit((Zeros(z) + s)[k])
  {
    var t := Zeros(z) + s;
    forall k | 0 <= k < |t| ensures IsDigit(t[k]) {
      if k < z { assert t[k] == '0'; } else { assert t[k] == s[k - z]; }
    }
  }

  /** Leading zeros do not change the value of a digit string. */
  lemma {:induction false} ParseDecimalLeadingZeros(z: nat, s: string)
    requires forall k :: 0 <= k < |s| ==> IsDigit(s[k])
    ensures forall k :: 0 <= k < z + |s| ==> IsDigit((Zeros(z) + s)[k])
    ensures ParseDecimal(Zeros(z) + s) == ParseDecimal(s)
  {
    ZerosThenDigits(z, s);
    var t := Zeros(z) + s;
    if s == [] {
      assert t == Zeros(z);
      if z > 0 {
        ParseDecimalLeadingZeros(z - 1, []);
        assert t[..|t| - 1] == Zeros(z - 1) + [];
      }
    } else {
      var init := s[..|s| - 1];
      ParseDecimalLeadingZeros(z, init);
      assert t[..|t| - 1] == Zeros(z) + init;
      assert t[|t| - 1] == s[|s| - 1];
    }
  }

  /**
   * Round trip through the entry field: whitespace, any number of leading
   * zeros, the decimal form of n and whitespace again is accepted as n.
   */
  lemma CheckAndConvertIntAcceptsPadded<K>(key: K, data: map<K, string>,
                                        pre: string, z: nat, n: nat, post: string)
    requires AllSpace(pre) && AllSpace(post)
    requires key in data && data[key] == pre + Zeros(z) + Decimal(n) + post
    ensures CheckAndConvertInt(key, data) == Some(n)
  {
    var core := Zeros(z) + Decimal(n);
    assert IsDigit(core[0]);
    assert core[|core| - 1] == Decimal(n)[|Decimal(n)| - 1];
    assert pre + Zeros(z) + Decimal(n) + post == pre + core + post;
    StripPadded(pre, core, post);
    ParseDecimalLeadingZeros(z, Decimal(n));
    ParseDecimalOfDecimal(n);
  }

  /** The example from the entry field: " 007 " is read as 7. */
  lemma CheckAndConvertIntExample()
    ensures CheckAndConvertInt("delay1", map["delay1" := " 007 "]) == Some(7)
  {
    assert Zeros(2) == "00";
    assert Decimal(7) == "7";
    assert " 007 " == " " + Zeros(2) + Decimal(7) + " ";
    CheckAndConvertIntAcceptsPadded("delay1", map["delay1" := " 007 "], " ", 2, 7, " ");
  }

  /** Text holding any non-digit, non-blank character is rejected. */
  lemma CheckAndConvertIntRejectsNonDigit<K>(key: K, data: map<K, string>, i: nat)
    requires key in data && i < |data[key]|
    requires !IsDigit(data[key][i]) && !IsSpace(data[key][i])
    ensures CheckAndConvertInt(key, data) == None
  {
    var s := data[key];
    var r := Strip(s);
    var lead := LeadingSpace(s);
    StripMeaning(s);
    assert lead <= i < lead + |r|;
    assert r[i - lead] == s[i];
  }

  /** m occurs in s starting at index i. */
  predicate OccursAt(s: string, m: string, i: int) {
    0 <= i && i + |m| <= |s| && s[i..i + |m|] == m
  }

  /** Python's str.find: the first index where m occurs in s, or -1. */
  function Find(s: string, m: string): (r: int)
    ensures r >= -1 && (r >= 0 ==> OccursAt(s, m, r))
    ensures forall j :: 0 <= j && (r < 0 || j < r) ==> !OccursAt(s, m, j)
    decreases |s|
  {
    if |s| < |m| then -1
    else if s[..|m|] == m then 0
    else
      var k := Find(s[1..], m);
      assert !OccursAt(s, m, 0);
      forall j | 1 <= j
        ensures OccursAt(s, m, j) <==> OccursAt(s[1..], m, j - 1)
      {
        if j + |m| <= |s| {
          assert s[1..][j - 1..j - 1 + |m|] == s[j..j + |m|];
        }
      }
      if k < 0 then -1 else k + 1
  }

  /** A slice of a slice is a slice of the original. */
  lemma SliceOfSlice<T>(t: seq<T>, a: nat, b: nat, c: nat, d: nat)
    requires a <= b <= |t| && c <= d <= b - a
    ensures t[a..b][c..d] == t[a + c..a + d]
  {
    var x, y := t[a..b][c..d], t[a + c..a + d];
    assert |x| == |y|;
    forall k | 0 <= k < |x|
      ensures x[k] == y[k]
    {
      assert x[k] == t[a..b][c + k] == t[a + c + k];
    }
  }

  /** Whatever occurs in the stripped line occurs in the line. */
  lemma OccursInStripped(s: string, m: string, i: int)
    requires OccursAt(Strip(s), m, i)
    ensures OccursAt(s, m, LeadingSpace(s) + i)
  {
    var r := Strip(s);
    var lead := LeadingSpace(s);
    OccursInSlice(s, lead, lead + |r|, m, i);
  }

  /** An occurrence in the slice s[a..b] is an occurrence in s, shifted by a. */
  lemma OccursInSlice(s: string, a: nat, b: nat, m: string, i: int)
    requires a <= b <= |s| && OccursAt(s[a..b], m, i)
    ensures OccursAt(s, m, a + i)
  {
    SliceOfSlice(s, a, b, i, i + |m|);
  }

  /** An occurrence with non-blank ends lies inside the stripped part of the line. */
  lemma OccursInLine(s: string, m: string, i: int)
    requires m != [] && !IsSpace(m[0]) && !IsSpace(m[|m| - 1])
    requires OccursAt(s, m, i)
    ensures OccursAt(Strip(s), m, i - LeadingSpace(s))
  {
    var r := Strip(s);
    var lead := LeadingSpace(s);
    StripMeaning(s);
    assert s[i] == m[0];
    assert !IsSpace(s[i]);
    assert lead <= i;
    assert s[i + |m| - 1] == m[|m| - 1];
    assert !IsSpace(s[i + |m| - 1]);
    assert i + |m| <= lead + |r|;
    OccursWithin(s, lead, lead + |r|, m, i);
  }

  /** An occurrence lying inside s[a..b] is an occurrence in that slice. */
  lemma OccursWithin(s: string, a: nat, b: nat, m: string, j: int)
    requires a <= j && j + |m| <= b <= |s| && OccursAt(s, m, j)
    ensures OccursAt(s[a..b], m, j - a)
  {
    SliceOfSlice(s, a, b, j - a, j - a + |m|);
  }

  /**
   * A text with non-blank ends is found in a stripped line exactly when it is
   * found in the line itself.
   */
  lemma FindIgnoresStrip(s: string, m: string)
    requires m != [] && !IsSpace(m[0]) && !IsSpace(m[|m| - 1])
    ensures Find(Strip(s), m) >= 0 <==> Find(s, m) >= 0
  {
    var r := Strip(s);
    var lead := LeadingSpace(s);
    if Find(r, m) >= 0 {
      OccursInStripped(s, m, Find(r, m));
    }
    if Find(s, m) >= 0 {
      OccursInLine(s, m, Find(s, m));
    }
  }
}

/**
 * Character-level helpers the core relies on from the C++ standard library:
 * decimal and hexadecimal digit strings (std::to_string, std::hex output,
 * std::atoi and stream extraction of unsigned integers), whitespace-delimited
 * words (stream extraction of a std::string), and the lexicographic order of
 * std::string that orders the keys of std::map and std::set.
 */
module Text {

  predicate IsDigit(c: char) { '0' <= c <= '9' }

  predicate AllDigits(s: string) { forall i :: 0 <= i < |s| ==> IsDigit(s[i]) }

  function DigitValue(c: char): (v: nat)
    requires IsDigit(c)
    ensures v < 10
  {
    (c as int) - ('0' as int)
  }

  function DigitChar(k: nat): (c: char)
    requires k < 10
    ensures IsDigit(c) && DigitValue(c) == k
  {
    ('0' as int + k) as char
  }

  /** std::to_string of an unsigned value: its decimal digits, no leading zero. */
  function Decimal(n: nat): (s: string)
    ensures 1 <= |s| && AllDigits(s)
    ensures |s| == 1 <==> n < 10
    decreases n
  {
    if n < 10 then [DigitChar(n)] else Decimal(n / 10) + [DigitChar(n % 10)]
  }

  /** The number a string of decimal digits denotes. */
  function DigitsValue(s: string): nat
    requires AllDigits(s)
  {
    if s == [] then 0 else DigitsValue(s[..|s| - 1]) * 10 + DigitValue(s[|s| - 1])
  }

  lemma {:induction false} DecimalRoundTrip(n: nat)
    ensures DigitsValue(Decimal(n)) == n
    decreases n
  {
    if n >= 10 {
      var s := Decimal(n);
      assert s[..|s| - 1] == Decimal(n / 10);
      DecimalRoundTrip(n / 10);
    }
  }

  lemma {:induction false} DecimalLength(n: nat, k: nat)
    requires 1 <= k
    ensures |Decimal(n)| <= k <==> n < Pow10(k)
    decreases n
  {
    if n >= 10 {
      if k == 1 {
        assert 10 <= Pow10(1);
      } else {
        DecimalLength(n / 10, k - 1);
      }
    } else {
      Pow10AtLeast(k);
    }
  }

  function Pow10(k: nat): (p: nat)
    ensures p >= 1
  {
    if k == 0 then 1 else 10 * Pow10(k - 1)
  }

  lemma {:induction false} Pow10AtLeast(k: nat)
    requires 1 <= k
    ensures Pow10(k) >= 10
  {
    if k > 1 { Pow10AtLeast(k - 1); }
  }

  /** The longest prefix of s made of decimal digits. */
  function LeadingDigits(s: string): (r: string)
    ensures AllDigits(r) && r <= s
    ensures |r| < |s| ==> !IsDigit(s[|r|])
  {
    if s == [] || !IsDigit(s[0]) then [] else [s[0]] + LeadingDigits(s[1..])
  }

  lemma {:induction false} LeadingDigitsOfDigits(s: string, rest: string)
    requires AllDigits(s)
    requires rest == [] || !IsDigit(rest[0])
    ensures LeadingDigits(s + rest) == s
  {
    if s != [] {
      assert (s + rest)[1..] == s[1..] + rest;
      LeadingDigitsOfDigits(s[1..], rest);
    } else {
      assert s + rest == rest;
    }
  }

  /**
   * std::atoi restricted to unsigned digit strings: the value of the leading
   * run of digits, 0 when there is none.
   */
  function Atoi(s: string): nat
  {
    DigitsValue(LeadingDigits(s))
  }

  lemma AtoiOfDigits(s: string)
    requires AllDigits(s)
    ensures Atoi(s) == DigitsValue(s)
  {
    LeadingDigitsOfDigits(s, []);
    assert s + [] == s;
  }

  // ---------------------------------------------------------------------
  // Hexadecimal (std::hex on an output stream writes lower-case digits)
  // ---------------------------------------------------------------------

  predicate IsHexDigit(c: char) { IsDigit(c) || 'a' <= c <= 'f' || 'A' <= c <= 'F' }

  predicate AllHexDigits(s: string) { forall i :: 0 <= i < |s| ==> IsHexDigit(s[i]) }

  function HexDigitValue(c: char): (v: nat)
    requires IsHexDigit(c)
    ensures v < 16
  {
    if IsDigit(c) then DigitValue(c)
    else if 'a' <= c <= 'f' then (c as int) - ('a' as int) + 10
    else (c as int) - ('A' as int) + 10
  }

  function HexDigitChar(k: nat): (c: char)
    requires k < 16
    ensures IsHexDigit(c) && HexDigitValue(c) == k
    ensures !IsSpace(c)
  {
    if k < 10 then DigitChar(k) else ('a' as int + k - 10) as char
  }

  /** An unsigned value written after std::hex: lower-case digits, no leading zero. */
  function Hex(n: nat): (s: string)
    ensures 1 <= |s| && AllHexDigits(s)
    decreases n
  {
    if n < 16 then [HexDigitChar(n)] else Hex(n / 16) + [HexDigitChar(n % 16)]
  }

  function HexValue(s: string): nat
    requires AllHexDigits(s)
  {
    if s == [] then 0 else HexValue(s[..|s| - 1]) * 16 + HexDigitValue(s[|s| - 1])
  }

  function Pow16(k: nat): (p: nat)
    ensures p >= 1
  {
    if k == 0 then 1 else 16 * Pow16(k - 1)
  }

  const TwoTo64: nat := 0x1_0000_0000_0000_0000

  lemma Pow16Is64Bits()
    ensures Pow16(16) == TwoTo64
  {
    assert Pow16(1) == 0x10;
    assert Pow16(2) == 0x100;
    assert Pow16(4) == 0x1_0000;
    assert Pow16(6) == 0x100_0000;
    assert Pow16(8) == 0x1_0000_0000;
    assert Pow16(10) == 0x100_0000_0000;
    assert Pow16(12) == 0x1_0000_0000_0000;
    assert Pow16(14) == 0x100_0000_0000_0000;
  }

  function Zeros(k: nat): (s: string)
    ensures |s| == k && AllHexDigits(s) && AllDigits(s)
    ensures forall i :: 0 <= i < k ==> s[i] == '0'
  {
    if k == 0 then [] else Zeros(k - 1) + ['0']
  }

  /**
   * The 64-bit pattern of a double as the streamer writes it: std::hex with
   * std::setfill('0') and std::setw(16), i.e. Hex(n) left-padded with '0'.
   */
  function Hex16(n: nat): (s: string)
    requires n < TwoTo64
    ensures |s| == 16 && AllHexDigits(s)
  {
    HexLength(n, 16);
    Pow16Is64Bits();
    Zeros(16 - |Hex(n)|) + Hex(n)
  }

  lemma {:induction false} HexLength(n: nat, k: nat)
    requires 1 <= k
    ensures |Hex(n)| <= k <==> n < Pow16(k)
    decreases n
  {
    if n >= 16 {
      if k == 1 {
        assert 16 <= Pow16(1);
      } else {
        HexLength(n / 16, k - 1);
      }
    } else {
      Pow16AtLeast(k);
    }
  }

  lemma {:induction false} Pow16AtLeast(k: nat)
    requires 1 <= k
    ensures Pow16(k) >= 16
  {
    if k > 1 { Pow16AtLeast(k - 1); }
  }

  lemma {:induction false} HexRoundTrip(n: nat)
    ensures HexValue(Hex(n)) == n
    decreases n
  {
    if n >= 16 {
      var s := Hex(n);
      assert s[..|s| - 1] == Hex(n / 16);
      HexRoundTrip(n / 16);
    }
  }

  lemma {:induction false} LeadingZerosIgnored(k: nat, s: string)
    requires AllHexDigits(s)
    ensures HexValue(Zeros(k) + s) == HexValue(s)
    decreases |s|
  {
    if s == [] {
      assert Zeros(k) + s == Zeros(k);
      ZerosValue(k);
    } else {
      var t := Zeros(k) + s;
      assert t[..|t| - 1] == Zeros(k) + s[..|s| - 1];
      LeadingZerosIgnored(k, s[..|s| - 1]);
    }
  }

  lemma {:induction false} ZerosValue(k: nat)
    ensures HexValue(Zeros(k)) == 0
  {
    if k > 0 {
      assert Zeros(k)[..k - 1] == Zeros(k - 1);
      ZerosValue(k - 1);
    }
  }

  /** Reading back the 16-digit pattern yields the identical 64-bit value. */
  lemma Hex16RoundTrip(n: nat)
    requires n < TwoTo64
    ensures HexValue(Hex16(n)) == n
  {
    HexLength(n, 16);
    Pow16Is64Bits();
    LeadingZerosIgnored(16 - |Hex(n)|, Hex(n));
    HexRoundTrip(n);
  }

  /** The longest prefix of s made of hexadecimal digits. */
  function LeadingHexDigits(s: string): (r: string)
    ensures AllHexDigits(r)
  {
    if s == [] || !IsHexDigit(s[0]) then [] else [s[0]] + LeadingHexDigits(s[1..])
  }

  lemma {:induction false} LeadingHexDigitsOfHex(s: string)
    requires AllHexDigits(s)
    ensures LeadingHexDigits(s) == s
  {
    if s != [] { LeadingHexDigitsOfHex(s[1..]); }
  }

  // ---------------------------------------------------------------------
  // Whitespace-delimited words (operator>> into a std::string)
  // ---------------------------------------------------------------------

  predicate IsSpace(c: char) { c == ' ' || c == '\t' || c == '\n' || c == '\r' || c as int == 11 || c as int == 12 }

  predicate NoSpace(s: string) { forall i :: 0 <= i < |s| ==> !IsSpace(s[i]) }

  function SkipSpaces(s: string): (r: string)
    ensures r == [] || !IsSpace(r[0])
  {
    if s != [] && IsSpace(s[0]) then SkipSpaces(s[1..]) else s
  }

  function TakeWord(s: string): (r: string)
    ensures NoSpace(r)
  {
    if s == [] || IsSpace(s[0]) then [] else [s[0]] + TakeWord(s[1..])
  }

  /** The word extracted from s: leading whitespace skipped, up to the next whitespace. */
  function FirstWord(s: string): (w: string)
    ensures NoSpace(w)
  {
    TakeWord(SkipSpaces(s))
  }

  lemma {:induction false} FirstWordOfWord(s: string)
    requires NoSpace(s)
    ensures FirstWord(s) == s
  {
    TakeWordOfWord(s);
  }

  lemma {:induction false} TakeWordOfWord(s: string)
    requires NoSpace(s)
    ensures TakeWord(s) == s
  {
    if s != [] { TakeWordOfWord(s[1..]); }
  }

  lemma DigitsHaveNoSpace(s: string)
    requires AllDigits(s)
    ensures NoSpace(s)
  {
  }

  lemma HexDigitsHaveNoSpace(s: string)
    requires AllHexDigits(s)
    ensures NoSpace(s)
  {
  }

  // ---------------------------------------------------------------------
  // std::string ordering (std::map and std::set iterate keys this way)
  // ---------------------------------------------------------------------

  /** Lexicographic order by character code, a proper prefix first. */
  predicate LexLess(a: string, b: string)
  {
    if a == [] then b != []
    else if b == [] then false
    else if a[0] != b[0] then a[0] < b[0]
    else LexLess(a[1..], b[1..])
  }

  lemma {:induction false} LexLessIrreflexive(a: string)
    ensures !LexLess(a, a)
  {
    if a != [] { LexLessIrreflexive(a[1..]); }
  }

  lemma {:induction false} LexLessTransitive(a: string, b: string, c: string)
    requires LexLess(a, b) && LexLess(b, c)
    ensures LexLess(a, c)
  {
    if a != [] && b != [] && c != [] && a[0] == b[0] && b[0] == c[0] {
      LexLessTransitive(a[1..], b[1..], c[1..]);
    }
  }

  lemma {:induction false} LexLessTotal(a: string, b: string)
    requires a != b
    ensures LexLess(a, b) || LexLess(b, a)
  {
    if a != [] && b != [] && a[0] == b[0] {
      assert a == [a[0]] + a[1..] && b == [b[0]] + b[1..];
      LexLessTotal(a[1..], b[1..]);
    }
  }

  lemma LexLessAsymmetric(a: string, b: string)
    requires LexLess(a, b)
    ensures !LexLess(b, a)
  {
    if LexLess(b, a) {
      LexLessTransitive(a, b, a);
      LexLessIrreflexive(a);
    }
  }

  /** Strictly ascending, hence free of duplicates. */
  predicate StrictlySorted(s: seq<string>)
  {
    forall i, j :: 0 <= i < j < |s| ==> LexLess(s[i], s[j])
  }

  predicate IsLeast(m: string, s: set<string>)
  {
    m in s && forall x :: x in s && x != m ==> LexLess(m, x)
  }

  lemma {:induction false} LeastExists(s: set<string>)
    requires s != {}
    ensures exists m :: IsLeast(m, s)
    decreases |s|
  {
    var x :| x in s;
    var rest := s - {x};
    if rest == {} {
      assert s == {x};
      assert IsLeast(x, s);
    } else {
      LeastExists(rest);
      var m :| IsLeast(m, rest);
      if LexLess(x, m) {
        forall y | y in s && y != x
          ensures LexLess(x, y)
        {
          if y != m { LexLessTransitive(x, m, y); }
        }
        assert IsLeast(x, s);
      } else {
        LexLessTotal(x, m);
        assert IsLeast(m, s);
      }
    }
  }

  /** The elements of a std::set<std::string> in iteration (ascending) order. */
  method SortedElements(s: set<string>) returns (r: seq<string>)
    ensures StrictlySorted(r)
    ensures forall x :: x in r <==> x in s
    ensures |r| == |s|
  {
    r := [];
    var rest := s;
    while rest != {}
      invariant StrictlySorted(r)
      invariant forall x :: x in s <==> x in r || x in rest
      invariant forall x :: x in r ==> x !in rest
      invariant forall i, x :: 0 <= i < |r| && x in rest ==> LexLess(r[i], x)
      invariant |r| + |rest| == |s|
      decreases |rest|
    {
      LeastExists(rest);
      var m :| IsLeast(m, rest);
      r := r + [m];
      rest := rest - {m};
    }
  }
}

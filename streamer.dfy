/**
 * The text file format of a saved portfolio: my_ofstream writes values as
 * tokens ended by ';' and each trade as one line; my_ifstream reads a line
 * into a string stream and splits it into tokens again.  Doubles travel as
 * the sixteen hexadecimal digits of their 64-bit pattern (the reinterpretation
 * of the bits is not modelled: a double is its pattern, a nat below 2^64),
 * unsigned integers as decimal text, dates as YYYYMMDD.
 */
module Streamer {
  import opened Wrappers
  import opened Text
  import opened Calendar
  import opened Dates

  /** The token separator of the format. */
  const Separator: char := ';'

  /** The largest value of uint64_t / size_t; a longer number saturates to it. */
  const MaxUnsigned: nat := TwoTo64 - 1

  datatype StreamError =
    | SubstrOutOfRange(pos: nat, size: nat)
    | InvalidDate(error: DateError)
    | UnknownTradeType(id: nat)

  // ---------------------------------------------------------------------
  // Writing
  // ---------------------------------------------------------------------

  /** An unsigned integer as operator<< prints it under the stream's basefield. */
  function UnsignedText(n: nat, hex: bool): (s: string)
    ensures 1 <= |s| && AllHexDigits(s)
  {
    if hex then Hex(n) else Decimal(n)
  }

  /** The 64-bit pattern of a double. */
  type Bits = n: nat | n < TwoTo64

  /** One double: setw(16), fill '0', hex digits, then the separator. */
  function DoubleToken(bits: Bits): (s: string)
    ensures |s| == 17 && s[16] == Separator
  {
    Hex16(bits) + [Separator]
  }

  function DoubleTokens(v: seq<Bits>): string
  {
    if v == [] then "" else DoubleToken(v[0]) + DoubleTokens(v[1..])
  }

  /** A vector of doubles: its size under the current basefield, then each element. */
  function EncodeDoubles(v: seq<Bits>, hex: bool): string
  {
    UnsignedText(|v|, hex) + [Separator] + DoubleTokens(v)
  }

  /**
   * my_ofstream: the text written so far, and whether std::hex is set on
   * the underlying file stream (a sticky format flag).
   */
  class OutStream {
    var text: string
    var hex: bool

    /** A freshly opened file: empty, decimal basefield. */
    constructor ()
      ensures text == "" && !hex
    {
      text := "";
      hex := false;
    }

    /** endl(): a newline. */
    method EndLine()
      modifies this
      ensures text == old(text) + "\n" && hex == old(hex)
    {
      text := text + "\n";
    }

    /** The generic operator<< on a string: the text, then the separator. */
    method WriteString(s: string)
      modifies this
      ensures text == old(text) + s + [Separator] && hex == old(hex)
    {
      text := text + s + [Separator];
    }

    /** The generic operator<< on an unsigned integer: printed under the current basefield. */
    method WriteUnsigned(n: nat)
      modifies this
      ensures text == old(text) + UnsignedText(n, old(hex)) + [Separator] && hex == old(hex)
    {
      text := text + UnsignedText(n, hex) + [Separator];
    }

    /** operator<< on a double as written: sets std::hex and leaves it set. */
    method WriteDoubleAsWritten(bits: Bits)
      modifies this
      ensures text == old(text) + DoubleToken(bits) && hex
    {
      text := text + DoubleToken(bits);
      hex := true;
    }

    /** operator<< on a double, restoring the stream's format flags afterwards. */
    method WriteDouble(bits: Bits)
      modifies this
      ensures text == old(text) + DoubleToken(bits) && hex == old(hex)
    {
      text := text + DoubleToken(bits);
    }

    /** operator<< on a Date: to_string(false), then the separator. */
    method WriteDate(d: Date)
      requires d.Valid()
      modifies this
      ensures text == old(text) + Compact(CivilOf(d.serial)) + [Separator] && hex == old(hex)
    {
      var s := d.ToString(false);
      WriteString(s);
    }

    /** operator<< on a vector of doubles, with the double writer as written. */
    method WriteDoublesAsWritten(v: seq<Bits>)
      modifies this
      ensures text == old(text) + EncodeDoubles(v, old(hex))
      ensures hex <==> old(hex) || |v| > 0
    {
      WriteUnsigned(|v|);
      ghost var header := text;
      for i := 0 to |v|
        invariant text == header + DoubleTokens(v[..i])
        invariant hex <==> old(hex) || i > 0
      {
        WriteDoubleAsWritten(v[i]);
        AppendToken(header, v, i);
      }
      assert v[..|v|] == v;
      Encoded(old(text), v, old(hex));
    }

    /** operator<< on a vector of doubles, with the corrected double writer. */
    method WriteDoubles(v: seq<Bits>)
      modifies this
      ensures text == old(text) + EncodeDoubles(v, old(hex)) && hex == old(hex)
    {
      WriteUnsigned(|v|);
      ghost var header := text;
      for i := 0 to |v|
        invariant text == header + DoubleTokens(v[..i])
        invariant hex == old(hex)
      {
        WriteDouble(v[i]);
        AppendToken(header, v, i);
      }
      assert v[..|v|] == v;
      Encoded(old(text), v, old(hex));
    }
  }

  /** Writing the next element extends the text by its token. */
  lemma AppendToken(header: string, v: seq<Bits>, i: nat)
    requires i < |v|
    ensures header + DoubleTokens(v[..i]) + DoubleToken(v[i]) == header + DoubleTokens(v[..i + 1])
  {
    DoubleTokensSnoc(v[..i], v[i]);
    assert v[..i + 1] == v[..i] + [v[i]];
  }

  /** The size, the separator and the element tokens, written in turn, make up the vector's encoding. */
  lemma Encoded(before: string, v: seq<Bits>, hex: bool)
    ensures before + UnsignedText(|v|, hex) + [Separator] + DoubleTokens(v) == before + EncodeDoubles(v, hex)
  {
    Regroup(before, UnsignedText(|v|, hex), [Separator], DoubleTokens(v));
  }

  lemma Regroup(a: string, b: string, c: string, d: string)
    ensures a + b + c + d == a + (b + c + d)
  {
  }

  lemma {:induction false} DoubleTokensSnoc(v: seq<Bits>, b: Bits)
    ensures DoubleTokens(v + [b]) == DoubleTokens(v) + DoubleToken(b)
  {
    if v == [] {
      assert [b][1..] == [];
    } else {
      assert (v + [b])[1..] == v[1..] + [b];
      DoubleTokensSnoc(v[1..], b);
    }
  }

  // ---------------------------------------------------------------------
  // Reading: lines, tokens and the values in them
  // ---------------------------------------------------------------------

  /** std::find on a string: the first index holding c, or |s|. */
  function Find(s: string, c: char): (k: nat)
    ensures k <= |s|
    ensures forall i :: 0 <= i < k ==> s[i] != c
    ensures k < |s| ==> s[k] == c
  {
    if s == [] || s[0] == c then 0 else 1 + Find(s[1..], c)
  }

  lemma FindAfter(a: string, c: char, b: string)
    requires c !in a
    ensures Find(a + [c] + b, c) == |a|
  {
    var s := a + [c] + b;
    assert s[|a|] == c;
    assert forall i :: 0 <= i < |a| ==> s[i] == a[i];
  }

  /** The state of the line's string stream: the unread text and good(). */
  datatype Cursor = Cursor(rest: string, good: bool)

  /** The result of std::getline on the file stream. */
  datatype LineRead = LineRead(line: string, file: string, good: bool)

  /**
   * std::getline(m_if, m_line): when the stream is not good the sentry fails
   * and m_line keeps its old text; otherwise m_line receives the characters
   * up to the next '\n', which is consumed.  Reaching the end of the file
   * clears good().
   */
  function GetLine(file: string, good: bool, line: string): (r: LineRead)
  {
    if !good then LineRead(line, file, false)
    else if file == [] then LineRead("", [], false)
    else
      var k := Find(file, '\n');
      if k < |file| then LineRead(file[..k], file[k + 1..], true)
      else LineRead(file, [], false)
  }

  /**
   * A failed sentry changes nothing but good(); otherwise the line holds no
   * newline and is followed by one unless the file ended.
   */
  lemma GetLineSplits(file: string, good: bool, line: string)
    ensures var r := GetLine(file, good, line);
            && (!good ==> r == LineRead(line, file, false))
            && (good && file == [] ==> r == LineRead("", [], false))
            && (good ==> '\n' !in r.line)
            && (good && r.good ==> file == r.line + "\n" + r.file)
            && (good && !r.good ==> file == r.line && r.file == [])
  {
    if good && file != [] {
      var k := Find(file, '\n');
      if k < |file| {
        assert file == file[..k] + "\n" + file[k + 1..];
      } else {
        assert file[..k] == file;
      }
    }
  }

  /**
   * std::getline(m_line_stream, tmp, separator) into a fresh string: the
   * characters up to the next separator, which is consumed; nothing when the
   * stream is not good or has nothing left.
   */
  function GetToken(c: Cursor): (r: (string, Cursor))
  {
    if !c.good || c.rest == [] then ("", Cursor(c.rest, false))
    else
      var k := Find(c.rest, Separator);
      if k < |c.rest| then (c.rest[..k], Cursor(c.rest[k + 1..], true))
      else (c.rest, Cursor([], false))
  }

  /**
   * A token never holds the separator; a good stream that stays good gives
   * token, separator and what remains; one that does not gives its last token.
   */
  lemma GetTokenSplits(c: Cursor)
    ensures var r := GetToken(c);
            && Separator !in r.0
            && (!c.good || c.rest == [] ==> r == ("", Cursor(c.rest, false)))
            && (c.good && r.1.good ==> c.rest == r.0 + [Separator] + r.1.rest)
            && (c.good && !r.1.good ==> c.rest == r.0 && r.1.rest == [])
  {
    if c.good && c.rest != [] {
      var k := Find(c.rest, Separator);
      if k < |c.rest| {
        assert c.rest == c.rest[..k] + [Separator] + c.rest[k + 1..];
      } else {
        assert c.rest[..k] == c.rest;
      }
    }
  }

  /** A token written by my_ofstream is read back whole, and the stream stays good. */
  lemma TokenRoundTrip(tok: string, more: string)
    requires Separator !in tok
    ensures GetToken(Cursor(tok + [Separator] + more, true)) == (tok, Cursor(more, true))
  {
    var s := tok + [Separator] + more;
    FindAfter(tok, Separator, more);
    assert s[..|tok|] == tok;
    assert s[|tok| + 1..] == more;
  }

  /** istream >> unsigned in decimal: leading blanks, then digits; 0 when there are none; saturating. */
  function ParseUnsigned(token: string): (n: nat)
    ensures n <= MaxUnsigned
    ensures LeadingDigits(SkipSpaces(token)) == [] ==> n == 0
  {
    var v := Atoi(SkipSpaces(token));
    if v > MaxUnsigned then MaxUnsigned else v
  }

  /** istringstream(token) >> string: the first blank-delimited word, empty when there is none. */
  function ParseWord(token: string): (w: string)
    ensures NoSpace(w)
  {
    FirstWord(token)
  }

  /** operator>> on a double: the word's leading hexadecimal digits as a 64-bit pattern. */
  function ParseDoubleBits(token: string): (bits: Bits)
    ensures LeadingHexDigits(ParseWord(token)) == [] ==> bits == 0
  {
    var v := HexValue(LeadingHexDigits(ParseWord(token)));
    if v > MaxUnsigned then MaxUnsigned else v
  }

  /**
   * operator>> on a Date: substr(0, 4), substr(4, 2) and substr(6, 2) of the
   * word, each through atoi, then Date::init; substr throws out_of_range when
   * its position is past the end.
   */
  function ParseDate(token: string): (r: Result<Ymd, StreamError>)
    ensures |ParseWord(token)| < 6 <==> r.Failure? && r.error.SubstrOutOfRange?
    ensures r.Success? ==> Valid(r.value)
  {
    var tmp := ParseWord(token);
    if |tmp| < 4 then Failure(SubstrOutOfRange(4, |tmp|))
    else if |tmp| < 6 then Failure(SubstrOutOfRange(6, |tmp|))
    else
      var y := Atoi(tmp[..4]);
      var m := Atoi(tmp[4..6]);
      var d := Atoi(tmp[6..Min(8, |tmp|)]);
      var outcome := CheckValidYmd(y, m, d);
      if outcome.Fail? then Failure(InvalidDate(outcome.error)) else Success(Ymd(y, m, d))
  }

  function Min(a: nat, b: nat): nat
  {
    if a <= b then a else b
  }

  /** The next n tokens of the line, and the string stream after them. */
  function ReadTokens(c: Cursor, n: nat): (r: (seq<string>, Cursor))
    ensures |r.0| == n
    decreases n
  {
    if n == 0 then ([], c)
    else
      var token := GetToken(c);
      var tail := ReadTokens(token.1, n - 1);
      ([token.0] + tail.0, tail.1)
  }

  /** ReadTokens unfolded once: the first token, then the rest. */
  lemma ReadTokensUnfold(c: Cursor, m: nat)
    requires m > 0
    ensures var tail := ReadTokens(GetToken(c).1, m - 1);
            ReadTokens(c, m) == ([GetToken(c).0] + tail.0, tail.1)
  {
  }

  /** Each token read as a double. */
  function ParseAll(tokens: seq<string>): (v: seq<Bits>)
    ensures |v| == |tokens|
  {
    if tokens == [] then [] else [ParseDoubleBits(tokens[0])] + ParseAll(tokens[1..])
  }

  /** The j-th double of the parsed tokens is the j-th token read as a double. */
  lemma {:induction false} ParseAllAt(tokens: seq<string>, j: nat)
    requires j < |tokens|
    ensures ParseAll(tokens)[j] == ParseDoubleBits(tokens[j])
  {
    if j > 0 {
      ParseAllAt(tokens[1..], j - 1);
      assert tokens[1..][j - 1] == tokens[j];
    }
  }

  /**
   * When the next m tokens are the suffix of a token list from position i,
   * the next token is the i-th and the m - 1 after it are the suffix from i + 1.
   */
  lemma NextToken(c: Cursor, m: nat, tokens: seq<string>, i: nat, last: Cursor)
    requires m > 0 && i < |tokens|
    requires ReadTokens(c, m) == (tokens[i..], last)
    ensures GetToken(c).0 == tokens[i]
    ensures ReadTokens(GetToken(c).1, m - 1) == (tokens[i + 1..], last)
  {
    ReadTokensUnfold(c, m);
    assert tokens[i..][1..] == tokens[i + 1..];
  }

  /** operator>> on a vector of doubles: the size (always read in decimal), then that many doubles. */
  function DecodeDoubles(c: Cursor): (r: (seq<Bits>, Cursor))
    ensures |r.0| == ParseUnsigned(GetToken(c).0)
  {
    var size := GetToken(c);
    var elements := ReadTokens(size.1, ParseUnsigned(size.0));
    (ParseAll(elements.0), elements.1)
  }

  // ---------------------------------------------------------------------
  // Round trips: what my_ofstream writes, my_ifstream reads back
  // ---------------------------------------------------------------------

  /** A size written in decimal parses back to itself. */
  lemma UnsignedRoundTrip(n: nat)
    requires n <= MaxUnsigned
    ensures ParseUnsigned(Decimal(n)) == n
  {
    var s := Decimal(n);
    assert SkipSpaces(s) == s;
    AtoiOfDigits(s);
    DecimalRoundTrip(n);
  }

  /** A double written as sixteen hex digits parses back to its bit pattern. */
  lemma DoubleRoundTrip(bits: Bits)
    ensures ParseDoubleBits(Hex16(bits)) == bits
  {
    var s := Hex16(bits);
    HexDigitsHaveNoSpace(s);
    FirstWordOfWord(s);
    LeadingHexDigitsOfHex(s);
    Hex16RoundTrip(bits);
  }

  /** A valid date written by to_string(false) parses back to the same date. */
  lemma DateRoundTrip(date: Ymd)
    requires Valid(date)
    ensures ParseDate(Compact(date)) == Success(date)
  {
    var c := Compact(date);
    CompactLayout(date);
    DigitsHaveNoSpace(c);
    FirstWordOfWord(c);
    AtoiOfDigits(c[..4]);
    AtoiOfDigits(c[4..6]);
    AtoiOfDigits(c[6..8]);
  }

  /** The sixteen-digit words of a vector's doubles. */
  function HexWords(v: seq<Bits>): (w: seq<string>)
    ensures |w| == |v|
  {
    if v == [] then [] else [Hex16(v[0])] + HexWords(v[1..])
  }

  lemma {:induction false} ReadTokensRoundTrip(v: seq<Bits>, more: string)
    ensures ReadTokens(Cursor(DoubleTokens(v) + more, true), |v|) == (HexWords(v), Cursor(more, true))
  {
    if v == [] {
      assert DoubleTokens(v) + more == more;
    } else {
      var hex := Hex16(v[0]);
      HexDigitsHaveNoSpace(hex);
      assert Separator !in hex;
      var tail := DoubleTokens(v[1..]) + more;
      assert DoubleTokens(v) + more == hex + [Separator] + tail;
      TokenRoundTrip(hex, tail);
      ReadTokensRoundTrip(v[1..], more);
      ReadTokensUnfold(Cursor(DoubleTokens(v) + more, true), |v|);
    }
  }

  lemma {:induction false} ParseHexWords(v: seq<Bits>)
    ensures ParseAll(HexWords(v)) == v
  {
    if v != [] {
      var w := HexWords(v);
      assert w[0] == Hex16(v[0]) && w[1..] == HexWords(v[1..]);
      DoubleRoundTrip(v[0]);
      ParseHexWords(v[1..]);
      assert ParseAll(w) == [v[0]] + v[1..];
    }
  }

  /** A vector written on a decimal stream reads back whole, leaving what follows it unread. */
  lemma DoublesRoundTrip(v: seq<Bits>, more: string)
    requires |v| <= MaxUnsigned
    ensures DecodeDoubles(Cursor(EncodeDoubles(v, false) + more, true)) == (v, Cursor(more, true))
  {
    var size := Decimal(|v|);
    DigitsHaveNoSpace(size);
    assert Separator !in size;
    assert EncodeDoubles(v, false) + more == size + [Separator] + (DoubleTokens(v) + more);
    TokenRoundTrip(size, DoubleTokens(v) + more);
    UnsignedRoundTrip(|v|);
    ReadTokensRoundTrip(v, more);
    ParseHexWords(v);
  }

  /**
   * An unsigned value from 10 to 15 written after std::hex is one letter,
   * which reads back as 0.
   */
  lemma StickyHexChangesSmallValues(n: nat)
    requires 10 <= n < 16
    ensures ParseUnsigned(UnsignedText(n, true)) == 0
  {
    var s := UnsignedText(n, true);
    assert s == [HexDigitChar(n)];
    assert SkipSpaces(s) == s;
    assert LeadingDigits(s) == [];
  }

  /** The first ten natural numbers print alike in both bases. */
  lemma SmallSizesSurviveHex(n: nat)
    requires n < 10
    ensures UnsignedText(n, true) == UnsignedText(n, false)
  {
  }

  /**
   * With std::hex left set by an earlier double, a vector of ten doubles
   * is written with size "a", which reads back as size 0: the vector comes
   * back empty and its ten elements are left unread.
   */
  lemma StickyHexBreaksVectorSize()
    ensures var v: seq<Bits> := seq(10, _ => 0);
            DecodeDoubles(Cursor(EncodeDoubles(v, true), true)).0 == []
  {
    var v: seq<Bits> := seq(10, _ => 0);
    assert Hex(10) == "a";
    var (tok, c1) := GetToken(Cursor(EncodeDoubles(v, true), true));
    TokenRoundTrip("a", DoubleTokens(v));
    assert EncodeDoubles(v, true) == "a" + [Separator] + DoubleTokens(v);
    assert tok == "a";
    assert SkipSpaces("a") == "a";
    assert LeadingDigits("a") == [];
  }

  /**
   * my_ifstream: the unread part of the file and its good(), the current
   * line m_line, and the line's string stream.
   */
  class InStream {
    var file: string
    var fileGood: bool
    var line: string
    var lineRest: string
    var lineGood: bool

    /** Opening a file: nothing read yet. */
    constructor (contents: string)
      ensures file == contents && fileGood
      ensures line == "" && lineRest == "" && lineGood
    {
      file := contents;
      fileGood := true;
      line := "";
      lineRest := "";
      lineGood := true;
    }

    /**
     * read_line as written: getline, then reset the string stream's text to
     * m_line (str() leaves the string stream's state flags as they were), and
     * report whether m_line is non-empty.
     */
    method ReadLine() returns (more: bool)
      modifies this
      ensures GetLine(old(file), old(fileGood), old(line)) == LineRead(line, file, fileGood)
      ensures lineRest == line && lineGood == old(lineGood)
      ensures more <==> |line| > 0
    {
      var r := GetLine(file, fileGood, line);
      line, file, fileGood := r.line, r.file, r.good;
      lineRest := line;
      more := |line| > 0;
    }

    /** read_line, also reporting false when getline itself fails. */
    method ReadLineChecked() returns (more: bool)
      modifies this
      ensures GetLine(old(file), old(fileGood), old(line)) == LineRead(line, file, fileGood)
      ensures lineRest == line && lineGood == old(lineGood)
      ensures more <==> LineReadSucceeds(old(file), old(fileGood))
    {
      var extracted := fileGood && file != [];
      var r := GetLine(file, fileGood, line);
      line, file, fileGood := r.line, r.file, r.good;
      lineRest := line;
      more := extracted && |line| > 0;
    }

    /** read_token. */
    method ReadToken() returns (tok: string)
      modifies this`lineRest, this`lineGood
      ensures (tok, Cursor(lineRest, lineGood)) == GetToken(Cursor(old(lineRest), old(lineGood)))
    {
      var r := GetToken(Cursor(lineRest, lineGood));
      tok, lineRest, lineGood := r.0, r.1.rest, r.1.good;
    }

    /** The generic operator>> on an unsigned integer. */
    method ReadUnsigned() returns (n: nat)
      modifies this`lineRest, this`lineGood
      ensures var r := GetToken(Cursor(old(lineRest), old(lineGood)));
              n == ParseUnsigned(r.0) && Cursor(lineRest, lineGood) == r.1
    {
      var tok := ReadToken();
      n := ParseUnsigned(tok);
    }

    /** The generic operator>> on a string. */
    method ReadWord() returns (w: string)
      modifies this`lineRest, this`lineGood
      ensures var r := GetToken(Cursor(old(lineRest), old(lineGood)));
              w == ParseWord(r.0) && Cursor(lineRest, lineGood) == r.1
    {
      var tok := ReadToken();
      w := ParseWord(tok);
    }

    /** operator>> on a double, as its 64-bit pattern. */
    method ReadDoubleBits() returns (bits: Bits)
      modifies this`lineRest, this`lineGood
      ensures var r := GetToken(Cursor(old(lineRest), old(lineGood)));
              bits == ParseDoubleBits(r.0) && Cursor(lineRest, lineGood) == r.1
    {
      var tok := ReadToken();
      bits := ParseDoubleBits(tok);
    }

    /** operator>> on a vector of doubles: resize to the size read, then read each element. */
    method ReadDoubles() returns (v: seq<Bits>)
      modifies this`lineRest, this`lineGood
      ensures (v, Cursor(lineRest, lineGood)) == DecodeDoubles(Cursor(old(lineRest), old(lineGood)))
    {
      var sz := ReadUnsigned();
      v := seq(sz, _ => 0);
      v := ReadElements(v);
    }

    /** The loop of operator>> on a vector: each element of the resized vector in turn is read. */
    method ReadElements(resized: seq<Bits>) returns (v: seq<Bits>)
      modifies this`lineRest, this`lineGood
      ensures var r := ReadTokens(Cursor(old(lineRest), old(lineGood)), |resized|);
              v == ParseAll(r.0) && Cursor(lineRest, lineGood) == r.1
    {
      v := resized;
      var n := |v|;
      ghost var expected := ReadTokens(Cursor(lineRest, lineGood), n);
      ghost var parsed := ParseAll(expected.0);
      for i := 0 to n
        invariant |v| == n
        invariant forall j :: 0 <= j < i ==> v[j] == parsed[j]
        invariant ReadTokens(Cursor(lineRest, lineGood), n - i) == (expected.0[i..], expected.1)
      {
        ghost var before := Cursor(lineRest, lineGood);
        var b := ReadDoubleBits();
        NextToken(before, n - i, expected.0, i, expected.1);
        ParseAllAt(expected.0, i);
        v := v[i := b];
      }
      assert v == parsed;
    }

    /** operator>> on a Date: v.init(y, m, d), which leaves v unchanged when it throws. */
    method ReadDate(v: Date) returns (outcome: Outcome<StreamError>)
      modifies this`lineRest, this`lineGood, v
      ensures var r := GetToken(Cursor(old(lineRest), old(lineGood)));
              Cursor(lineRest, lineGood) == r.1
              && (outcome.Fail? <==> ParseDate(r.0).Failure?)
              && (outcome.Fail? ==> outcome.error == ParseDate(r.0).error && v.serial == old(v.serial))
              && (outcome.Pass? ==> v.Valid() && CivilOf(v.serial) == ParseDate(r.0).value)
    {
      var tok := ReadToken();
      var tmp := ParseWord(tok);
      if |tmp| < 4 {
        return Fail(SubstrOutOfRange(4, |tmp|));
      }
      if |tmp| < 6 {
        return Fail(SubstrOutOfRange(6, |tmp|));
      }
      var y := Atoi(tmp[..4]);
      var m := Atoi(tmp[4..6]);
      var d := Atoi(tmp[6..Min(8, |tmp|)]);
      var init := v.InitYmd(y, m, d);
      if init.Fail? {
        return Fail(InvalidDate(init.error));
      }
      return Pass;
    }
  }

  /** getline on the file extracts something: the stream was good and the file not exhausted. */
  predicate LineReadSucceeds(file: string, good: bool)
  {
    good && file != [] && |GetLine(file, good, "").line| > 0
  }

  /**
   * read_line as written on a last line without a trailing newline: after
   * reading it the file stream is no longer good, the next getline fails and
   * leaves m_line as it was, so read_line reports true again on an unchanged
   * state and `while (is.read_line())` hands the last line to load_trade
   * again instead of stopping.
   */
  lemma ReadLineRepeatsLastLine(last: string, old_line: string)
    requires last != [] && '\n' !in last
    ensures var r1 := GetLine(last, true, old_line);
            r1 == LineRead(last, [], false)
            && GetLine(r1.file, r1.good, r1.line) == r1
            && |r1.line| > 0
  {
  }

  /** The checked read_line reports true only while it consumes input, so a reading loop ends. */
  lemma ReadLineCheckedConsumes(file: string, good: bool, line: string)
    ensures LineReadSucceeds(file, good) ==> |GetLine(file, good, line).file| < |file|
    ensures !good ==> !LineReadSucceeds(file, good)
  {
    if good && file != [] {
      var r := GetLine(file, good, line);
      assert r == GetLine(file, good, "");
    }
  }
}

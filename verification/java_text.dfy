/** The small part of `java.lang.String`, `java.lang.Character`,
    `java.lang.Integer` and `java.io.BufferedReader` that the documentation
    tool relies on, stated over Dafny strings (`seq<char>`). */
module JavaText {
  import opened Results

  const IntMax: int := 0x7FFF_FFFF

  // ---------------------------------------------------------------------
  // Characters

  /** `Character.isWhitespace`: the ASCII controls TAB..CR and FS..US, the
      space, and the Unicode space/line/paragraph separators except the
      non-breaking ones (U+00A0, U+2007, U+202F). */
  predicate IsWhitespace(c: char) {
    var n := c as int;
    || 0x09 <= n <= 0x0D
    || 0x1C <= n <= 0x20
    || n == 0x1680
    || 0x2000 <= n <= 0x2006
    || 0x2008 <= n <= 0x200A
    || n == 0x2028 || n == 0x2029 || n == 0x205F || n == 0x3000
  }

  /** `String.trim` removes every character whose code is at most U+0020. */
  predicate IsTrimmable(c: char) {
    c as int <= 0x20
  }

  predicate IsDigit(c: char) {
    '0' <= c <= '9'
  }

  predicate AllDigits(s: string) {
    forall i :: 0 <= i < |s| ==> IsDigit(s[i])
  }

  /** `Character.toUpperCase`, exact on ASCII and on the two non-ASCII
      letters whose upper case is an ASCII letter (dotless i, long s). */
  function ToUpper(c: char): char {
    if 'a' <= c <= 'z' then (c as int - 32) as char
    else if c == '\U{0131}' then 'I'
    else if c == '\U{017F}' then 'S'
    else c
  }

  /** `Character.toLowerCase`, exact on ASCII and on the two non-ASCII
      letters whose lower case is an ASCII letter (capital I with dot above,
      Kelvin sign). */
  function ToLower(c: char): char {
    if 'A' <= c <= 'Z' then (c as int + 32) as char
    else if c == '\U{0130}' then 'i'
    else if c == '\U{212A}' then 'k'
    else c
  }

  /** The per-character test of `String.equalsIgnoreCase`. */
  predicate CharEqualsIgnoreCase(a: char, b: char) {
    || a == b
    || ToUpper(a) == ToUpper(b)
    || ToLower(ToUpper(a)) == ToLower(ToUpper(b))
  }

  predicate EqualsIgnoreCase(a: string, b: string) {
    |a| == |b| && forall i :: 0 <= i < |a| ==> CharEqualsIgnoreCase(a[i], b[i])
  }

  // ---------------------------------------------------------------------
  // Strings

  predicate StartsWith(s: string, prefix: string) {
    |prefix| <= |s| && s[..|prefix|] == prefix
  }

  /** Leading half of `String.trim`. */
  function TrimStart(s: string): (r: string)
    ensures |r| <= |s|
  {
    if |s| > 0 && IsTrimmable(s[0]) then TrimStart(s[1..]) else s
  }

  /** Trailing half of `String.trim`. */
  function TrimEnd(s: string): (r: string)
    ensures |r| <= |s|
  {
    if |s| > 0 && IsTrimmable(s[|s| - 1]) then TrimEnd(s[..|s| - 1]) else s
  }

  /** Leading trimming yields the longest suffix that does not start with a
      trimmable character. */
  lemma {:induction false} TrimStartShape(s: string)
    ensures TrimStart(s) == s[|s| - |TrimStart(s)|..]
    ensures forall i :: 0 <= i < |s| - |TrimStart(s)| ==> IsTrimmable(s[i])
    ensures |TrimStart(s)| > 0 ==> !IsTrimmable(TrimStart(s)[0])
  {
    if |s| > 0 && IsTrimmable(s[0]) {
      TrimStartShape(s[1..]);
    }
  }

  /** Trailing trimming yields the longest prefix that does not end with a
      trimmable character. */
  lemma {:induction false} TrimEndShape(s: string)
    ensures TrimEnd(s) == s[..|TrimEnd(s)|]
    ensures forall i :: |TrimEnd(s)| <= i < |s| ==> IsTrimmable(s[i])
    ensures |TrimEnd(s)| > 0 ==> !IsTrimmable(TrimEnd(s)[|TrimEnd(s)| - 1])
  {
    if |s| > 0 && IsTrimmable(s[|s| - 1]) {
      TrimEndShape(s[..|s| - 1]);
    }
  }

  function Trim(s: string): string {
    TrimEnd(TrimStart(s))
  }

  /** A line that `trim()` reduces to the empty string. */
  predicate IsBlank(s: string) {
    Trim(s) == ""
  }

  /** A line is blank exactly when all of its characters are trimmable. */
  lemma BlankIffAllTrimmable(s: string)
    ensures IsBlank(s) <==> forall i :: 0 <= i < |s| ==> IsTrimmable(s[i])
  {
    var t := TrimStart(s);
    TrimStartShape(s);
    TrimEndShape(t);
    assert |t| > 0 ==> t[0] == s[|s| - |t|];
    assert |TrimEnd(t)| > 0 ==> TrimEnd(t)[0] == t[0];
  }

  /** Trailing trimming keeps a prefix made of non-trimmable characters. */
  lemma {:induction false} TrimEndKeepsPrefix(t: string, prefix: string)
    requires forall i :: 0 <= i < |prefix| ==> !IsTrimmable(prefix[i])
    requires StartsWith(t, prefix)
    ensures StartsWith(TrimEnd(t), prefix)
  {
    if |t| > 0 && IsTrimmable(t[|t| - 1]) {
      assert |t| != |prefix| by {
        assert |prefix| > 0 ==> t[|prefix| - 1] == prefix[|prefix| - 1];
      }
      var t' := t[..|t| - 1];
      assert t'[..|prefix|] == t[..|prefix|];
      TrimEndKeepsPrefix(t', prefix);
    }
  }

  /** Trailing trimming never uncovers a prefix: the trimmed text starts
      with a non-trimmable `prefix` exactly when the text with only its
      leading part trimmed does. */
  lemma TrimStartsWith(s: string, prefix: string)
    requires forall i :: 0 <= i < |prefix| ==> !IsTrimmable(prefix[i])
    ensures StartsWith(Trim(s), prefix) <==> StartsWith(TrimStart(s), prefix)
  {
    var t := TrimStart(s);
    var u := TrimEnd(t);
    if StartsWith(t, prefix) {
      TrimEndKeepsPrefix(t, prefix);
    }
    if StartsWith(u, prefix) {
      TrimEndShape(t);
      assert u[..|prefix|] == t[..|prefix|];
    }
  }

  // ---------------------------------------------------------------------
  // Decimal integers (`Integer.toString`, `Integer.parseInt`)

  function DigitChar(d: nat): (c: char)
    requires d < 10
    ensures IsDigit(c) && DigitValue(c) == d
  {
    ('0' as int + d) as char
  }

  function DigitValue(c: char): nat
    requires IsDigit(c)
  {
    c as int - '0' as int
  }

  /** Decimal text of a natural number, most significant digit first. */
  function NatToDecimal(n: nat): (r: string)
    ensures |r| >= 1 && AllDigits(r)
    ensures |r| > 1 ==> r[0] != '0'
  {
    if n < 10 then [DigitChar(n)] else NatToDecimal(n / 10) + [DigitChar(n % 10)]
  }

  /** `Integer.toString`: a minus sign before the digits of a negative value. */
  function IntToString(i: int): string {
    if i < 0 then "-" + NatToDecimal(-i) else NatToDecimal(i)
  }

  function DecimalValue(s: string): nat
    requires AllDigits(s)
  {
    if |s| == 0 then 0 else DecimalValue(s[..|s| - 1]) * 10 + DigitValue(s[|s| - 1])
  }

  lemma {:induction false} DecimalRoundTrip(n: nat)
    ensures DecimalValue(NatToDecimal(n)) == n
  {
    if n >= 10 {
      var r := NatToDecimal(n);
      assert r[..|r| - 1] == NatToDecimal(n / 10);
      DecimalRoundTrip(n / 10);
    }
  }

  datatype NumberFormatError = NumberFormatError(text: string)

  /** `Integer.parseInt` on unsigned ASCII decimal text: empty text, a
      non-digit, or a value above 2^31-1 is a `NumberFormatException`. */
  function ParseInt(s: string): (r: Result<int, NumberFormatError>)
    ensures r.Success? <==> |s| > 0 && AllDigits(s) && DecimalValue(s) <= IntMax
    ensures r.Success? ==> 0 <= r.value <= IntMax
  {
    if |s| > 0 && AllDigits(s) && DecimalValue(s) <= IntMax then Success(DecimalValue(s))
    else Failure(NumberFormatError(s))
  }

  /** Printing a non-negative `int` and parsing it back yields the value. */
  lemma ParseIntToString(n: int)
    requires 0 <= n <= IntMax
    ensures ParseInt(IntToString(n)) == Success(n)
  {
    DecimalRoundTrip(n);
  }

  // ---------------------------------------------------------------------
  // Lines (`BufferedReader.readLine`, `String.join`)

  predicate IsTerminator(c: char) {
    c == '\n' || c == '\r'
  }

  predicate NoTerminator(s: string) {
    forall i :: 0 <= i < |s| ==> !IsTerminator(s[i])
  }

  /** Index of the first line terminator, or `|s|` when there is none. */
  function TerminatorIndex(s: string): (i: nat)
    ensures i <= |s|
    ensures NoTerminator(s[..i])
    ensures i < |s| ==> IsTerminator(s[i])
  {
    if |s| == 0 || IsTerminator(s[0]) then 0 else 1 + TerminatorIndex(s[1..])
  }

  /** One call of `BufferedReader.readLine` on non-empty text: the line up to
      the first `\n`, `\r` or `\r\n` (the terminator is not part of the
      line), and the text after that terminator. */
  function NextLine(s: string): (r: (string, string))
    requires |s| > 0
    ensures NoTerminator(r.0)
    ensures |r.1| < |s|
  {
    var i := TerminatorIndex(s);
    if i == |s| then (s, "")
    else if s[i] == '\r' && i + 1 < |s| && s[i + 1] == '\n' then (s[..i], s[i + 2..])
    else (s[..i], s[i + 1..])
  }

  /** The lines `BufferedReader.readLine` returns for `s`: a final line
      without a terminator is returned when it is non-empty, and empty text
      has no lines. */
  function ReadLines(s: string): (lines: seq<string>)
    ensures forall k :: 0 <= k < |lines| ==> NoTerminator(lines[k])
    ensures |s| == 0 <==> |lines| == 0
    decreases |s|
  {
    if |s| == 0 then []
    else
      var (line, rest) := NextLine(s);
      [line] + ReadLines(rest)
  }

  /** `String.join(sep, lines)`. */
  function Join(lines: seq<string>, sep: string): string {
    if |lines| == 0 then ""
    else if |lines| == 1 then lines[0]
    else lines[0] + sep + Join(lines[1..], sep)
  }

  lemma {:induction false} TerminatorIndexOfClean(s: string, rest: string)
    requires NoTerminator(s)
    requires |rest| == 0 || IsTerminator(rest[0])
    ensures TerminatorIndex(s + rest) == |s|
  {
    if |s| > 0 {
      assert (s + rest)[1..] == s[1..] + rest;
      TerminatorIndexOfClean(s[1..], rest);
    }
  }

  /** The line separators `System.lineSeparator()` can be: `\n`, `\r\n`,
      or `\r`. */
  predicate IsLineSeparator(sep: string) {
    sep == "\n" || sep == "\r\n" || sep == "\r"
  }

  /** Reading a terminator-free line followed by a separator yields that
      line and leaves what follows, provided what follows does not start with
      a `\n` that would pair with a `\r` separator. */
  lemma ReadLinesStep(line: string, sep: string, rest: string)
    requires NoTerminator(line) && IsLineSeparator(sep)
    requires |rest| > 0 && (rest[0] == '\n' ==> sep == "\n")
    ensures NextLine(line + (sep + rest)) == (line, rest)
  {
    var s := line + (sep + rest);
    TerminatorIndexOfClean(line, sep + rest);
    var h := |line|;
    assert s[..h] == line;
    assert s[h + |sep|..] == rest;
  }

  /** Joining terminator-free lines with a line separator and reading them
      back returns the same lines, provided the last line is not empty (an
      empty last line leaves no trace for `readLine` to report). */
  lemma {:induction false} ReadLinesOfJoin(lines: seq<string>, sep: string)
    requires forall k :: 0 <= k < |lines| ==> NoTerminator(lines[k])
    requires |lines| > 0 && |lines[|lines| - 1]| > 0
    requires IsLineSeparator(sep)
    ensures ReadLines(Join(lines, sep)) == lines
  {
    if |lines| == 1 {
      TerminatorIndexOfClean(lines[0], "");
      assert lines[0] + "" == lines[0];
    } else {
      var first, tail := lines[0], lines[1..];
      var rest := Join(tail, sep);
      JoinCons(lines, sep);
      JoinStartsWithLine(tail, sep);
      ReadLinesStep(first, sep, rest);
      ReadLinesOfJoin(tail, sep);
      assert lines == [first] + tail;
    }
  }

  lemma JoinCons(lines: seq<string>, sep: string)
    requires |lines| > 1
    ensures Join(lines, sep) == lines[0] + (sep + Join(lines[1..], sep))
  {
  }

  /** A join of lines starts with a terminator only when its first line is
      empty, and then with the separator's first character; in particular it
      never starts with `\n` when the separator does not. */
  lemma JoinStartsWithLine(lines: seq<string>, sep: string)
    requires |lines| > 0 && forall k :: 0 <= k < |lines| ==> NoTerminator(lines[k])
    requires IsLineSeparator(sep)
    ensures |Join(lines, sep)| > 0 && Join(lines, sep)[0] == '\n' ==> sep == "\n"
  {
    if |lines| > 1 && |lines[0]| == 0 {
      assert Join(lines, sep) == lines[0] + sep + Join(lines[1..], sep);
      assert Join(lines, sep)[0] == sep[0];
    } else if |lines[0]| > 0 {
      assert Join(lines, sep)[0] == lines[0][0];
    }
  }
}

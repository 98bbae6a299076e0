/**
 * The parts of Rust's string library the device selection relies on:
 * `str::trim`, `str::split` on a character, `join` on a list of strings,
 * `str::parse::<u16>` and `u16::to_string`. Strings are sequences of
 * Unicode scalar values.
 */
module RustStr {
  import opened Primitives

  // ---------------------------------------------------------------------
  // Whitespace and trimming
  // ---------------------------------------------------------------------

  /** `char::is_whitespace`: the Unicode White_Space property. */
  predicate IsWhitespace(c: char)
  {
    var n := c as int;
    || 0x09 <= n <= 0x0D
    || n == 0x20
    || n == 0x85
    || n == 0xA0
    || n == 0x1680
    || 0x2000 <= n <= 0x200A
    || n == 0x2028
    || n == 0x2029
    || n == 0x202F
    || n == 0x205F
    || n == 0x3000
  }

  predicate AllWhitespace(s: string)
  {
    forall i | 0 <= i < |s| :: IsWhitespace(s[i])
  }

  /** `str::trim_start`: s without its leading whitespace. */
  function TrimStart(s: string): string
  {
    if s != [] && IsWhitespace(s[0]) then TrimStart(s[1..]) else s
  }

  /** `str::trim_end`: s without its trailing whitespace. */
  function TrimEnd(s: string): string
  {
    if s != [] && IsWhitespace(s[|s| - 1]) then TrimEnd(s[..|s| - 1]) else s
  }

  /** `str::trim`: s without its leading and trailing whitespace. */
  function Trim(s: string): string
  {
    TrimEnd(TrimStart(s))
  }

  /**
   * `trim_start` keeps the longest suffix of s that does not start with
   * whitespace; everything cut off is whitespace.
   */
  lemma {:induction false} TrimStartSpec(s: string)
    ensures var r := TrimStart(s);
            && |r| <= |s| && r == s[|s| - |r|..]
            && AllWhitespace(s[..|s| - |r|])
            && (r != [] ==> !IsWhitespace(r[0]))
    decreases |s|
  {
    if s != [] && IsWhitespace(s[0]) {
      TrimStartSpec(s[1..]);
      var r := TrimStart(s[1..]);
      assert s[..|s| - |r|] == [s[0]] + s[1..][..|s| - 1 - |r|];
    }
  }

  /**
   * `trim_end` keeps the longest prefix of s that does not end with
   * whitespace; everything cut off is whitespace.
   */
  lemma {:induction false} TrimEndSpec(s: string)
    ensures var r := TrimEnd(s);
            && |r| <= |s| && r == s[..|r|]
            && AllWhitespace(s[|r|..])
            && (r != [] ==> !IsWhitespace(r[|r| - 1]))
    decreases |s|
  {
    if s != [] && IsWhitespace(s[|s| - 1]) {
      TrimEndSpec(s[..|s| - 1]);
      var r := TrimEnd(s[..|s| - 1]);
      assert s[|r|..] == s[..|s| - 1][|r|..] + [s[|s| - 1]];
    }
  }

  /**
   * `trim` keeps the part of s between its leading and its trailing
   * whitespace; that part neither starts nor ends with whitespace.
   */
  lemma TrimSpec(s: string)
    ensures var r, k := Trim(s), |s| - |TrimStart(s)|;
            && 0 <= k <= k + |r| <= |s| && r == s[k..k + |r|]
            && AllWhitespace(s[..k]) && AllWhitespace(s[k + |r|..])
            && (r != [] ==> !IsWhitespace(r[0]) && !IsWhitespace(r[|r| - 1]))
  {
    var t := TrimStart(s);
    TrimStartSpec(s);
    TrimEndSpec(t);
    var r, k := Trim(s), |s| - |t|;
    assert s[k + |r|..] == t[|r|..];
  }

  /** Leading whitespace makes no difference to `trim_start`. */
  lemma {:induction false} TrimStartSkipsPadding(ws: string, s: string)
    requires AllWhitespace(ws)
    ensures TrimStart(ws + s) == TrimStart(s)
    decreases |ws|
  {
    if ws == [] {
      assert ws + s == s;
    } else {
      assert (ws + s)[0] == ws[0];
      assert (ws + s)[1..] == ws[1..] + s;
      TrimStartSkipsPadding(ws[1..], s);
    }
  }

  /** Trailing whitespace makes no difference to `trim_end`. */
  lemma {:induction false} TrimEndSkipsPadding(s: string, ws: string)
    requires AllWhitespace(ws)
    ensures TrimEnd(s + ws) == TrimEnd(s)
    decreases |ws|
  {
    if ws == [] {
      assert s + ws == s;
    } else {
      var init := ws[..|ws| - 1];
      assert (s + ws)[|s + ws| - 1] == ws[|ws| - 1];
      assert (s + ws)[..|s + ws| - 1] == s + init;
      TrimEndSkipsPadding(s, init);
    }
  }

  /** Trimming the start of a string with trailing whitespace, then its end, ignores that whitespace. */
  lemma {:induction false} TrimIgnoresTrailing(s: string, ws: string)
    requires AllWhitespace(ws)
    ensures TrimEnd(TrimStart(s + ws)) == TrimEnd(TrimStart(s))
    decreases |s|
  {
    if s == [] {
      assert s + ws == ws;
      TrimStartSpec(ws);
      assert TrimStart(ws) == [];
    } else if IsWhitespace(s[0]) {
      assert (s + ws)[0] == s[0];
      assert (s + ws)[1..] == s[1..] + ws;
      TrimIgnoresTrailing(s[1..], ws);
    } else {
      assert (s + ws)[0] == s[0];
      TrimEndSkipsPadding(s, ws);
    }
  }

  /** `trim` ignores whitespace added on either side. */
  lemma TrimIgnoresPadding(ws1: string, s: string, ws2: string)
    requires AllWhitespace(ws1) && AllWhitespace(ws2)
    ensures Trim(ws1 + s + ws2) == Trim(s)
  {
    assert ws1 + s + ws2 == ws1 + (s + ws2);
    TrimStartSkipsPadding(ws1, s + ws2);
    TrimIgnoresTrailing(s, ws2);
  }

  /** A string that neither starts nor ends with whitespace is its own trim. */
  lemma TrimOfUnpadded(s: string)
    requires s != [] ==> !IsWhitespace(s[0]) && !IsWhitespace(s[|s| - 1])
    ensures Trim(s) == s
  {
  }

  /** Trimming twice is trimming once. */
  lemma TrimIdempotent(s: string)
    ensures Trim(Trim(s)) == Trim(s)
  {
    TrimSpec(s);
    TrimOfUnpadded(Trim(s));
  }

  // ---------------------------------------------------------------------
  // Splitting and joining
  // ---------------------------------------------------------------------

  /**
   * `s.split(sep)` collected into a list: the pieces between occurrences of
   * sep. There is always at least one piece (the empty string splits into
   * one empty piece), and no piece contains sep.
   */
  function Split(s: string, sep: char): (parts: seq<string>)
    ensures |parts| >= 1 && |parts[0]| <= |s|
    ensures forall k | 0 <= k < |parts| :: sep !in parts[k]
  {
    if s == [] then
      [[]]
    else
      var rest := Split(s[1..], sep);
      if s[0] == sep then [[]] + rest
      else [[s[0]] + rest[0]] + rest[1..]
  }

  /** `parts.join(sep)`: the parts with sep between neighbours; nothing for no parts. */
  function Join(parts: seq<string>, sep: string): string
  {
    if |parts| == 0 then []
    else if |parts| == 1 then parts[0]
    else parts[0] + sep + Join(parts[1..], sep)
  }

  /** Reference definition: s with every occurrence of c replaced by r. */
  function Replace(s: string, c: char, r: string): string
  {
    if s == [] then []
    else (if s[0] == c then r else [s[0]]) + Replace(s[1..], c, r)
  }

  /** A character put in front of the first part comes first in the join. */
  lemma JoinCons(x: char, p: string, ps: seq<string>, sep: string)
    ensures Join([[x] + p] + ps, sep) == [x] + Join([p] + ps, sep)
  {
    assert ([[x] + p] + ps)[1..] == ps == ([p] + ps)[1..];
  }

  /** Joining the pieces of a split with sep replaces each separator by sep. */
  lemma {:induction false} JoinOfSplit(s: string, c: char, sep: string)
    ensures Join(Split(s, c), sep) == Replace(s, c, sep)
    decreases |s|
  {
    if s != [] {
      var rest := Split(s[1..], c);
      JoinOfSplit(s[1..], c, sep);
      if s[0] == c {
        assert ([[]] + rest)[1..] == rest;
      } else {
        JoinCons(s[0], rest[0], rest[1..], sep);
        assert [rest[0]] + rest[1..] == rest;
      }
    }
  }

  /** Replacing c by itself changes nothing. */
  lemma {:induction false} ReplaceBySelf(s: string, c: char)
    ensures Replace(s, c, [c]) == s
    decreases |s|
  {
    if s != [] {
      ReplaceBySelf(s[1..], c);
      assert [s[0]] + s[1..] == s;
    }
  }

  /** Joining the pieces of a split with the separator gives back the string. */
  lemma SplitThenJoin(s: string, c: char)
    ensures Join(Split(s, c), [c]) == s
  {
    JoinOfSplit(s, c, [c]);
    ReplaceBySelf(s, c);
  }

  /** A piece without the separator, followed by the separator and more text, splits off first. */
  lemma {:induction false} SplitAfterPiece(p: string, c: char, t: string)
    requires c !in p
    ensures Split(p + [c] + t, c) == [p] + Split(t, c)
    decreases |p|
  {
    if p == [] {
      assert p + [c] + t == [c] + t;
      assert ([c] + t)[1..] == t;
    } else {
      assert (p + [c] + t)[0] == p[0];
      assert (p + [c] + t)[1..] == p[1..] + [c] + t;
      SplitAfterPiece(p[1..], c, t);
      assert [p[0]] + p[1..] == p;
    }
  }

  /** A string without the separator is a single piece. */
  lemma {:induction false} SplitWithoutSeparator(p: string, c: char)
    requires c !in p
    ensures Split(p, c) == [p]
    decreases |p|
  {
    if p != [] {
      SplitWithoutSeparator(p[1..], c);
      assert [p[0]] + p[1..] == p;
    }
  }

  /** Splitting the join of separator-free pieces gives back the pieces. */
  lemma {:induction false} JoinThenSplit(parts: seq<string>, c: char)
    requires |parts| >= 1
    requires forall k | 0 <= k < |parts| :: c !in parts[k]
    ensures Split(Join(parts, [c]), c) == parts
    decreases |parts|
  {
    if |parts| == 1 {
      SplitWithoutSeparator(parts[0], c);
    } else {
      JoinThenSplit(parts[1..], c);
      SplitAfterPiece(parts[0], c, Join(parts[1..], [c]));
      assert [parts[0]] + parts[1..] == parts;
    }
  }

  /**
   * The first piece of a split is the text before the first separator; when
   * a separator follows it, the other pieces are the split of what comes after.
   */
  lemma {:induction false} SplitFirst(s: string, c: char)
    ensures var parts := Split(s, c);
            && parts[0] == s[..|parts[0]|]
            && (|parts[0]| == |s| ==> |parts| == 1)
            && (|parts[0]| < |s| ==> s[|parts[0]|] == c && parts[1..] == Split(s[|parts[0]| + 1..], c))
    decreases |s|
  {
    if s != [] && s[0] != c {
      SplitFirst(s[1..], c);
      var rest := Split(s[1..], c);
      if |rest[0]| < |s| - 1 {
        assert s[1..][|rest[0]| + 1..] == s[|rest[0]| + 2..];
      }
    } else if s != [] {
      assert ([[]] + Split(s[1..], c))[1..] == Split(s[1..], c);
    }
  }

  // ---------------------------------------------------------------------
  // u16 numbers as text
  // ---------------------------------------------------------------------

  predicate IsDigit(c: char)
  {
    '0' <= c <= '9'
  }

  function DigitValue(c: char): nat
    requires IsDigit(c)
  {
    c as int - '0' as int
  }

  function DigitChar(d: nat): (c: char)
    requires d < 10
    ensures IsDigit(c) && DigitValue(c) == d
  {
    ('0' as int + d) as char
  }

  predicate AllDigits(s: string)
  {
    forall i | 0 <= i < |s| :: IsDigit(s[i])
  }

  /** The number a string of decimal digits denotes, most significant digit first. */
  function DigitsValue(s: string): nat
    requires AllDigits(s)
  {
    if s == [] then 0 else DigitsValue(s[..|s| - 1]) * 10 + DigitValue(s[|s| - 1])
  }

  /**
   * `str::parse::<u16>`: an optional `+` sign followed by at least one ASCII
   * digit, denoting a value below 65536; anything else (empty text, a lone
   * sign, a `-`, any other character, overflow) is None.
   */
  function ParseU16(s: string): (r: Option<u16>)
    ensures r.Some? ==> s != [] && (var digits := if s[0] == '+' then s[1..] else s;
                                     digits != [] && AllDigits(digits) && DigitsValue(digits) == r.value)
    ensures var digits := if s != [] && s[0] == '+' then s[1..] else s;
            (digits != [] && AllDigits(digits) && DigitsValue(digits) < 0x1_0000) ==> r == Some(DigitsValue(digits))
  {
    var digits := if s != [] && s[0] == '+' then s[1..] else s;
    if digits != [] && AllDigits(digits) && DigitsValue(digits) < 0x1_0000 then Some(DigitsValue(digits))
    else None
  }

  /** `to_string` of a number: its decimal digits, without leading zeros. */
  function DecimalString(n: nat): (s: string)
    ensures s != [] && AllDigits(s)
    ensures |s| > 1 ==> s[0] != '0'
  {
    if n < 10 then [DigitChar(n)] else DecimalString(n / 10) + [DigitChar(n % 10)]
  }

  /** The decimal digits of n denote n. */
  lemma {:induction false} DecimalStringValue(n: nat)
    ensures DigitsValue(DecimalString(n)) == n
    decreases n
  {
    if n >= 10 {
      var s := DecimalString(n);
      assert s[..|s| - 1] == DecimalString(n / 10);
      DecimalStringValue(n / 10);
    }
  }

  /** Parsing the text of a u16 gives the number back. */
  lemma ParseShownNumber(n: u16)
    ensures ParseU16(DecimalString(n)) == Some(n)
  {
    DecimalStringValue(n);
  }

  /** Leading zeros and a `+` sign do not change the number parsed: "+007" is 7. */
  lemma ParseIgnoresSignAndZeros(zeros: string, n: u16)
    requires forall i | 0 <= i < |zeros| :: zeros[i] == '0'
    ensures ParseU16(zeros + DecimalString(n)) == Some(n)
    ensures ParseU16("+" + zeros + DecimalString(n)) == Some(n)
  {
    var text := DecimalString(n);
    LeadingZerosValue(zeros, text);
    DecimalStringValue(n);
    ParseDigits(zeros + text);
    assert "+" + zeros + text == "+" + (zeros + text);
  }

  /** A non-empty digit string below 65536 parses to its value, with or without a `+` in front. */
  lemma ParseDigits(digits: string)
    requires digits != [] && AllDigits(digits) && DigitsValue(digits) < 0x1_0000
    ensures ParseU16(digits) == Some(DigitsValue(digits))
    ensures ParseU16("+" + digits) == Some(DigitsValue(digits))
  {
    assert IsDigit(digits[0]);
    assert ("+" + digits)[1..] == digits;
  }

  /** Zeros in front of a digit string do not change its value. */
  lemma {:induction false} LeadingZerosValue(zeros: string, s: string)
    requires forall i | 0 <= i < |zeros| :: zeros[i] == '0'
    requires AllDigits(s)
    ensures AllDigits(zeros + s) && DigitsValue(zeros + s) == DigitsValue(s)
    decreases |s|
  {
    assert AllDigits(zeros + s) by {
      forall i | 0 <= i < |zeros + s| ensures IsDigit((zeros + s)[i]) {
        if i < |zeros| { assert (zeros + s)[i] == zeros[i]; }
        else { assert (zeros + s)[i] == s[i - |zeros|]; }
      }
    }
    if s == [] {
      AllZerosValue(zeros);
      assert zeros + s == zeros;
    } else {
      var init := s[..|s| - 1];
      LeadingZerosValue(zeros, init);
      assert (zeros + s)[..|zeros + s| - 1] == zeros + init;
    }
  }

  /** A string of zeros denotes 0. */
  lemma {:induction false} AllZerosValue(zeros: string)
    requires forall i | 0 <= i < |zeros| :: zeros[i] == '0'
    ensures AllDigits(zeros) && DigitsValue(zeros) == 0
    decreases |zeros|
  {
    if zeros != [] {
      AllZerosValue(zeros[..|zeros| - 1]);
    }
  }

  /** The text of a number has no whitespace to trim. */
  lemma DecimalStringTrimmed(n: nat)
    ensures Trim(DecimalString(n)) == DecimalString(n)
  {
    var s := DecimalString(n);
    assert IsDigit(s[0]) && IsDigit(s[|s| - 1]);
    TrimOfUnpadded(s);
  }
}

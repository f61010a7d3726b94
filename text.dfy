/**
 * The .NET string primitives the PDB reader and writer are built from, stated over
 * seq<char>: Substring (which throws when the range leaves the string), Trim,
 * IsNullOrWhiteSpace, a prefix test, Split on one character, ToUpper, int.Parse,
 * int.ToString and the space padding of composite format alignment.
 */
module Text {
  import opened Wrappers

  /** Char.IsWhiteSpace, restricted to the Latin-1 range. */
  predicate IsWhite(c: char) {
    c == ' ' || '\t' <= c <= '\r' || c == '\U{85}' || c == '\U{A0}'
  }

  /** The white space that int.Parse skips around a number (NumberStyles.Integer). */
  predicate IsNumberWhite(c: char) {
    c == ' ' || '\t' <= c <= '\r'
  }

  predicate IsDigit(c: char) {
    '0' <= c <= '9'
  }

  lemma DigitNotWhite(c: char)
    requires IsDigit(c)
    ensures !IsWhite(c) && !IsNumberWhite(c)
  {
  }

  predicate AllDigits(s: string) {
    forall i :: 0 <= i < |s| ==> IsDigit(s[i])
  }

  /** string.IsNullOrWhiteSpace (strings of the model are never null). */
  predicate AllWhite(s: string) {
    forall i :: 0 <= i < |s| ==> IsWhite(s[i])
  }

  function Spaces(n: nat): (r: string)
    ensures |r| == n && forall i :: 0 <= i < n ==> r[i] == ' '
  {
    seq(n, _ => ' ')
  }

  /** s.Substring(start, length); None where .NET throws ArgumentOutOfRangeException. */
  function Substring(s: string, start: nat, length: nat): (r: Option<string>)
    ensures r.Some? <==> start + length <= |s|
    ensures r.Some? ==> |r.value| == length && forall i :: 0 <= i < length ==> r.value[i] == s[start + i]
  {
    if start + length <= |s| then Some(s[start..start + length]) else None
  }

  /** s.Substring(0, Math.Min(n, s.Length)). */
  function Take(s: string, n: nat): (r: string)
    ensures |r| == if n < |s| then n else |s|
    ensures r == s[..|r|]
  {
    if n < |s| then s[..n] else s
  }

  /** The prefix test the reader classifies records with. */
  predicate StartsWith(s: string, prefix: string) {
    |prefix| <= |s| && s[..|prefix|] == prefix
  }

  /** Drops the leading characters satisfying `white`. */
  function StripStart(s: string, white: char -> bool): string
  {
    if s != [] && white(s[0]) then StripStart(s[1..], white) else s
  }

  /** StripStart removes a prefix of `white` characters and stops at the first other one. */
  lemma {:induction false} StripStartProps(s: string, white: char -> bool)
    ensures var r := StripStart(s, white);
            |r| <= |s| && r == s[|s| - |r|..] &&
            (forall i :: 0 <= i < |s| - |r| ==> white(s[i])) &&
            (r == [] || !white(r[0]))
  {
    if s != [] && white(s[0]) {
      var t := s[1..];
      StripStartProps(t, white);
      var r := StripStart(t, white);
      assert StripStart(s, white) == r;
      assert t[|t| - |r|..] == s[|s| - |r|..];
      forall i | 0 <= i < |s| - |r|
        ensures white(s[i])
      {
        if i > 0 {
          assert s[i] == t[i - 1];
        }
      }
    }
  }

  /** Drops the trailing characters satisfying `white`. */
  function StripEnd(s: string, white: char -> bool): string
  {
    if s != [] && white(s[|s| - 1]) then StripEnd(s[..|s| - 1], white) else s
  }

  /** StripEnd removes a suffix of `white` characters and stops at the last other one. */
  lemma {:induction false} StripEndProps(s: string, white: char -> bool)
    ensures var r := StripEnd(s, white);
            |r| <= |s| && r == s[..|r|] &&
            (forall i :: |r| <= i < |s| ==> white(s[i])) &&
            (r == [] || !white(r[|r| - 1]))
  {
    if s != [] && white(s[|s| - 1]) {
      var t := s[..|s| - 1];
      StripEndProps(t, white);
      var r := StripEnd(t, white);
      assert StripEnd(s, white) == r;
      assert t[..|r|] == s[..|r|];
      forall i | |r| <= i < |s|
        ensures white(s[i])
      {
        if i < |s| - 1 {
          assert s[i] == t[i];
        }
      }
    }
  }

  /** string.Trim(). */
  function Trim(s: string): (r: string)
    ensures |r| <= |s|
    ensures r == [] || (!IsWhite(r[0]) && !IsWhite(r[|r| - 1]))
    ensures r == [] <==> AllWhite(s)
  {
    var t := StripStart(s, IsWhite);
    StripStartProps(s, IsWhite);
    StripEndProps(t, IsWhite);
    assert AllWhite(s) ==> t == [];
    assert t[..|StripEnd(t, IsWhite)|] == StripEnd(t, IsWhite);
    StripEnd(t, IsWhite)
  }

  /** Trim removes white space at both ends and nothing else: the result is a slice of s between white space. */
  lemma TrimSpan(s: string)
    ensures var r := Trim(s);
      exists i :: 0 <= i <= |s| - |r| && r == s[i..i + |r|] && AllWhite(s[..i]) && AllWhite(s[i + |r|..])
  {
    var t := StripStart(s, IsWhite);
    StripStartProps(s, IsWhite);
    StripEndProps(t, IsWhite);
    var r := StripEnd(t, IsWhite);
    var i := |s| - |t|;
    assert Trim(s) == r;
    assert r == s[i..i + |r|];
    assert AllWhite(s[..i]);
    assert s[i + |r|..] == t[|r|..];
    assert AllWhite(s[i + |r|..]);
  }

  /** Stripping a left padding of spaces leaves what was padded. */
  lemma {:induction false} StripStartPadded(t: string, before: nat, white: char -> bool)
    requires white(' ')
    requires t == [] || !white(t[0])
    ensures StripStart(Spaces(before) + t, white) == t
  {
    if before > 0 {
      var full := Spaces(before) + t;
      assert full[1..] == Spaces(before - 1) + t;
      StripStartPadded(t, before - 1, white);
    } else {
      assert Spaces(before) + t == t;
    }
  }

  /** Stripping a right padding of spaces leaves what was padded. */
  lemma {:induction false} StripEndPadded(t: string, after: nat, white: char -> bool)
    requires white(' ')
    requires t == [] || !white(t[|t| - 1])
    ensures StripEnd(t + Spaces(after), white) == t
  {
    if after > 0 {
      var full := t + Spaces(after);
      assert full[..|full| - 1] == t + Spaces(after - 1);
      StripEndPadded(t, after - 1, white);
    } else {
      assert t + Spaces(after) == t;
    }
  }

  /** Trim removes exactly the blanks a field was padded with. */
  lemma TrimPadded(s: string, before: nat, after: nat)
    requires s == [] || (!IsWhite(s[0]) && !IsWhite(s[|s| - 1]))
    ensures Trim(Spaces(before) + s + Spaces(after)) == s
  {
    var full := Spaces(before) + s + Spaces(after);
    if s == [] {
      assert AllWhite(full);
    } else {
      assert full == Spaces(before) + (s + Spaces(after));
      StripStartPadded(s + Spaces(after), before, IsWhite);
      StripEndPadded(s, after, IsWhite);
    }
  }

  /** Composite format alignment {i,w}: right-aligned, padded with spaces, never truncated. */
  function PadLeft(s: string, width: nat): (r: string)
    ensures |r| == if |s| < width then width else |s|
    ensures r == Spaces(|r| - |s|) + s
  {
    if |s| < width then Spaces(width - |s|) + s else s
  }

  /** A text narrower than its field is the padding, the text, and nothing after it. */
  lemma PadLeftExact(s: string, width: nat)
    requires |s| <= width
    ensures PadLeft(s, width) == Spaces(width - |s|) + s + Spaces(0)
  {
    assert Spaces(width - |s|) + s + Spaces(0) == Spaces(width - |s|) + s;
  }

  /** One more blank in front widens the padding by one column. */
  lemma PadLeftWider(s: string, width: nat)
    requires |s| <= width
    ensures " " + PadLeft(s, width) == PadLeft(s, width + 1)
  {
    SpacesCons(width - |s|);
    assert " " + (Spaces(width - |s|) + s) == (" " + Spaces(width - |s|)) + s;
  }

  /** A blank in front of n blanks. */
  lemma SpacesCons(n: nat)
    ensures " " + Spaces(n) == Spaces(n + 1)
  {
  }

  /** Left padding keeps the last character in last place. */
  lemma PadLeftLast(s: string, width: nat)
    requires s != []
    ensures var r := PadLeft(s, width); r != [] && r[|r| - 1] == s[|s| - 1]
  {
  }

  /** Composite format alignment {i,-w}: left-aligned. */
  function PadRight(s: string, width: nat): (r: string)
    ensures |r| == if |s| < width then width else |s|
    ensures r == s + Spaces(|r| - |s|)
  {
    if |s| < width then s + Spaces(width - |s|) else s
  }

  function ToUpperChar(c: char): char {
    if 'a' <= c <= 'z' then (c as int - 32) as char else c
  }

  /** string.ToUpper() on the ASCII letters. */
  function ToUpper(s: string): (r: string)
    ensures |r| == |s| && forall i :: 0 <= i < |s| ==> r[i] == ToUpperChar(s[i])
  {
    seq(|s|, i requires 0 <= i < |s| => ToUpperChar(s[i]))
  }

  /** Number of occurrences of c in s. */
  function Occurrences(s: string, c: char): nat {
    if s == [] then 0 else (if s[0] == c then 1 else 0) + Occurrences(s[1..], c)
  }

  /** Joins parts with the separator between consecutive parts. */
  function JoinWith(parts: seq<string>, sep: char): string
    requires |parts| > 0
  {
    if |parts| == 1 then parts[0] else parts[0] + [sep] + JoinWith(parts[1..], sep)
  }

  /** Three parts joined. */
  lemma JoinThree(parts: seq<string>, sep: char)
    requires |parts| == 3
    ensures JoinWith(parts, sep) == parts[0] + [sep] + parts[1] + [sep] + parts[2]
  {
    assert parts[1..][1..] == [parts[2]];
    assert JoinWith(parts[1..], sep) == parts[1] + [sep] + parts[2];
    assert parts[0] + [sep] + (parts[1] + [sep] + parts[2]) == parts[0] + [sep] + parts[1] + [sep] + parts[2];
  }

  /** s.Split(sep): every separator ends a token, so consecutive separators give empty tokens. */
  function Split(s: string, sep: char): (r: seq<string>)
    ensures |r| == Occurrences(s, sep) + 1
    ensures forall k :: 0 <= k < |r| ==> sep !in r[k]
    ensures JoinWith(r, sep) == s
  {
    if s == [] then [""]
    else if s[0] == sep then
      var rest := Split(s[1..], sep);
      assert s == [sep] + s[1..];
      [""] + rest
    else
      var rest := Split(s[1..], sep);
      var r := [[s[0]] + rest[0]] + rest[1..];
      assert r[1..] == rest[1..];
      assert s == [s[0]] + s[1..];
      r
  }

  const Int32Min: int := -0x8000_0000
  const Int32Max: int := 0x7FFF_FFFF

  function DigitValue(c: char): nat
    requires IsDigit(c)
  {
    assert c as int >= '0' as int;
    c as int - '0' as int
  }

  function DigitChar(d: nat): (c: char)
    requires d < 10
    ensures IsDigit(c) && DigitValue(c) == d
  {
    ('0' as int + d) as char
  }

  /** The value of a string of decimal digits, most significant first. */
  function DigitsValue(s: string): nat
    requires AllDigits(s)
  {
    if s == [] then 0 else DigitsValue(s[..|s| - 1]) * 10 + DigitValue(s[|s| - 1])
  }

  /**
   * int.Parse(s) with NumberStyles.Integer: white space around the number, one optional
   * sign, one or more ASCII digits, and a value inside the 32-bit range.
   * None where .NET throws FormatException or OverflowException.
   */
  function ParseInt(s: string): (r: Option<int>)
    ensures r.Some? ==> Int32Min <= r.value <= Int32Max
  {
    ParseSignedDigits(NumberStripEnd(NumberStripStart(s)))
  }

  /** StripStart with the white space of int.Parse. */
  function NumberStripStart(s: string): string {
    if s != [] && IsNumberWhite(s[0]) then NumberStripStart(s[1..]) else s
  }

  /** StripEnd with the white space of int.Parse. */
  function NumberStripEnd(s: string): string {
    if s != [] && IsNumberWhite(s[|s| - 1]) then NumberStripEnd(s[..|s| - 1]) else s
  }

  lemma {:induction false} NumberStripIsStrip(s: string)
    ensures NumberStripStart(s) == StripStart(s, IsNumberWhite)
    ensures NumberStripEnd(s) == StripEnd(s, IsNumberWhite)
  {
    if s != [] {
      NumberStripIsStrip(s[1..]);
      NumberStripIsStrip(s[..|s| - 1]);
    }
  }

  /** The number int.Parse reads once the surrounding white space is gone. */
  function ParseSignedDigits(t: string): (r: Option<int>)
    ensures r.Some? ==> Int32Min <= r.value <= Int32Max
  {
    var signed := |t| > 0 && (t[0] == '-' || t[0] == '+');
    var body := if signed then t[1..] else t;
    if body == [] then None
    else
      match ParseDigits(body)
      case None => None
      case Some(v) =>
        var n: int := if signed && t[0] == '-' then -(v as int) else v;
        if Int32Min <= n <= Int32Max then Some(n) else None
  }

  /** The value of a string of digits; None when some character is not a digit. */
  function ParseDigits(s: string): Option<nat> {
    if s == [] then Some(0)
    else if !IsDigit(s[|s| - 1]) then None
    else
      match ParseDigits(s[..|s| - 1])
      case None => None
      case Some(v) => Some(v * 10 + DigitValue(s[|s| - 1]))
  }

  /** ParseDigits reads exactly the digit strings, with their value. */
  lemma {:induction false} ParseDigitsValue(s: string)
    ensures ParseDigits(s).Some? <==> AllDigits(s)
    ensures AllDigits(s) ==> ParseDigits(s) == Some(DigitsValue(s))
  {
    if s != [] {
      var p := s[..|s| - 1];
      ParseDigitsValue(p);
      if !AllDigits(p) {
        var i :| 0 <= i < |p| && !IsDigit(p[i]);
        assert s[i] == p[i];
      }
    }
  }

  /** The decimal digits of n, as int.ToString() writes them. */
  function NatToString(n: nat): (r: string)
    ensures |r| > 0 && AllDigits(r) && DigitsValue(r) == n
    ensures n >= 10 ==> r[0] != '0'
  {
    if n < 10 then [DigitChar(n)]
    else
      var r := NatToString(n / 10) + [DigitChar(n % 10)];
      assert r[..|r| - 1] == NatToString(n / 10);
      r
  }

  /** int.ToString() with the invariant culture. */
  function IntToString(n: int): (r: string)
    ensures |r| > 0 && !IsWhite(r[0]) && !IsWhite(r[|r| - 1])
    ensures n >= 0 ==> r == NatToString(n)
    ensures n < 0 ==> r == "-" + NatToString(-n)
  {
    var d := NatToString(if n < 0 then -n else n);
    DigitNotWhite(d[0]);
    DigitNotWhite(d[|d| - 1]);
    if n < 0 then "-" + d else d
  }

  function Pow10(k: nat): (r: nat)
    ensures r >= 1
  {
    if k == 0 then 1 else 10 * Pow10(k - 1)
  }

  /** A number below 10^k is written with at most k digits. */
  lemma {:induction false} NatToStringLength(n: nat, k: nat)
    requires k >= 1 && n < Pow10(k)
    ensures |NatToString(n)| <= k
  {
    if n >= 10 {
      assert Pow10(1) == 10;
      NatToStringLength(n / 10, k - 1);
    }
  }

  /** int.Parse reads back what int.ToString wrote, whatever blanks surround it. */
  lemma ParseIntOfPadded(n: int, before: nat, after: nat)
    requires Int32Min <= n <= Int32Max
    ensures ParseInt(Spaces(before) + IntToString(n) + Spaces(after)) == Some(n)
  {
    var digits := IntToString(n);
    var full := Spaces(before) + digits + Spaces(after);
    DigitNotWhite(digits[|digits| - 1]);
    if n >= 0 {
      DigitNotWhite(digits[0]);
    }
    assert full == Spaces(before) + (digits + Spaces(after));
    StripStartPadded(digits + Spaces(after), before, IsNumberWhite);
    StripEndPadded(digits, after, IsNumberWhite);
    NumberStripIsStrip(full);
    NumberStripIsStrip(digits + Spaces(after));
    assert NumberStripEnd(NumberStripStart(full)) == digits;
    ParseSignedDigitsOfInt(n);
  }

  lemma ParseSignedDigitsOfInt(n: int)
    requires Int32Min <= n <= Int32Max
    ensures ParseSignedDigits(IntToString(n)) == Some(n)
  {
    var digits := IntToString(n);
    if n < 0 {
      var d := NatToString(-n);
      assert digits[0] == '-' && digits[1..] == d;
      ParseDigitsValue(d);
    } else {
      assert IsDigit(digits[0]);
      ParseDigitsValue(digits);
    }
  }

  /** A piece that ends a prefix of the line lies at the columns after what precedes it. */
  lemma AtHead(pre: string, piece: string, line: string)
    requires |pre| + |piece| <= |line| && line[..|pre| + |piece|] == pre + piece
    ensures line[|pre|..|pre| + |piece|] == piece
  {
    assert line[|pre|..|pre| + |piece|] == (pre + piece)[|pre|..];
  }

  /** What precedes a piece of a prefix is a prefix too. */
  lemma ExtendPrefix(pre: string, piece: string, line: string)
    requires |pre| + |piece| <= |line| && line[..|pre| + |piece|] == pre + piece
    ensures line[..|pre|] == pre
  {
    assert line[..|pre|] == (pre + piece)[..|pre|];
  }
}

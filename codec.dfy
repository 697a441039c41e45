/**
 * Text encodings the token layer relies on.
 *
 * jwt-go serialises a token as three base64url segments joined by '.', and the claims as JSON.
 * This module replaces that wire format by an escape-based text encoding with the two properties
 * the token code depends on: an encoded segment never contains the separators, and decoding
 * inverts encoding. Go's strings.Split / strings.Join and the decimal rendering of integers
 * are modelled exactly.
 */
module Codec {
  import opened Wrappers

  const Dot: char := '.'
  const Comma: char := ','
  const Backslash: char := '\\'

  // ---------------------------------------------------------------------------------------------
  // strings.Split and strings.Join on a one-character separator

  /** Splits `s` at every occurrence of `sep`; a string without `sep` is one part, "" included. */
  function Split(s: string, sep: char): (parts: seq<string>)
    ensures |parts| >= 1
    ensures forall i :: 0 <= i < |parts| ==> sep !in parts[i]
    decreases |s|
  {
    if s == [] then [[]]
    else
      var rest := Split(s[1..], sep);
      if s[0] == sep then [[]] + rest
      else [[s[0]] + rest[0]] + rest[1..]
  }

  /** Concatenates `parts` with `sep` between consecutive parts. */
  function Join(parts: seq<string>, sep: char): string
  {
    if |parts| == 0 then []
    else if |parts| == 1 then parts[0]
    else parts[0] + [sep] + Join(parts[1..], sep)
  }

  ghost predicate NoneContains(parts: seq<string>, c: char)
  {
    forall i :: 0 <= i < |parts| ==> c !in parts[i]
  }

  lemma {:induction false} SplitWithoutSeparator(a: string, sep: char)
    requires sep !in a
    ensures Split(a, sep) == [a]
    decreases |a|
  {
    if a != [] {
      SplitWithoutSeparator(a[1..], sep);
      assert [a[0]] + a[1..] == a;
    }
  }

  lemma {:induction false} SplitAfterPart(a: string, rest: string, sep: char)
    requires sep !in a
    ensures Split(a + [sep] + rest, sep) == [a] + Split(rest, sep)
    decreases |a|
  {
    var s := a + [sep] + rest;
    if a == [] {
      assert s[1..] == rest;
    } else {
      assert s[1..] == a[1..] + [sep] + rest;
      SplitAfterPart(a[1..], rest, sep);
      assert [a[0]] + a[1..] == a;
    }
  }

  /** Splitting undoes joining whenever no part contains the separator. */
  lemma {:induction false} SplitJoin(parts: seq<string>, sep: char)
    requires |parts| >= 1
    requires NoneContains(parts, sep)
    ensures Split(Join(parts, sep), sep) == parts
    decreases |parts|
  {
    if |parts| == 1 {
      SplitWithoutSeparator(parts[0], sep);
    } else {
      SplitJoin(parts[1..], sep);
      SplitAfterPart(parts[0], Join(parts[1..], sep), sep);
      assert [parts[0]] + parts[1..] == parts;
    }
  }

  /** The instance of SplitJoin for the three segments of a token. */
  lemma SplitThree(a: string, b: string, c: string, sep: char)
    requires sep !in a && sep !in b && sep !in c
    ensures Split(Join([a, b, c], sep), sep) == [a, b, c]
  {
    SplitJoin([a, b, c], sep);
  }

  /** A joined string contains no character that occurs neither in the parts nor as the separator. */
  lemma {:induction false} JoinAvoids(parts: seq<string>, sep: char, c: char)
    requires c != sep
    requires NoneContains(parts, c)
    ensures c !in Join(parts, sep)
    decreases |parts|
  {
    if |parts| > 1 {
      JoinAvoids(parts[1..], sep, c);
    }
  }

  // ---------------------------------------------------------------------------------------------
  // Segment encoding (the stand-in for base64url): '\' escapes '\', '.' and ','

  function EscapeChar(c: char): (e: string)
  {
    if c == Backslash then [Backslash, Backslash]
    else if c == Dot then [Backslash, 'p']
    else if c == Comma then [Backslash, 'c']
    else [c]
  }

  function UnescapeCode(c: char): Option<char>
  {
    if c == Backslash then Some(Backslash)
    else if c == 'p' then Some(Dot)
    else if c == 'c' then Some(Comma)
    else None
  }

  /** Encodes arbitrary text as a segment that contains neither '.' nor ','. */
  function EncodeSegment(s: string): (e: string)
    ensures Dot !in e && Comma !in e
    decreases |s|
  {
    if s == [] then [] else EscapeChar(s[0]) + EncodeSegment(s[1..])
  }

  /** Decodes a segment; malformed input (a raw separator or a bad escape) gives None. */
  function DecodeSegment(e: string): Option<string>
    decreases |e|
  {
    if e == [] then Some([])
    else if e[0] == Backslash then
      if |e| < 2 then None
      else
        match UnescapeCode(e[1])
        case None => None
        case Some(c) =>
          match DecodeSegment(e[2..])
          case None => None
          case Some(r) => Some([c] + r)
    else if e[0] == Dot || e[0] == Comma then None
    else
      match DecodeSegment(e[1..])
      case None => None
      case Some(r) => Some([e[0]] + r)
  }

  /** Decoding an encoded segment gives back the original text. */
  lemma {:induction false} DecodeEncodeSegment(s: string)
    ensures DecodeSegment(EncodeSegment(s)) == Some(s)
    decreases |s|
  {
    if s != [] {
      var e := EncodeSegment(s);
      var rest := EncodeSegment(s[1..]);
      DecodeEncodeSegment(s[1..]);
      assert e == EscapeChar(s[0]) + rest;
      if |EscapeChar(s[0])| == 2 {
        assert e[2..] == rest;
      } else {
        assert e[1..] == rest;
      }
      assert [s[0]] + s[1..] == s;
    }
  }

  // ---------------------------------------------------------------------------------------------
  // Decimal integers

  predicate IsDigit(c: char)
  {
    '0' <= c <= '9'
  }

  predicate AllDigits(s: string)
  {
    forall i :: 0 <= i < |s| ==> IsDigit(s[i])
  }

  function DigitChar(d: nat): (c: char)
    requires d < 10
    ensures IsDigit(c)
  {
    ['0', '1', '2', '3', '4', '5', '6', '7', '8', '9'][d]
  }

  function DigitValue(c: char): (d: nat)
    requires IsDigit(c)
    ensures d < 10
  {
    (c as int) - ('0' as int)
  }

  /** The shortest decimal rendering of `n`. */
  function NatToText(n: nat): (s: string)
    ensures |s| >= 1 && AllDigits(s)
    decreases n
  {
    if n < 10 then [DigitChar(n)] else NatToText(n / 10) + [DigitChar(n % 10)]
  }

  /** The value of a string of decimal digits ("" reads as 0). */
  function TextToNat(s: string): nat
    requires AllDigits(s)
    decreases |s|
  {
    if s == [] then 0 else TextToNat(s[..|s| - 1]) * 10 + DigitValue(s[|s| - 1])
  }

  lemma {:induction false} TextToNatOfNatToText(n: nat)
    ensures TextToNat(NatToText(n)) == n
    decreases n
  {
    var s := NatToText(n);
    if n >= 10 {
      TextToNatOfNatToText(n / 10);
      assert s[..|s| - 1] == NatToText(n / 10);
      assert DigitValue(DigitChar(n % 10)) == n % 10;
    } else {
      assert DigitValue(DigitChar(n)) == n;
    }
  }

  /** Decimal rendering with a leading '-' for negative values, as Go's strconv.Itoa. */
  function IntToText(i: int): (s: string)
    ensures |s| >= 1 && Dot !in s && Comma !in s
  {
    if i < 0 then ['-'] + NatToText(-i) else NatToText(i)
  }

  /** Reads an optional '-' followed by at least one digit; anything else gives None. */
  function TextToInt(s: string): Option<int>
  {
    if |s| >= 2 && s[0] == '-' && AllDigits(s[1..]) then
      var magnitude: int := TextToNat(s[1..]);
      Some(-magnitude)
    else if |s| >= 1 && AllDigits(s) then Some(TextToNat(s))
    else None
  }

  /** Reading a rendered integer gives the integer back. */
  lemma TextToIntOfIntToText(i: int)
    ensures TextToInt(IntToText(i)) == Some(i)
  {
    var s := IntToText(i);
    if i < 0 {
      assert s[1..] == NatToText(-i);
      TextToNatOfNatToText(-i);
    } else {
      TextToNatOfNatToText(i);
      assert !IsDigit('-');
      assert s[0] != '-';
    }
  }
}

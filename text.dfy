/** String helpers from Go's standard library that the core relies on:
    strings.Split on one separator, strings.HasPrefix/TrimPrefix, substring
    search, case folding for ILIKE, decimal formatting (%d, %.0f, %v) and
    strconv.ParseInt in base 10. */
module Text {
  import opened Common

  /** strings.Split(s, string(sep)): the fields between separators, in order;
      a string without the separator gives one field, "" gives [""]. */
  function Split(s: string, sep: char): (parts: seq<string>)
    ensures |parts| >= 1
    ensures forall i :: 0 <= i < |parts| ==> sep !in parts[i]
  {
    if s == [] then [[]]
    else
      var rest := Split(s[1..], sep);
      if s[0] == sep then [[]] + rest else [[s[0]] + rest[0]] + rest[1..]
  }

  /** strings.Join(parts, string(sep)). */
  function Join(parts: seq<string>, sep: char): string
    requires |parts| >= 1
  {
    if |parts| == 1 then parts[0] else parts[0] + [sep] + Join(parts[1..], sep)
  }

  /** Split loses nothing: joining the fields with the separator gives s back. */
  lemma {:induction false} JoinSplit(s: string, sep: char)
    ensures Join(Split(s, sep), sep) == s
  {
    if s != [] {
      var rest := Split(s[1..], sep);
      JoinSplit(s[1..], sep);
      if s[0] == sep {
        assert ([[]] + rest)[1..] == rest;
      } else if |rest| == 1 {
      } else {
        assert ([[s[0]] + rest[0]] + rest[1..])[1..] == rest[1..];
      }
    }
  }

  /** A string without the separator is a single field. */
  lemma {:induction false} SplitNoSep(s: string, sep: char)
    requires sep !in s
    ensures Split(s, sep) == [s]
  {
    if s != [] {
      SplitNoSep(s[1..], sep);
      assert [s[0]] + s[1..] == s;
    }
  }

  /** A field followed by the separator comes off the front of the split. */
  lemma {:induction false} SplitField(field: string, sep: char, rest: string)
    requires sep !in field
    ensures Split(field + [sep] + rest, sep) == [field] + Split(rest, sep)
  {
    if field == [] {
      assert field + [sep] + rest == [sep] + rest;
      assert ([sep] + rest)[1..] == rest;
    } else {
      var s := field + [sep] + rest;
      assert s[1..] == field[1..] + [sep] + rest;
      SplitField(field[1..], sep, rest);
      assert [s[0]] + field[1..] == field;
    }
  }

  predicate HasPrefix(s: string, prefix: string) {
    |prefix| <= |s| && s[..|prefix|] == prefix
  }

  /** Whether needle occurs in hay as a contiguous substring. */
  function Contains(hay: string, needle: string): (r: bool)
    ensures r <==> OccursAt(hay, needle)
    decreases |hay|
  {
    if |needle| > |hay| then false
    else if hay[..|needle|] == needle then assert MatchAt(hay, needle, 0); true
    else ShiftOccurrence(hay, needle); Contains(hay[1..], needle)
  }

  predicate MatchAt(hay: string, needle: string, i: int) {
    0 <= i && i + |needle| <= |hay| && hay[i..i + |needle|] == needle
  }

  ghost predicate OccursAt(hay: string, needle: string) {
    exists i :: MatchAt(hay, needle, i)
  }

  lemma ShiftOccurrence(hay: string, needle: string)
    requires |needle| <= |hay| && hay[..|needle|] != needle
    ensures OccursAt(hay, needle) <==> OccursAt(hay[1..], needle)
  {
    if OccursAt(hay, needle) {
      var i :| MatchAt(hay, needle, i);
      assert i != 0;
      assert hay[1..][i - 1..i - 1 + |needle|] == hay[i..i + |needle|];
      assert MatchAt(hay[1..], needle, i - 1);
    }
    if OccursAt(hay[1..], needle) {
      var i :| MatchAt(hay[1..], needle, i);
      assert hay[i + 1..i + 1 + |needle|] == hay[1..][i..i + |needle|];
      assert MatchAt(hay, needle, i + 1);
    }
  }

  /** Lower-casing of one character for case-insensitive matching: Latin A-Z,
      Cyrillic А-Я and Ё; every other character is its own fold. */
  function Fold(c: char): char {
    if 'A' <= c <= 'Z' then (c as int + 32) as char
    else if 'А' <= c <= 'Я' then (c as int + 32) as char
    else if c == 'Ё' then 'ё'
    else c
  }

  function FoldString(s: string): (r: string)
    ensures |r| == |s| && forall i :: 0 <= i < |s| ==> r[i] == Fold(s[i])
  {
    seq(|s|, i requires 0 <= i < |s| => Fold(s[i]))
  }

  predicate IsDigit(c: char) { '0' <= c <= '9' }

  function DigitVal(c: char): nat
    requires IsDigit(c)
  {
    c as int - '0' as int
  }

  /** Decimal text of a natural number, without leading zeros. */
  function NatToString(n: nat): (s: string)
    ensures |s| >= 1 && forall i :: 0 <= i < |s| ==> IsDigit(s[i])
    ensures s[0] == '0' ==> n == 0
  {
    var d := ('0' as int + n % 10) as char;
    if n < 10 then [d] else NatToString(n / 10) + [d]
  }

  /** The value of a string of decimal digits. */
  function DigitsValue(s: string): nat
    requires forall i :: 0 <= i < |s| ==> IsDigit(s[i])
  {
    if s == [] then 0 else DigitsValue(s[..|s| - 1]) * 10 + DigitVal(s[|s| - 1])
  }

  lemma {:induction false} DigitsValueOfNatToString(n: nat)
    ensures DigitsValue(NatToString(n)) == n
  {
    if n >= 10 {
      var s := NatToString(n);
      assert s[..|s| - 1] == NatToString(n / 10);
      DigitsValueOfNatToString(n / 10);
    }
  }

  /** fmt's %d. */
  function IntToString(i: int): (s: string)
    ensures |s| >= 1
  {
    if i < 0 then "-" + NatToString(-i) else NatToString(i)
  }

  const MinInt64: int := -0x8000_0000_0000_0000
  const MaxInt64: int := 0x7FFF_FFFF_FFFF_FFFF

  /** strconv.ParseInt(s, 10, 64): an optional sign, then one or more decimal
      digits, and a value that fits in 64 bits; None for everything else. */
  function ParseInt64(s: string): (r: Option<int>)
    ensures r.Some? ==> MinInt64 <= r.value <= MaxInt64
  {
    var neg := |s| > 0 && s[0] == '-';
    var body := if |s| > 0 && (s[0] == '-' || s[0] == '+') then s[1..] else s;
    if body == [] || exists i :: 0 <= i < |body| && !IsDigit(body[i]) then None
    else
      var v: int := if neg then -(DigitsValue(body) as int) else DigitsValue(body);
      if MinInt64 <= v <= MaxInt64 then Some(v) else None
  }

  /** ParseInt64 reads back what %d writes, for every 64-bit value. */
  lemma ParseIntToString(i: int)
    requires MinInt64 <= i <= MaxInt64
    ensures ParseInt64(IntToString(i)) == Some(i)
  {
    var s := IntToString(i);
    if i < 0 {
      assert s[1..] == NatToString(-i);
      DigitsValueOfNatToString(-i);
    } else {
      DigitsValueOfNatToString(i);
    }
  }

  /** Round to the nearest integer, ties to even, as fmt's %.0f does. */
  function RoundHalfEven(r: real): (n: int)
    ensures n as real - 0.5 <= r <= n as real + 0.5
    ensures r - r.Floor as real == 0.5 ==> n % 2 == 0
    ensures r - r.Floor as real != 0.5 ==> n as real - 0.5 < r < n as real + 0.5
  {
    var f := r.Floor;
    var d := r - f as real;
    if d < 0.5 then f else if d > 0.5 then f + 1 else if f % 2 == 0 then f else f + 1
  }

  /** fmt's %.0f; a negative value that rounds to zero prints as "-0". */
  function FormatFixed0(r: real): string {
    var n := RoundHalfEven(r);
    if n == 0 && r < 0.0 then "-0" else IntToString(n)
  }
}
